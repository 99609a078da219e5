/** Aggregation of allocations into a new account value
    (`calculate_account_value`). */
module Account {
  import opened Options
  import opened Rounding
  import opened Crediting

  /** One line of a client's account, as it arrives in the request. Every
      field may be absent; the defaults are those the loop applies. */
  datatype Allocation = Allocation(
    name: Option<string>,
    allocationPct: Option<real>,
    isFixed: Option<bool>,
    indexReturn: Option<real>,
    capRate: Option<real>,
    parRate: Option<real>,
    spreadRate: Option<real>,
    fixedRate: Option<real>)

  /** One row of the result: the allocation with its derived amounts. */
  datatype AllocationResult = AllocationResult(
    name: string,
    allocationPct: real,
    allocAmount: real,
    indexReturn: Option<real>,
    creditedReturn: real,
    newAmount: real,
    capRate: Option<real>,
    parRate: Option<real>,
    spreadRate: Option<real>,
    fixedRate: Option<real>,
    isFixed: bool)

  /** The allocation weight, in percent; absent means 0. */
  function Weight(a: Allocation): real
  {
    a.allocationPct.GetOr(0.0)
  }

  /** Only an explicit true marks a fixed allocation. */
  predicate IsFixed(a: Allocation)
  {
    a.isFixed == Some(true)
  }

  /** The credited percentage of one allocation: a fixed allocation earns
      its fixed rate (0 when absent) without the indexed pipeline; an
      indexed one goes through `CreditedReturn` with its own rates. */
  function Credit(a: Allocation): (r: real)
    // an indexed allocation is never credited a negative rate
    ensures !IsFixed(a) ==> r >= 0.0
    // a fixed allocation without a fixed rate is credited nothing
    ensures IsFixed(a) && a.fixedRate.None? ==> r == 0.0
  {
    if IsFixed(a) then a.fixedRate.GetOr(0.0)
    else CreditedReturn(a.indexReturn, a.capRate, a.parRate, a.spreadRate)
  }

  /** The share of the current value held by the allocation. */
  function AllocAmount(currentValue: real, a: Allocation): real
  {
    currentValue * (Weight(a) / 100.0)
  }

  /** The share grown by the credited percentage (not rounded). */
  function NewAmount(currentValue: real, a: Allocation): real
  {
    AllocAmount(currentValue, a) * (1.0 + Credit(a) / 100.0)
  }

  /** The result row the loop emits for one allocation. */
  function ResultOf(currentValue: real, a: Allocation): (r: AllocationResult)
    // a row reports an index return only for an indexed allocation, and then the input's
    ensures r.indexReturn.Some? ==> !IsFixed(a) && r.indexReturn == a.indexReturn
    // an indexed row never reports a negative credited return
    ensures !IsFixed(a) ==> r.creditedReturn >= 0.0
  {
    RoundSign(Credit(a), 4);
    AllocationResult(
      name := a.name.GetOr(""),
      allocationPct := Weight(a),
      allocAmount := Round(AllocAmount(currentValue, a), 2),
      indexReturn := if IsFixed(a) then None else a.indexReturn,
      creditedReturn := Round(Credit(a), 4),
      newAmount := Round(NewAmount(currentValue, a), 2),
      capRate := a.capRate,
      parRate := a.parRate,
      spreadRate := a.spreadRate,
      fixedRate := a.fixedRate,
      isFixed := a.isFixed.GetOr(false))
  }

  /** The unrounded new amounts, added left to right. */
  function TotalNew(currentValue: real, allocations: seq<Allocation>): real
  {
    if allocations == [] then 0.0
    else TotalNew(currentValue, allocations[..|allocations| - 1])
         + NewAmount(currentValue, allocations[|allocations| - 1])
  }

  /** The unrounded allocated amounts, added left to right. */
  function TotalAllocated(currentValue: real, allocations: seq<Allocation>): real
  {
    if allocations == [] then 0.0
    else TotalAllocated(currentValue, allocations[..|allocations| - 1])
         + AllocAmount(currentValue, allocations[|allocations| - 1])
  }

  /** The weights, added. */
  function TotalWeight(allocations: seq<Allocation>): real
  {
    if allocations == [] then 0.0
    else TotalWeight(allocations[..|allocations| - 1]) + Weight(allocations[|allocations| - 1])
  }

  /** The per-row new amounts as reported (each rounded to cents), added. */
  function TotalReportedRows(results: seq<AllocationResult>): real
  {
    if results == [] then 0.0
    else TotalReportedRows(results[..|results| - 1]) + results[|results| - 1].newAmount
  }

  /** `calculate_account_value`: one result per allocation, in order, and
      the new account value, which is the sum of the unrounded new amounts
      rounded once to cents. */
  method CalculateAccountValue(currentValue: real, allocations: seq<Allocation>)
    returns (newValue: real, results: seq<AllocationResult>)
    ensures |results| == |allocations|
    ensures forall k :: 0 <= k < |allocations| ==> results[k] == ResultOf(currentValue, allocations[k])
    ensures newValue == Round(TotalNew(currentValue, allocations), 2)
  {
    var totalNew := 0.0;
    results := [];
    var i := 0;
    while i < |allocations|
      invariant 0 <= i <= |allocations|
      invariant |results| == i
      invariant forall k :: 0 <= k < i ==> results[k] == ResultOf(currentValue, allocations[k])
      invariant totalNew == TotalNew(currentValue, allocations[..i])
    {
      var alloc := allocations[i];
      var pct := alloc.allocationPct.GetOr(0.0);
      var allocAmount := currentValue * (pct / 100.0);
      var credited;
      if alloc.isFixed == Some(true) {
        credited := alloc.fixedRate.GetOr(0.0);
      } else {
        credited := CreditedReturn(alloc.indexReturn, alloc.capRate, alloc.parRate, alloc.spreadRate);
      }
      var newAmount := allocAmount * (1.0 + credited / 100.0);
      assert credited == Credit(alloc);
      assert allocAmount == AllocAmount(currentValue, alloc);
      assert newAmount == NewAmount(currentValue, alloc);
      assert allocations[..i + 1][..i] == allocations[..i];
      totalNew := totalNew + newAmount;
      var row := AllocationResult(
        name := alloc.name.GetOr(""),
        allocationPct := pct,
        allocAmount := Round(allocAmount, 2),
        indexReturn := if alloc.isFixed == Some(true) then None else alloc.indexReturn,
        creditedReturn := Round(credited, 4),
        newAmount := Round(newAmount, 2),
        capRate := alloc.capRate,
        parRate := alloc.parRate,
        spreadRate := alloc.spreadRate,
        fixedRate := alloc.fixedRate,
        isFixed := alloc.isFixed.GetOr(false));
      assert row == ResultOf(currentValue, alloc);
      results := results + [row];
      i := i + 1;
    }
    assert allocations[..i] == allocations;
    newValue := Round(totalNew, 2);
  }

  /** Each result row copies the allocation's identifying fields and rates;
      its index return is dropped for a fixed allocation and kept for an
      indexed one. */
  lemma ResultCopiesInput(currentValue: real, a: Allocation)
    ensures ResultOf(currentValue, a).name == a.name.GetOr("")
    ensures ResultOf(currentValue, a).allocationPct == Weight(a)
    ensures ResultOf(currentValue, a).capRate == a.capRate
    ensures ResultOf(currentValue, a).parRate == a.parRate
    ensures ResultOf(currentValue, a).spreadRate == a.spreadRate
    ensures ResultOf(currentValue, a).fixedRate == a.fixedRate
    ensures IsFixed(a) ==> ResultOf(currentValue, a).indexReturn.None?
    ensures !IsFixed(a) ==> ResultOf(currentValue, a).indexReturn == a.indexReturn
  {
  }

  /** A fixed allocation is credited its fixed rate (0 when absent), and
      the indexed pipeline is not consulted: its index return, cap,
      participation and spread have no effect. */
  lemma FixedIgnoresIndexRates(a: Allocation, b: Allocation)
    requires IsFixed(a) && IsFixed(b) && a.fixedRate == b.fixedRate
    ensures Credit(a) == Credit(b)
    ensures a.fixedRate.None? ==> Credit(a) == 0.0
    ensures a.fixedRate.Some? ==> Credit(a) == a.fixedRate.value
  {
  }

  /** The reported credited return of an indexed allocation is the
      pipeline's already-rounded value: rounding it again changes nothing. */
  lemma IndexedCreditRoundedOnce(currentValue: real, a: Allocation)
    requires !IsFixed(a)
    ensures ResultOf(currentValue, a).creditedReturn == Credit(a)
  {
    var ir, cap, par, spread := a.indexReturn, a.capRate, a.parRate, a.spreadRate;
    if GainRemains(ir, spread) {
      RoundIdempotent(PreRounding(ir, cap, par, spread), 4);
    } else {
      assert HasPlaces(0.0, 4);
      RoundExact(0.0, 4);
    }
  }

  /** An indexed allocation with a non-negative share never loses value. */
  lemma IndexedNeverLoses(currentValue: real, a: Allocation)
    requires currentValue >= 0.0 && Weight(a) >= 0.0 && !IsFixed(a)
    ensures NewAmount(currentValue, a) >= AllocAmount(currentValue, a)
  {
    var amount := AllocAmount(currentValue, a);
    assert amount >= 0.0;
    assert Credit(a) >= 0.0;
    assert amount * (1.0 + Credit(a) / 100.0) == amount + amount * (Credit(a) / 100.0);
    assert amount * (Credit(a) / 100.0) >= 0.0;
  }

  /** The allocated amounts add up to the current value times the total
      weight. */
  lemma {:induction false} TotalAllocatedIsWeighted(currentValue: real, allocations: seq<Allocation>)
    ensures TotalAllocated(currentValue, allocations) == currentValue * (TotalWeight(allocations) / 100.0)
  {
    if allocations != [] {
      var n := |allocations| - 1;
      TotalAllocatedIsWeighted(currentValue, allocations[..n]);
      assert currentValue * (TotalWeight(allocations[..n]) / 100.0) + currentValue * (Weight(allocations[n]) / 100.0)
             == currentValue * ((TotalWeight(allocations[..n]) + Weight(allocations[n])) / 100.0);
    }
  }

  /** Indexed-only account: the new amounts add up to at least the
      allocated amounts. */
  lemma {:induction false} TotalNewCoversAllocated(currentValue: real, allocations: seq<Allocation>)
    requires currentValue >= 0.0
    requires forall k :: 0 <= k < |allocations| ==> Weight(allocations[k]) >= 0.0 && !IsFixed(allocations[k])
    ensures TotalNew(currentValue, allocations) >= TotalAllocated(currentValue, allocations)
  {
    if allocations != [] {
      var n := |allocations| - 1;
      TotalNewCoversAllocated(currentValue, allocations[..n]);
      IndexedNeverLoses(currentValue, allocations[n]);
    }
  }

  /** An all-indexed account whose non-negative weights add up to 100%
      is never worth less than the current value (both rounded to cents). */
  lemma FullyIndexedAccountNeverLoses(currentValue: real, allocations: seq<Allocation>)
    requires currentValue >= 0.0
    requires forall k :: 0 <= k < |allocations| ==> Weight(allocations[k]) >= 0.0 && !IsFixed(allocations[k])
    requires TotalWeight(allocations) == 100.0
    ensures Round(TotalNew(currentValue, allocations), 2) >= Round(currentValue, 2)
  {
    TotalAllocatedIsWeighted(currentValue, allocations);
    TotalNewCoversAllocated(currentValue, allocations);
    RoundMonotone(currentValue, TotalNew(currentValue, allocations), 2);
  }

  /** The new account value is within half a cent of the sum of the
      unrounded new amounts. */
  lemma NewValueNearTotal(currentValue: real, allocations: seq<Allocation>)
    ensures -0.005 < Round(TotalNew(currentValue, allocations), 2) - TotalNew(currentValue, allocations) <= 0.005
  {
    RoundError(TotalNew(currentValue, allocations), 2);
    assert Pow10(2) == 100.0;
  }

  /** Rounding once at the end is not the same as adding the rounded rows:
      two rows of half a cent each report a cent apiece, while the account
      value is one cent. */
  lemma RoundOnceDiffersFromRoundedRows()
    ensures var allocations := [HalfOfAccount(), HalfOfAccount()];
            Round(TotalNew(0.01, allocations), 2) == 0.01 &&
            TotalReportedRows([ResultOf(0.01, HalfOfAccount()), ResultOf(0.01, HalfOfAccount())]) == 0.02
  {
    var a := HalfOfAccount();
    assert Pow10(2) == 100.0;
    assert NewAmount(0.01, a) == 0.005;
    assert [a, a][..1] == [a];
    assert [a][..0] == [];
    assert TotalNew(0.01, [a]) == 0.005;
    assert TotalNew(0.01, [a, a]) == 0.01;
    assert Round(0.005, 2) == 0.01 by {
      assert (0.005 * 100.0 + 0.5).Floor == 1;
    }
    assert Round(0.01, 2) == 0.01 by {
      assert (0.01 * 100.0 + 0.5).Floor == 1;
    }
    var row := ResultOf(0.01, a);
    assert [row, row][..1] == [row];
  }

  /** A fixed allocation of half the account at a 0% fixed rate. */
  function HalfOfAccount(): Allocation
  {
    Allocation(None, Some(50.0), Some(true), None, None, None, None, Some(0.0))
  }

  /** Worked example: half of a 50,000 account at a 2.5% fixed rate is
      25,000 growing to 25,625. */
  lemma FixedExample()
    ensures var a := Allocation(None, Some(50.0), Some(true), None, None, None, None, Some(2.5));
            AllocAmount(50000.0, a) == 25000.0 && NewAmount(50000.0, a) == 25625.0
  {
  }

  /** Worked example: a 100,000 account wholly in an index returning 8.5%
      under a 6% cap is worth 106,000. */
  lemma CappedAccountExample()
    ensures var a := Allocation(None, Some(100.0), None, Some(8.5), Some(6.0), Some(100.0), Some(0.0), None);
            Round(TotalNew(100000.0, [a]), 2) == 106000.0
  {
    var a := Allocation(None, Some(100.0), None, Some(8.5), Some(6.0), Some(100.0), Some(0.0), None);
    CappedExample();
    assert NewAmount(100000.0, a) == 106000.0;
    assert [a][..0] == [];
    assert Pow10(2) == 100.0;
    assert HasPlaces(106000.0, 2);
    RoundExact(106000.0, 2);
  }
}
