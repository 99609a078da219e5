/** The fixed-indexed-annuity crediting formula (`calculate_credited_return`).

    All rates are percentages. Each optional rate is applied only when it
    is present and positive; an absent rate and a rate <= 0 both skip
    their step. The steps run in a fixed order: no gain -> nothing,
    spread (which may use up the whole gain), participation, cap, and
    finally rounding to 4 places with a floor at 0. */
module Crediting {
  import opened Options
  import opened Rounding

  /** A rate takes effect: it is present and positive. */
  predicate Applies(rate: Option<real>)
  {
    rate.Some? && rate.value > 0.0
  }

  function Min(a: real, b: real): real { if a <= b then a else b }
  function Max(a: real, b: real): real { if a >= b then a else b }

  /** Step 2: the spread is deducted from the index return. */
  function AfterSpread(indexReturn: real, spreadRate: Option<real>): real
  {
    if Applies(spreadRate) then indexReturn - spreadRate.value else indexReturn
  }

  /** Step 3: the remainder is scaled by the participation rate, par/100. */
  function AfterPar(credited: real, parRate: Option<real>): real
  {
    if Applies(parRate) then credited * (parRate.value / 100.0) else credited
  }

  /** Step 4: the cap bounds the credited amount. */
  function AfterCap(credited: real, capRate: Option<real>): real
  {
    if Applies(capRate) then Min(credited, capRate.value) else credited
  }

  /** There is a gain left to credit once the spread is deducted; when
      there is not, `calculate_credited_return` returns 0.0 early. */
  predicate GainRemains(indexReturn: Option<real>, spreadRate: Option<real>)
  {
    Applies(indexReturn) && !(Applies(spreadRate) && AfterSpread(indexReturn.value, spreadRate) <= 0.0)
  }

  /** The value of `credited` just before the final rounding, on the path
      that does not return early. */
  function PreRounding(indexReturn: Option<real>, capRate: Option<real>, parRate: Option<real>,
                       spreadRate: Option<real>): real
    requires GainRemains(indexReturn, spreadRate)
  {
    AfterCap(AfterPar(AfterSpread(indexReturn.value, spreadRate), parRate), capRate)
  }

  /** `calculate_credited_return`: the credited percentage for one
      indexed allocation. Total: it is defined for every input. */
  function CreditedReturn(indexReturn: Option<real>, capRate: Option<real>, parRate: Option<real>,
                          spreadRate: Option<real>): (r: real)
    // never negative, whatever the rates
    ensures r >= 0.0
    // no gain (absent or <= 0) gives exactly 0, whatever the other rates
    ensures !Applies(indexReturn) ==> r == 0.0
    // a positive spread at least as large as the gain uses it up
    ensures Applies(spreadRate) && indexReturn.Some? && spreadRate.value >= indexReturn.value ==> r == 0.0
    // otherwise the result is the pipeline's value, rounded to 4 places
    ensures GainRemains(indexReturn, spreadRate) ==>
              r == Round(PreRounding(indexReturn, capRate, parRate, spreadRate), 4)
  {
    if !GainRemains(indexReturn, spreadRate) then 0.0
    else
      var credited := PreRounding(indexReturn, capRate, parRate, spreadRate);
      PreRoundingPositive(indexReturn, capRate, parRate, spreadRate);
      RoundSign(credited, 4);
      Max(Round(credited, 4), 0.0)
  }

  /** On the path that reaches the rounding, the value is positive, so the
      final floor at 0 never changes it. */
  lemma PreRoundingPositive(indexReturn: Option<real>, capRate: Option<real>, parRate: Option<real>,
                            spreadRate: Option<real>)
    requires GainRemains(indexReturn, spreadRate)
    ensures PreRounding(indexReturn, capRate, parRate, spreadRate) > 0.0
  {
    var s := AfterSpread(indexReturn.value, spreadRate);
    assert s > 0.0;
    if Applies(parRate) {
      assert s * (parRate.value / 100.0) > 0.0;
    }
  }

  /** The credited return is 0 before rounding exactly when there is no
      gain to credit or the spread consumes it. */
  lemma EarlyExitExactly(indexReturn: Option<real>, spreadRate: Option<real>)
    ensures !GainRemains(indexReturn, spreadRate) <==>
              (!Applies(indexReturn) || (Applies(spreadRate) && spreadRate.value >= indexReturn.value))
  {
  }

  /** With a positive cap, the value before rounding is at most the cap,
      and the credited return is at most the rounded cap (the cap itself
      when it has at most 4 decimals). */
  lemma CapBounds(indexReturn: Option<real>, capRate: Option<real>, parRate: Option<real>,
                  spreadRate: Option<real>)
    requires Applies(capRate)
    ensures GainRemains(indexReturn, spreadRate) ==>
              PreRounding(indexReturn, capRate, parRate, spreadRate) <= capRate.value
    ensures CreditedReturn(indexReturn, capRate, parRate, spreadRate) <= Round(capRate.value, 4)
    ensures HasPlaces(capRate.value, 4) ==>
              CreditedReturn(indexReturn, capRate, parRate, spreadRate) <= capRate.value
  {
    var r := CreditedReturn(indexReturn, capRate, parRate, spreadRate);
    RoundSign(capRate.value, 4);
    if GainRemains(indexReturn, spreadRate) {
      RoundMonotone(PreRounding(indexReturn, capRate, parRate, spreadRate), capRate.value, 4);
    }
    if HasPlaces(capRate.value, 4) {
      RoundExact(capRate.value, 4);
    }
  }

  /** Cap dominance: when the spread-adjusted, participation-scaled value
      reaches the cap, the credited return is the (rounded) cap. */
  lemma CapDominates(indexReturn: Option<real>, capRate: Option<real>, parRate: Option<real>,
                     spreadRate: Option<real>)
    requires GainRemains(indexReturn, spreadRate) && Applies(capRate)
    requires AfterPar(AfterSpread(indexReturn.value, spreadRate), parRate) >= capRate.value
    ensures CreditedReturn(indexReturn, capRate, parRate, spreadRate) == Round(capRate.value, 4)
    ensures HasPlaces(capRate.value, 4) ==>
              CreditedReturn(indexReturn, capRate, parRate, spreadRate) == capRate.value
  {
    if HasPlaces(capRate.value, 4) {
      RoundExact(capRate.value, 4);
    }
  }

  /** With spread, participation and cap all skipped, a positive index
      return is credited as is, rounded to 4 places. */
  lemma NothingApplied(indexReturn: Option<real>, capRate: Option<real>, parRate: Option<real>,
                       spreadRate: Option<real>)
    requires Applies(indexReturn)
    requires !Applies(capRate) && !Applies(parRate) && !Applies(spreadRate)
    ensures CreditedReturn(indexReturn, capRate, parRate, spreadRate) == Round(indexReturn.value, 4)
    ensures HasPlaces(indexReturn.value, 4) ==>
              CreditedReturn(indexReturn, capRate, parRate, spreadRate) == indexReturn.value
  {
    if HasPlaces(indexReturn.value, 4) {
      RoundExact(indexReturn.value, 4);
    }
  }

  /** The order of the steps: the spread comes off the index return before
      participation scales it, and the cap bounds the scaled amount. */
  lemma StepOrder(indexReturn: Option<real>, capRate: Option<real>, parRate: Option<real>,
                  spreadRate: Option<real>)
    requires Applies(indexReturn) && Applies(capRate) && Applies(parRate) && Applies(spreadRate)
    requires spreadRate.value < indexReturn.value
    ensures CreditedReturn(indexReturn, capRate, parRate, spreadRate)
            == Round(Min((indexReturn.value - spreadRate.value) * (parRate.value / 100.0), capRate.value), 4)
  {
    var s := AfterSpread(indexReturn.value, spreadRate);
    assert s == indexReturn.value - spreadRate.value;
    assert AfterPar(s, parRate) == s * (parRate.value / 100.0);
    assert PreRounding(indexReturn, capRate, parRate, spreadRate)
           == Min((indexReturn.value - spreadRate.value) * (parRate.value / 100.0), capRate.value);
  }

  lemma ScaleMonotone(k: real, a: real, b: real)
    requires k >= 0.0 && a <= b
    ensures k * a <= k * b
  {
    assert k * b - k * a == k * (b - a);
  }

  lemma AfterParMonotone(x: real, y: real, parRate: Option<real>)
    requires x <= y
    ensures AfterPar(x, parRate) <= AfterPar(y, parRate)
  {
    if Applies(parRate) {
      ScaleMonotone(parRate.value / 100.0, x, y);
      assert x * (parRate.value / 100.0) <= y * (parRate.value / 100.0);
    }
  }

  lemma AfterParRateMonotone(x: real, par1: real, par2: real)
    requires x >= 0.0 && 0.0 < par1 <= par2
    ensures AfterPar(x, Some(par1)) <= AfterPar(x, Some(par2))
  {
    ScaleMonotone(x, par1 / 100.0, par2 / 100.0);
  }

  lemma AfterCapMonotone(x: real, y: real, capRate: Option<real>)
    requires x <= y
    ensures AfterCap(x, capRate) <= AfterCap(y, capRate)
  {
  }

  /** A higher participation rate never lowers the credited return
      (both rates positive, other inputs fixed). */
  lemma ParMonotone(indexReturn: Option<real>, capRate: Option<real>, par1: real, par2: real,
                    spreadRate: Option<real>)
    requires 0.0 < par1 <= par2
    ensures CreditedReturn(indexReturn, capRate, Some(par1), spreadRate)
            <= CreditedReturn(indexReturn, capRate, Some(par2), spreadRate)
  {
    if GainRemains(indexReturn, spreadRate) {
      var s := AfterSpread(indexReturn.value, spreadRate);
      AfterParRateMonotone(s, par1, par2);
      AfterCapMonotone(AfterPar(s, Some(par1)), AfterPar(s, Some(par2)), capRate);
      RoundMonotone(PreRounding(indexReturn, capRate, Some(par1), spreadRate),
                    PreRounding(indexReturn, capRate, Some(par2), spreadRate), 4);
    }
  }

  /** A higher index return never lowers the credited return (other
      inputs fixed). */
  lemma IndexReturnMonotone(ret1: real, ret2: real, capRate: Option<real>, parRate: Option<real>,
                            spreadRate: Option<real>)
    requires ret1 <= ret2
    ensures CreditedReturn(Some(ret1), capRate, parRate, spreadRate)
            <= CreditedReturn(Some(ret2), capRate, parRate, spreadRate)
  {
    if GainRemains(Some(ret1), spreadRate) {
      assert GainRemains(Some(ret2), spreadRate);
      var s1 := AfterSpread(ret1, spreadRate);
      var s2 := AfterSpread(ret2, spreadRate);
      AfterParMonotone(s1, s2, parRate);
      AfterCapMonotone(AfterPar(s1, parRate), AfterPar(s2, parRate), capRate);
      RoundMonotone(PreRounding(Some(ret1), capRate, parRate, spreadRate),
                    PreRounding(Some(ret2), capRate, parRate, spreadRate), 4);
    }
  }

  /** An absent index return and the default 0.0 that the account loop
      passes in its place are credited alike. */
  lemma AbsentIndexReturnIsZero(capRate: Option<real>, parRate: Option<real>, spreadRate: Option<real>)
    ensures CreditedReturn(None, capRate, parRate, spreadRate)
            == CreditedReturn(Some(0.0), capRate, parRate, spreadRate) == 0.0
  {
  }

  lemma Pow10Four()
    ensures Pow10(4) == 10000.0
  {
    assert Pow10(2) == 100.0;
  }

  /** Worked example: an 8.5% index return under a 6% cap, 100%
      participation and no spread is credited 6%. */
  lemma CappedExample()
    ensures CreditedReturn(Some(8.5), Some(6.0), Some(100.0), Some(0.0)) == 6.0
  {
    Pow10Four();
    assert HasPlaces(6.0, 4);
    CapDominates(Some(8.5), Some(6.0), Some(100.0), Some(0.0));
  }

  /** An absent or non-positive participation rate means full
      participation: it credits what a 100% rate credits. */
  lemma NoParIsFullParticipation(indexReturn: Option<real>, capRate: Option<real>, parRate: Option<real>,
                                 spreadRate: Option<real>)
    requires !Applies(parRate)
    ensures CreditedReturn(indexReturn, capRate, parRate, spreadRate)
            == CreditedReturn(indexReturn, capRate, Some(100.0), spreadRate)
  {
    if GainRemains(indexReturn, spreadRate) {
      var s := AfterSpread(indexReturn.value, spreadRate);
      assert AfterPar(s, Some(100.0)) == s;
    }
  }

  /** Worked example: a 4% spread on a 3% index return credits nothing. */
  lemma SpreadExceedsReturnExample()
    ensures CreditedReturn(Some(3.0), None, None, Some(4.0)) == 0.0
  {
  }
}
