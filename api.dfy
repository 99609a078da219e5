/** The pure parts of the two HTTP handlers that compute: the validation
    and total-return arithmetic of the calculate request, and the file
    name given to a generated report. */
module Api {
  import opened Options
  import opened Rounding
  import opened Account

  /** The response of the calculate request. */
  datatype CalculateResponse =
    | Calculated(currentValue: real, newValue: real, totalReturnPct: real,
                 allocations: seq<AllocationResult>)
    | BadRequest(status: nat, message: string)

  /** The growth of the account in percent, rounded to 4 places; the
      handler only computes it for a positive current value. */
  function TotalReturnPct(currentValue: real, newValue: real): (r: real)
    requires currentValue > 0.0
    ensures newValue >= currentValue ==> r >= 0.0
    ensures newValue <= currentValue ==> r <= 0.0
    ensures newValue == currentValue ==> r == 0.0
    ensures -0.5 / Pow10(4) < r - (newValue - currentValue) / currentValue * 100.0 <= 0.5 / Pow10(4)
  {
    var growth := (newValue - currentValue) / currentValue * 100.0;
    RoundSign(growth, 4);
    RoundError(growth, 4);
    Round(growth, 4)
  }

  /** `api_calculate`: a current value that is absent (read as 0) or not
      positive is refused with status 400 before anything is computed;
      otherwise the allocations (absent: none) are credited. */
  method ApiCalculate(currentValue: Option<real>, allocations: Option<seq<Allocation>>)
    returns (response: CalculateResponse)
    ensures response.BadRequest? <==> currentValue.GetOr(0.0) <= 0.0
    ensures response.BadRequest? ==> response == BadRequest(400, "Current value must be > 0")
    ensures response.Calculated? ==>
              var value, allocs := currentValue.GetOr(0.0), allocations.GetOr([]);
              && response.currentValue == value
              && response.newValue == Round(TotalNew(value, allocs), 2)
              && response.totalReturnPct == TotalReturnPct(value, response.newValue)
              && |response.allocations| == |allocs|
              && forall k :: 0 <= k < |allocs| ==> response.allocations[k] == ResultOf(value, allocs[k])
  {
    var value := currentValue.GetOr(0.0);
    var allocs := allocations.GetOr([]);
    if value <= 0.0 {
      return BadRequest(400, "Current value must be > 0");
    }
    var newValue, results := CalculateAccountValue(value, allocs);
    response := Calculated(value, newValue, TotalReturnPct(value, newValue), results);
  }

  /** Worked example: 100,000 growing to 106,000 is a 6% total return. */
  lemma TotalReturnExample()
    ensures TotalReturnPct(100000.0, 106000.0) == 6.0
  {
    assert Pow10(2) == 100.0;
    assert Pow10(4) == 10000.0;
    assert (106000.0 - 100000.0) / 100000.0 * 100.0 == 6.0;
    assert HasPlaces(6.0, 4);
    RoundExact(6.0, 4);
  }

  /** Python's `s.replace(target, replacement)` for a one-character `target`. */
  function ReplaceChar(s: string, target: char, replacement: char): (r: string)
    ensures |r| == |s|
    ensures forall i :: 0 <= i < |s| ==> r[i] == (if s[i] == target then replacement else s[i])
  {
    if s == [] then []
    else [if s[0] == target then replacement else s[0]] + ReplaceChar(s[1..], target, replacement)
  }

  /** The client name as it appears in the report's file name: spaces,
      then slashes, replaced by underscores. */
  function SafeName(clientName: string): (r: string)
    ensures |r| == |clientName|
    ensures ' ' !in r && '/' !in r
  {
    ReplaceChar(ReplaceChar(clientName, ' ', '_'), '/', '_')
  }

  /** The sanitised name keeps the length of the client name, holds no
      space and no slash, and leaves every other character where it was. */
  lemma SafeNameSpec(clientName: string)
    ensures |SafeName(clientName)| == |clientName|
    ensures ' ' !in SafeName(clientName) && '/' !in SafeName(clientName)
    ensures forall i :: 0 <= i < |clientName| && clientName[i] != ' ' && clientName[i] != '/' ==>
              SafeName(clientName)[i] == clientName[i]
    ensures forall i :: 0 <= i < |clientName| && (clientName[i] == ' ' || clientName[i] == '/') ==>
              SafeName(clientName)[i] == '_'
  {
    var safe := SafeName(clientName);
    forall i | 0 <= i < |safe|
      ensures safe[i] != ' ' && safe[i] != '/'
    {
    }
  }

  /** Sanitising a sanitised name changes nothing. */
  lemma SafeNameIdempotent(clientName: string)
    ensures SafeName(SafeName(clientName)) == SafeName(clientName)
  {
    SafeNameSpec(clientName);
    SafeNameSpec(SafeName(clientName));
  }

  /** Where the three parts of a concatenation sit, and which characters
      it holds. */
  lemma ThreeParts(a: string, b: string, c: string)
    ensures |a + b + c| == |a| + |b| + |c|
    ensures (a + b + c)[..|a|] == a && (a + b + c)[|a|..|a| + |b|] == b && (a + b + c)[|a| + |b|..] == c
  {
    assert (a + b + c)[|a|..] == b + c;
  }

  /** A concatenation of parts without spaces and slashes has none. */
  lemma NoSpaceOrSlash(a: string, b: string, c: string)
    requires ' ' !in a && '/' !in a && ' ' !in b && '/' !in b && ' ' !in c && '/' !in c
    ensures ' ' !in a + b + c && '/' !in a + b + c
  {
  }

  /** The fixed start of every report file name. */
  const ReportPrefix: string := "GFA_Annuity_Report_"

  lemma ReportPrefixClean()
    ensures ' ' !in ReportPrefix && '/' !in ReportPrefix
  {
    assert forall i :: 0 <= i < |ReportPrefix| ==> ReportPrefix[i] != ' ' && ReportPrefix[i] != '/';
  }

  /** The report file name around an already sanitised name. */
  function FilenameAround(safe: string, dateStamp: string): (f: string)
    ensures |f| == 19 + |safe| + 1 + |dateStamp| + 4
    ensures f[..19] == "GFA_Annuity_Report_" && f[|f| - 4..] == ".pdf"
    ensures f[19..19 + |safe|] == safe
    ensures f[19 + |safe|..|f| - 4] == "_" + dateStamp
    ensures ' ' !in safe && '/' !in safe && ' ' !in dateStamp && '/' !in dateStamp ==> ' ' !in f && '/' !in f
  {
    var prefix, rest := ReportPrefix, "_" + dateStamp + ".pdf";
    ThreeParts(prefix, safe, rest);
    ReportPrefixClean();
    assert ' ' !in safe && '/' !in safe && ' ' !in dateStamp && '/' !in dateStamp ==>
             ' ' !in prefix + safe + rest && '/' !in prefix + safe + rest by {
      if ' ' !in safe && '/' !in safe && ' ' !in dateStamp && '/' !in dateStamp {
        NoSpaceOrSlash("_", dateStamp, ".pdf");
        NoSpaceOrSlash(prefix, safe, rest);
      }
    }
    assert rest[..|rest| - 4] == "_" + dateStamp && rest[|rest| - 4..] == ".pdf";
    prefix + safe + rest
  }

  /** The download name of a report: the sanitised client name (absent:
      "Client") between a fixed prefix and the report date stamp
      (`YYYYMMDD`, taken from the clock by the handler). */
  function ReportFilename(clientName: Option<string>, dateStamp: string): (f: string)
    ensures |f| == 19 + |clientName.GetOr("Client")| + 1 + |dateStamp| + 4
    ensures f[..19] == "GFA_Annuity_Report_" && f[|f| - 4..] == ".pdf"
    ensures f[19..19 + |clientName.GetOr("Client")|] == SafeName(clientName.GetOr("Client"))
    ensures f[19 + |clientName.GetOr("Client")|..|f| - 4] == "_" + dateStamp
    ensures ' ' !in dateStamp && '/' !in dateStamp ==> ' ' !in f && '/' !in f
  {
    var safe := SafeName(clientName.GetOr("Client"));
    FilenameAround(safe, dateStamp)
  }
}
