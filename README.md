# Fixed-indexed-annuity crediting model

A Dafny model of the calculation core of EIA Track, a tool that estimates
the new value of a fixed indexed annuity account. An account is split
into allocations, each of which is either fixed (credited a fixed rate)
or indexed (credited from an index return through a spread,
participation, cap and floor pipeline). The model covers:

- `calculate_credited_return`: the crediting pipeline (`crediting.dfy`,
  module `Crediting`);
- `calculate_account_value`: the loop that splits the current value by
  weight, credits each allocation, emits one result row per allocation
  and rounds the running total once (`account.dfy`, module `Account`);
- the validation and total-return arithmetic of the calculate request,
  and the sanitised client name in the report's file name (`api.dfy`,
  module `Api`);
- Python's `round(x, n)` as half-up decimal rounding of reals, with the
  properties the crediting code relies on (`rounding.dfy`, module
  `Rounding`), and the optional request fields (`options.dfy`).

Numbers are Dafny `real`s. Each optional rate or request field is an
`Option`, and `None` stands for a missing key. An allocation's defaults
follow the `.get` calls: weight 0, not fixed, name `""`, fixed rate 0.
A JSON `null` is read as `None` too; the fields where the code treats a
`null` differently are listed under "## Left out".

Points of the code's behaviour that the model makes explicit:

- Result rows are rounded (amounts to 2 places, percentages to 4,
  app.py:150-153), but the running total adds the unrounded new amounts
  and is rounded once (app.py:146,160).
- `calculate_credited_return` rounds to 4 places and then floors at 0
  (app.py:127). On that path the value is already positive
  (`PreRoundingPositive`), so flooring first would give the same result.
- The credited return is never negative for indexed allocations only.
  A negative fixed rate is credited as it is (app.py:137).
- The result's `index_return` is `None` for a fixed allocation. It is also
  `None` for an indexed allocation that never had one (app.py:151).
- An absent or non-positive participation rate means full participation
  (app.py:123-124, `NoParIsFullParticipation`).

## Model

| member | source | states |
|---|---|---|
| `Rounding.RoundMonotone` | app.py:127 | rounding to n places never reverses an order |
| `Rounding.RoundExact` | app.py:127 | a value with at most n decimals is unchanged by rounding |
| `Rounding.RoundIdempotent` | app.py:152 | rounding an already rounded value again changes nothing |
| `Rounding.RoundError` | app.py:160 | rounding moves a value by more than -1/2 and at most +1/2 unit in the n-th place |
| `Rounding.RoundSign` | app.py:127 | rounding keeps non-negative values non-negative and non-positive values non-positive |
| `Crediting.CreditedReturn` | app.py:114-127 | result is never negative; exactly 0 when the index return is absent or <= 0, whatever the other rates; exactly 0 when a positive spread is at least the index return; otherwise the spread/participation/cap value rounded to 4 places |
| `Crediting.PreRoundingPositive` | app.py:118-126 | on the path that reaches the final rounding, the value is strictly positive, so the floor at 0 never changes it |
| `Crediting.EarlyExitExactly` | app.py:116-122 | the function returns 0 early exactly when there is no positive index return, or a positive spread is at least the index return |
| `Crediting.CapBounds` | app.py:125-127 | with a positive cap, the value before rounding is at most the cap, and the result is at most the rounded cap (the cap itself when it has at most 4 decimals) |
| `Crediting.CapDominates` | app.py:125-127 | when the spread-adjusted, participation-scaled value reaches a positive cap, the result is the rounded cap (the cap itself when it has at most 4 decimals) |
| `Crediting.NothingApplied` | app.py:118-127 | with spread, participation and cap absent or <= 0, a positive index return is credited as is, rounded to 4 places |
| `Crediting.StepOrder` | app.py:118-127 | with all rates positive and a gain above the spread, the result is round(min((index - spread) * par/100, cap), 4): spread first, then participation, then cap |
| `Crediting.ParMonotone` | app.py:123-127 | a higher positive participation rate never lowers the credited return |
| `Crediting.IndexReturnMonotone` | app.py:116-127 | a higher index return never lowers the credited return |
| `Crediting.AbsentIndexReturnIsZero` | app.py:116-117 | an absent index return and the loop's default of 0.0 are both credited 0 |
| `Crediting.CappedExample` | app.py:114-127 | index 8.5 with cap 6, participation 100 and spread 0 is credited 6 |
| `Crediting.NoParIsFullParticipation` | app.py:123-124 | an absent or non-positive participation rate is credited as 100% participation |
| `Crediting.SpreadExceedsReturnExample` | app.py:119-122 | index 3 with spread 4 is credited 0 |
| `Account.Credit` | app.py:136-144 | the credited rate of one allocation: never negative for an indexed allocation; 0 for a fixed allocation without a fixed rate |
| `Account.ResultOf` | app.py:147-159 | the row of one allocation: it reports an index return only for an indexed allocation, and then the input's; an indexed row's credited return is never negative |
| `Account.CalculateAccountValue` | app.py:130-160 | exactly one result per allocation, in input order, each the allocation's result row; new value is the sum of the unrounded new amounts, rounded once to 2 places |
| `Account.ResultCopiesInput` | app.py:147-159 | each row copies name, weight, cap, participation, spread and fixed rate from its allocation; its index return is None for a fixed allocation and the input's for an indexed one |
| `Account.FixedIgnoresIndexRates` | app.py:136-137 | a fixed allocation is credited its fixed rate (0 when absent), and its index return, cap, participation and spread have no effect |
| `Account.IndexedCreditRoundedOnce` | app.py:139-152 | the reported credited return of an indexed allocation equals the pipeline's value: the second rounding changes nothing |
| `Account.IndexedNeverLoses` | app.py:134-145 | for a non-negative current value and weight, an indexed allocation's new amount is at least its allocated amount |
| `Account.TotalAllocatedIsWeighted` | app.py:134-135 | the allocated amounts add up to current value times total weight / 100 |
| `Account.TotalNewCoversAllocated` | app.py:145-146 | in an all-indexed account with non-negative weights, the new amounts add up to at least the allocated amounts |
| `Account.FullyIndexedAccountNeverLoses` | app.py:145-160 | an all-indexed account whose non-negative weights add up to 100 has a new value at least the current value rounded to cents |
| `Account.NewValueNearTotal` | app.py:160 | the new value differs from the sum of the unrounded new amounts by at most half a cent |
| `Account.RoundOnceDiffersFromRoundedRows` | app.py:146-160 | two half-cent rows: the new value (one rounding of the total) is 0.01 while the rounded rows add up to 0.02 |
| `Account.FixedExample` | app.py:134-145 | half of 50,000 at a 2.5% fixed rate: allocated 25,000, new amount 25,625 |
| `Account.CappedAccountExample` | app.py:130-160 | 100,000 wholly in an 8.5% index under a 6% cap gives a new value of 106,000 |
| `Api.TotalReturnPct` | app.py:645 | the total return is within half a unit in the 4th place of (new - current) / current * 100; it is >= 0 when the value did not fall, <= 0 when it did not rise, and 0 when it is unchanged |
| `Api.ApiCalculate` | app.py:636-647 | refuses a current value that is absent or a number <= 0 with status 400, and exactly then; otherwise reports the current value, the new value of the account calculation, the total return of the two, and one row per allocation |
| `Api.TotalReturnExample` | app.py:645 | 100,000 growing to 106,000 is a total return of 6 |
| `Api.ReplaceChar` | app.py:666 | replacing one character keeps the length and changes exactly the positions that held it |
| `Api.SafeName` | app.py:666 | the sanitised name has the client name's length and holds no space and no slash |
| `Api.SafeNameSpec` | app.py:666 | the sanitised name has the client name's length and holds no space or slash; spaces and slashes become underscores, and every other character stays where it was |
| `Api.SafeNameIdempotent` | app.py:666 | sanitising a sanitised name changes nothing |
| `Api.FilenameAround` | app.py:667 | the file name built around an already sanitised name: prefix, name, "_" and date stamp, ".pdf", at those positions; no space or slash when neither the name nor the date stamp has one |
| `Api.ReportFilename` | app.py:666-667 | the file name is the fixed prefix, then the sanitised client name (default "Client"), then "_" and the date stamp, then ".pdf"; it has no space or slash when the date stamp has none |

The lemmas `Api.ThreeParts`, `Api.NoSpaceOrSlash` and `Api.ReportPrefixClean` are proof steps for `Api.FilenameAround` and `Api.ReportFilename` (slicing a three-part string, and the absence of spaces and slashes from its parts and from the fixed prefix); they model nothing on their own.

## Left out

- `Rounding.Round`: rounds ties upward over exact reals. Python's `round` is half-even on binary doubles. The model is not bit-exact and does not model IEEE-754 arithmetic anywhere.
- `fetch_index_return` (app.py:84-109): a network call to a market-data provider plus date-window lookups. Only its percentage formula is pure.
- PDF generation (`generate_pdf_report`, `ColorBar`, `GoldRule`, app.py:165-606): presentation over a third-party layout library.
- Flask routing, JSON parsing, `send_file`, `render_template`: web plumbing. The handlers' pure validation, arithmetic and file naming are modelled.
- `datetime.now()` in the report file name: the date stamp is a parameter of `Api.ReportFilename`.
- `open_browser` and the threaded start-up (app.py:672-694): process launch and concurrency.
- The `ANNUITY_PRODUCTS` catalogue: static data with no behaviour. `api/index.py` is a re-export of the app with no logic.
- Non-numeric request values: `float()` on a non-numeric string and arithmetic on a `null` `allocation_pct` raise in Python. A non-numeric rate raises only where the code compares or divides it: an indexed allocation's rates once app.py:116-126 reaches them, and a non-empty `fixed_rate` of a fixed allocation (app.py:137,145). Elsewhere it is copied into the row unchanged. The model takes every present value as a number, and reads a `null` weight as absent, which is 0.
- `Account.IsFixed`: only an explicit `true` marks a fixed allocation. Other truthy JSON values (`1`, a non-empty string) are not modelled. For the same reason `isFixed` in a result row is the flag with its default of false, not an arbitrary copied value.
- `Api.ApiCalculate`: a JSON `null` is read as absent. In the code a `null` `current_value` makes `float()` raise, so the request fails with status 500, not 400 (app.py:637). A `null` `allocations` makes the loop raise (app.py:638,133), where the model credits no allocations.
- `Api.ReportFilename`: a `null` `client_name` makes the handler raise inside `generate_pdf_report` (`html_escape`, app.py:321, called at 661), before the file name at 666 is built. The model uses the default "Client" instead.
- `Account.ResultOf`: a `null` `name` or `is_fixed` is copied into the row as `null` (app.py:148,158). The model writes the defaults `""` and false.
