# Gestionale rosticceria — a Dafny model of the business core

This project models the business logic of a small Italian rotisserie's
management app (TypeScript over a Supabase/Postgres database):

- the **cash register** (`cassa`):
  - the day's movements and the day's snapshot (`fondo_cassa`);
  - the derived day state with its theoretical float;
  - adding a movement, closing and opening the register;
  - the monthly statistics;
- the **card payments** (`pagamenti_pos`):
  - the list of dates;
  - the by-date listing and the daily total;
  - update and delete by id;
- the **invoices** (`fatture`):
  - the Partita IVA, Codice Fiscale and Codice Destinatario validators;
  - line and VAT totals rounded to cents;
  - per-year progressive numbering;
  - the current-year statistics and the list of periods;
- the **product catalogue** (`prodotti`): the active listing, the grouping by category, and the soft delete;
- the **date helpers**: month ranges, `Date` ⇄ `YYYY-MM-DD` conversion, and the list of available months.

Database tables become sequences of rows, in the order the query hands them back. Every read or write
becomes a pure function over those sequences. Where a service reports a failed write as `false` (`chiudiCassa`,
`apriCassa`, `deleteProdotto`), the write takes a `writeOk` flag that stands for the database's answer. JavaScript numbers become exact `real`s; `Math.round(x * 100) / 100` is
written out as `Floor(100x + 1/2) / 100`. Strings are `seq<char>`, and text comparison in a query is
code-point lexicographic order (`Strings.LexLe`). A JavaScript `Date` is a civil (year, month, day)
with the constructor's normalisation written out (`Dates.MakeDate`).

Files:
- `basics.dfy`: `Option`.
- `seqs.dfy`: filter, map, sums, de-duplication, insertion sort.
- `strings.dfy`: character classes, case mapping, number printing and parsing, split, lexicographic order.
- `dates.dfy`: `src/lib/date-utils.ts`.
- `pos.dfy`: `src/lib/services/pos.ts`.
- `cassa.dfy`: `src/lib/services/cassa.ts`.
- `validazione.dfy`: validators in `src/lib/services/fatture.ts`.
- `fatture.dfy`: the rest of `src/lib/services/fatture.ts`.
- `prodotti.dfy`: `src/lib/services/prodotti.ts`.

## Model

| member | source | states |
|---|---|---|
| Dates.DaysInMonth | src/lib/date-utils.ts:76 | February has 29 days exactly in Gregorian leap years and 28 otherwise; April, June, September and November have 30, the other months 31 |
| Dates.Normalize | src/lib/date-utils.ts:76 | the `Date` constructor's day overflow: an in-range day is kept; day 0 or less lands in an earlier month, past the end in a later one; the result is always a valid date |
| Dates.MakeDateOfValid | src/lib/date-utils.ts:107 | `new Date(y, m - 1, d)` of a valid date (year outside 0..99) is that date |
| Dates.MakeDate | src/lib/date-utils.ts:107 | `new Date(year, monthIndex, day)` always gives a valid calendar date; a day within the month the index names (after the year overflow of the index) is kept as given |
| Dates.LastDayOfMonth | src/lib/date-utils.ts:76 | `new Date(year, month, 0)` is the last day of `month`, with the constructor's 1900 offset for years 0..99 |
| Dates.NumberOf | src/lib/date-utils.ts:106 | a date part is read as a number exactly when it is all decimal digits |
| Dates.StringToDate | src/lib/date-utils.ts:105-108 | a date it returns is always a valid calendar date, and there is one exactly when the first three `-` parts are digit strings |
| Dates.StringToDateOfFields | src/lib/date-utils.ts:105-108 | a text splitting on `-` into three digit fields reads as `new Date(y, m - 1, d)` of those numbers |
| Dates.SplitIsoDate | src/lib/date-utils.ts:106 | splitting `YYYY-MM-DD` on `-` gives the year, month and day texts |
| Dates.StringDateRoundTrip | src/lib/date-utils.ts:95-108 | for a canonical date string with a 4-digit year, `dateToString(stringToDate(s)) == s` |
| Dates.DateToString | src/lib/date-utils.ts:95-99 | a valid date from year 0 on prints as text that splits at `-` into the year's digits and two 2-digit parts that read back as the month and the day |
| Dates.DateStringRoundTrip | src/lib/date-utils.ts:95-108 | for a valid date with year ≥ 100, `stringToDate(dateToString(d)) == d` |
| Dates.MonthDateRange | src/lib/date-utils.ts:74-79 | start is the month's first day and end its last day (28/29/30/31 by leap-year rule), both as `YYYY-MM-DD` |
| Dates.MonthDateRangeParses | src/lib/date-utils.ts:74-79 | both ends of the range parse back to day 1 and day DaysInMonth of that month |
| Dates.MonthOrdinalInjective | src/lib/date-utils.ts:118-131 | distinct valid months have distinct month numbers |
| Dates.NextMonth | src/lib/date-utils.ts:130 | `setMonth(getMonth() + 1)` on the first of a month moves to the next month, December wrapping to January of the next year |
| Dates.MonthsFrom | src/lib/date-utils.ts:118-131 | the loop collects every month from the first up to the end date's month, in ascending order one month apart; none when the first month is later |
| Dates.CountdownMonths | src/lib/date-utils.ts:133 | a list counting down one month at a time from the end month to the start month holds each month of the span exactly once, starting at the end month |
| Dates.AvailableMonths | src/lib/date-utils.ts:113-134 | every month from start to end, each once, most recent first; first is the end month, last the start month, adjacent entries one month apart; empty when start is after end |
| Pos.Dates | src/lib/services/pos.ts:46-57 | no duplicate dates; every payment's date is listed; every listed date is some payment's date |
| Pos.DatesStrictlyDescending | src/lib/services/pos.ts:51-56 | with the descending query order and first-occurrence de-duplication, the dates are strictly descending |
| Pos.CreatedOrder | src/lib/services/pos.ts:35 | ordering payments by `created_at` text, newest first, is total and transitive |
| Pos.ByDate | src/lib/services/pos.ts:29-44 | exactly the payments of that date, each as often as stored, newest `created_at` first |
| Pos.DailyTotal | src/lib/services/cassa.ts:100-115 | with non-negative amounts, a day's card total lies between 0 and the sum of all payments |
| Pos.DailyTotalWithoutPayments | src/lib/services/cassa.ts:100-115 | a day without payments totals 0 |
| Pos.DailyTotalOfListing | src/lib/services/cassa.ts:100-115 | the card total of a day is the sum of the amounts of the by-date listing |
| Pos.DailyTotalAppend | src/lib/services/cassa.ts:109 | one more payment adds its amount to its own day's total only |
| Pos.DailyTotalsPartition | src/lib/services/cassa.ts:109 | over any duplicate-free list of days covering all payments, the daily totals add up to the sum of all payments |
| Pos.DatesCoverAllPayments | src/lib/services/pos.ts:46-57 | the daily totals of the listed dates add up to the sum of all payments |
| Pos.ApplyPatch | src/lib/services/pos.ts:97-104 | each supplied field overwrites the stored one; id and created_at are never changed |
| Pos.Update | src/lib/services/pos.ts:97-113 | fails exactly when no payment has the id; otherwise only the rows with that id change, and they change by the patch |
| Pos.UpdateWithEmptyPatch | src/lib/services/pos.ts:97-104 | an update supplying no field leaves the table as it was |
| Pos.UpdateKeepsIds | src/lib/services/pos.ts:97-104 | an update never changes any row's id |
| Pos.Delete | src/lib/services/pos.ts:115-129 | afterwards no row has the id; every other row is kept, as often as before |
| Pos.DeleteMissingId | src/lib/services/pos.ts:115-129 | deleting an id no row has changes nothing |
| Pos.ById | src/lib/services/pos.ts:131-146 | a payment is returned exactly when one row has the id, and it is that stored row; an absent id or a duplicated id gives none |
| Pos.DeleteThenById | src/lib/services/pos.ts:115-146 | after deleting an id, reading it by id gives none |
| Cassa.TimestampOrder | src/lib/services/cassa.ts:88 | ordering movements by timestamp text is total and transitive |
| Cassa.InDay | src/lib/services/cassa.ts:80-87 | a timestamp inside the day's text range starts with the day followed by a space |
| Cassa.MovimentiByData | src/lib/services/cassa.ts:78-97 | exactly the movements whose timestamp lies in ["D 00:00:00", "D 23:59:59"], each as often as stored, in ascending timestamp order |
| Cassa.DatePart | src/lib/services/cassa.ts:175 | the result is the text before the first space: a prefix of the timestamp that holds no space and is followed by a space, or the whole timestamp when it has none |
| Cassa.TimeWithinDay | src/lib/services/cassa.ts:80-81 | every well-formed `HH:MM:SS` lies between 00:00:00 and 23:59:59 as text |
| Cassa.InDayIffDatePart | src/lib/services/cassa.ts:80-87 | a well-formed timestamp lies in the day's text range iff its date part is that day |
| Cassa.FondoByData | src/lib/services/cassa.ts:43-58 | a returned snapshot is stored and carries that date |
| Cassa.AtMostOneSnapshot | src/lib/services/cassa.ts:43-58 | with dates unique, at most one snapshot matches a date |
| Cassa.FondoByDataFinds | src/lib/services/cassa.ts:43-58 | with dates unique, a stored date is found and a missing one gives none |
| Cassa.SumKind | src/lib/services/cassa.ts:130-138 | a kind's sum is 0 when no movement has that kind, and not negative when no amount is negative |
| Cassa.OpeningAmount | src/lib/services/cassa.ts:127-128 | the amount of the first `fondo_iniziale` movement, 0 when there is none |
| Cassa.FirstOpening | src/lib/services/cassa.ts:128 | `find` picks the first `fondo_iniziale` movement, and finds none exactly when there is none |
| Cassa.Truthy | src/lib/services/cassa.ts:127-141 | `x \|\| fallback`: a non-zero stored value wins, 0 or missing gives the fallback |
| Cassa.ComputeStato | src/lib/services/cassa.ts:117-161 | date and movements passed through; open iff there is no snapshot or it is not closed; counted float and difference copied from the snapshot |
| Cassa.ComputeStatoFigures | src/lib/services/cassa.ts:126-141 | each of opening float, cash sales, expenses, card sales and other income is the stored figure when a snapshot stores it non-zero, otherwise the first opening movement's amount, the `entrata` sum, the `uscita` sum, the POS total and 0 respectively; theoretical float = opening + cash sales + other income − expenses |
| Cassa.StatoCassaCompleto | src/lib/services/cassa.ts:117-161 | the day's movements are exactly those stamped within the day; open iff there is no snapshot or it is not closed; theoretical float = opening + cash sales + other income − expenses; without a snapshot every figure comes from the movements and the POS total |
| Cassa.StatoCassaCompletoFigures | src/lib/services/cassa.ts:119-141 | the figures are read from the day's `.single()` snapshot and its sorted movement listing: a non-zero stored figure is reported as stored, a missing snapshot or a stored 0 falls back to the opening movement, the `entrata`/`uscita` sums, the day's POS total, or 0 for other income |
| Cassa.FondoTeoricoIgnoresCard | src/lib/services/cassa.ts:140-142 | theoretical float = opening + cash sales + other income − expenses, and card sales never move it |
| Cassa.StatoWithoutSnapshot | src/lib/services/cassa.ts:127-141 | without a snapshot: cash sales and expenses are the `entrata`/`uscita` sums, opening is the first opening amount, card is the POS total, other income 0 |
| Cassa.StatoEmptyDay | src/lib/services/cassa.ts:127-142 | an empty day without snapshot reports 0 everywhere but the card total |
| Cassa.StoredZeroIsMissing | src/lib/services/cassa.ts:127-141 | a snapshot whose figures are all 0 reads exactly like no snapshot |
| Cassa.StoredFigureWins | src/lib/services/cassa.ts:127-138 | non-zero stored figures are reported whatever the movements hold |
| Cassa.MovementShiftsFondoTeorico | src/lib/services/cassa.ts:130-142 | without a snapshot, one more sale raises cash sales and theoretical float by its amount; one more expense lowers the float |
| Cassa.SumKindAppend | src/lib/services/cassa.ts:130-138 | one more movement adds its amount to its own kind's sum only |
| Cassa.OpeningAmountAppend | src/lib/services/cassa.ts:127-128 | a later movement does not change the opening float once one opening exists, nor does a non-opening movement |
| Cassa.FirstOpeningAppend | src/lib/services/cassa.ts:128 | appending keeps the first opening movement where it was |
| Cassa.OpeningIsEarliest | src/lib/services/cassa.ts:78-128 | on the day's ascending listing the opening float is the amount of the earliest opening movement, 0 if none |
| Cassa.Merge | src/lib/services/cassa.ts:189-199 | the six figures come from the write; an optional column the write leaves out keeps its stored value; a write supplying every column gives the same row as a fresh insert |
| Cassa.Fresh | src/lib/services/cassa.ts:189-199 | a new row carries the written date and figures, and is closed only when the write says so |
| Cassa.Upsert | src/lib/services/cassa.ts:189-199 | rows of other dates unchanged; the date's row merged, or a fresh row appended when the date is new |
| Cassa.UpsertReadBack | src/lib/services/cassa.ts:189-199 | dates stay unique, the date reads back the merged or fresh row, other dates read as before |
| Cassa.UpsertIdempotent | src/lib/services/cassa.ts:189-199 | upserting the same columns twice leaves the table as upserting them once |
| Cassa.FondoByDataAt | src/lib/services/cassa.ts:43-58 | with unique dates, looking up a stored row's date returns that row |
| Cassa.TruthyIdempotent | src/lib/services/cassa.ts:127-141 | reading through `\|\|` what was read through `\|\|` gives the same value |
| Cassa.StoringFiguresKeepsStato | src/lib/services/cassa.ts:185-199 | writing the day's reported figures into its snapshot leaves the reported figures unchanged |
| Cassa.RefreshFondoAsWritten | src/lib/services/cassa.ts:185-206 | the refresh as written touches only the snapshots |
| Cassa.AddMovimentoAsWritten | src/lib/services/cassa.ts:164-182 | the movement is appended, then its day's snapshot refreshed from the state as read |
| Cassa.AddMovimentoAsWrittenFreezesSales | src/lib/services/cassa.ts:127-199 | with a non-zero stored cash-sales figure, one more sale leaves the reported cash sales unchanged while the day's `entrata` sum grows by the sale |
| Cassa.RefreshKeepsStoredSales | src/lib/services/cassa.ts:130-199 | the as-written refresh reports a non-zero stored cash-sales figure unchanged |
| Cassa.DaySumAppend | src/lib/services/cassa.ts:78-97 | a movement added with a well-formed timestamp adds its amount to its own day's kind sum |
| Cassa.DayMovementsAppend | src/lib/services/cassa.ts:78-97 | the day's listing after the append is a permutation of the old listing plus the movement |
| Cassa.DatePartOfTimestamp | src/lib/services/cassa.ts:175 | `split(' ')[0]` of a well-formed timestamp is its first ten characters |
| Cassa.SumKindPermutation | src/lib/services/cassa.ts:130-138 | a kind's sum does not depend on the order of the movements |
| Cassa.RefreshFondo | src/lib/services/cassa.ts:185-206 | the corrected refresh touches only the snapshots |
| Cassa.AddMovimento | src/lib/services/cassa.ts:164-182 | the corrected add appends the movement and keeps the payments |
| Cassa.AddMovimentoTracksMovements | src/lib/services/cassa.ts:164-199 | after the corrected add, the day reports cash sales, expenses and opening float from its movements and card sales from the POS total |
| Cassa.ChiudiCassa | src/lib/services/cassa.ts:209-237 | success is the write's success; a failed write changes nothing; movements and payments are never touched |
| Cassa.CloseWrite | src/lib/services/cassa.ts:211-228 | the close writes the day, `chiuso` true, the counted float and the note, the five figures and theoretical float of the day's computed state, and difference = counted − theoretical |
| Cassa.UpsertStoresWrite | src/lib/services/cassa.ts:189-199 | after an upsert, dates stay unique; the date's row holds the six figures written and every optional column supplied; other dates read as before |
| Cassa.ChiudiCassaWrites | src/lib/services/cassa.ts:209-228 | the snapshot stores closed = true, the counted float, difference = counted − theoretical, the note when given and the six computed figures; dates stay unique; other days unchanged |
| Cassa.ChiudiCassaCloses | src/lib/services/cassa.ts:209-237 | after a successful close the day reports itself closed, with the theoretical float it had before, the counted float and the difference just stored |
| Cassa.OpeningMovement | src/lib/services/cassa.ts:243-249 | an opening-float movement of the given amount; for a `YYYY-MM-DD` day its stamp is a timestamp of that day |
| Cassa.ApriCassa | src/lib/services/cassa.ts:240-256 | as written, through the add with its as-written refresh: success is the write's success; on success exactly the opening movement is appended and payments are untouched |
| Cassa.ApriCassaCorrected | src/lib/services/cassa.ts:240-256 | the same open over the corrected refresh: success is the write's success; on success exactly the opening movement is appended |
| Cassa.ApriCassaMovement | src/lib/services/cassa.ts:243-249 | one movement appended: `fondo_iniziale`, the given amount, "D 08:00:00", operator `Sistema`, date part D |
| Cassa.ApriCassaSetsOpeningFloat | src/lib/services/cassa.ts:240-256 | as written, opening a day without an opening movement and without a stored non-zero opening float makes the day report the given opening float |
| Cassa.ApriCassaKeepsStoredOpening | src/lib/services/cassa.ts:127-199 | as written, a non-zero opening float already in the day's snapshot is still reported after opening, whatever amount was just logged |
| Cassa.ApriCassaCorrectedSetsOpeningFloat | src/lib/services/cassa.ts:240-256 | with the corrected refresh, opening a day without an opening movement makes the day report the given opening float, whatever the snapshot held |
| Cassa.OpeningStampIsInDay | src/lib/services/cassa.ts:243-249 | the 08:00:00 stamp of a `YYYY-MM-DD` day is a well-formed timestamp, its date part is the day, and it lies in the day's range |
| Cassa.OpeningOfAppended | src/lib/services/cassa.ts:127-128 | appending a day's only opening movement makes its amount the day's opening float |
| Cassa.ClosedInMonth | src/lib/services/cassa.ts:264-269 | the month's query selects only closed snapshots whose date text starts with `<year>-<MM>-`, and selects every closed snapshot dated `<year>-<MM>-dd` with `"01" <= dd <= "31"` |
| Cassa.StatisticheMensili | src/lib/services/cassa.ts:259-283 | no closed days gives average 0; days counted never exceed the snapshots |
| Cassa.Average | src/lib/services/cassa.ts:281-282 | with days, average × days = total; without days, 0 |
| Cassa.TakingsSplit | src/lib/services/cassa.ts:282 | the sum of cash + card equals the cash sum plus the card sum |
| Cassa.MediaGiornaliera | src/lib/services/cassa.ts:276-282 | with closed days, average × closed-day count = total cash + total card; without closed days, 0 |
| Cassa.StatisticheWithoutClosedDays | src/lib/services/cassa.ts:267-283 | a month without closed snapshots reports zeros throughout |
| Cassa.StatisticheIgnoreOthers | src/lib/services/cassa.ts:267-269 | an open snapshot, or one outside the month's range, does not move the statistics |
| Cassa.StatisticheCountClosed | src/lib/services/cassa.ts:276-280 | a closed snapshot of the month adds one day and its figures; a missing difference counts 0 |
| Cassa.StatisticheCountDayOfMonth | src/lib/services/cassa.ts:261-280 | every closed snapshot dated `<year>-<MM>-dd`, `dd` from "01" to "31", is counted: one more day and its cash, card, expense and difference figures |
| Validazione.Weight | src/lib/services/fatture.ts:14-18 | a digit's contribution (doubled at odd positions, digits summed) is below 10 |
| Validazione.CheckDigit | src/lib/services/fatture.ts:22 | the check digit is a digit that brings the weighted sum to a multiple of 10 |
| Validazione.ValidatePartitaIva | src/lib/services/fatture.ts:4-24 | accepts only 11 ASCII digits, and exactly those whose last digit is the check digit of the first ten |
| Validazione.LuhnSumOfPrefix | src/lib/services/fatture.ts:13-20 | the weighted sum depends only on the digits summed |
| Validazione.UniqueCheckDigit | src/lib/services/fatture.ts:12-23 | every 10-digit prefix has exactly one final digit that validates |
| Validazione.LuhnSumChange | src/lib/services/fatture.ts:13-20 | changing one digit changes the weighted sum by the difference of that digit's weights |
| Validazione.WeightsDiffer | src/lib/services/fatture.ts:15-18 | different digits at the same position weigh differently |
| Validazione.SameCheckDigitSameSum | src/lib/services/fatture.ts:22-23 | two sums completed by the same check digit, differing by one weight below 10, use the same weight |
| Validazione.SingleDigitErrorDetected | src/lib/services/fatture.ts:12-23 | changing any single digit of a valid Partita IVA makes it invalid |
| Validazione.CleanCode | src/lib/services/fatture.ts:30 | the cleaned code has no whitespace and no lower-case letter |
| Validazione.CleanCodeIgnoresCase | src/lib/services/fatture.ts:30 | cleaning gives the same code whatever the letter case |
| Validazione.CleanCodeIgnoresWhitespace | src/lib/services/fatture.ts:30 | a whitespace character anywhere does not change the cleaned code |
| Validazione.CleanCodeOfClean | src/lib/services/fatture.ts:30 | a code without whitespace or lower-case letters is its own cleaning |
| Validazione.ValidateCodiceFiscale | src/lib/services/fatture.ts:26-38 | true exactly when the cleaned input has the shape letters{6} digits{2} letter digits{2} letter alnum{3}; a true result needs at least 16 input characters, so empty input is false |
| Validazione.CodiceFiscaleIgnoresCaseAndSpaces | src/lib/services/fatture.ts:30 | the verdict ignores letter case and whitespace |
| Validazione.CodiceFiscaleShapeAccepted | src/lib/services/fatture.ts:33-37 | every string of the shape is accepted, in upper or lower case |
| Validazione.ValidateCodiceDestinatario | src/lib/services/fatture.ts:40-47 | true exactly when the cleaned input is 7 upper-case letters or digits |
| Validazione.CodiceDestinatarioExamples | src/lib/services/fatture.ts:43-46 | "0000000" is accepted; the verdict ignores letter case and whitespace |
| Fatture.Aliquota | src/constants/iva-codes.ts:1-9 | every VAT code's rate is between 0 and 22 percent |
| Fatture.LineTotal | src/lib/services/fatture.ts:479 | without a discount the line is quantity × price; with non-negative quantity and price and a discount between 0 and 100%, it lies between 0 and quantity × price |
| Fatture.LineVat | src/lib/services/fatture.ts:481 | a 0% line carries no VAT; a non-negative line at a rate up to 22% carries VAT between 0 and 22% of the line |
| Fatture.Cents | src/lib/services/fatture.ts:485-487 | `Math.round(100x)` is within half a cent of 100x, halves going up |
| Fatture.RoundCents | src/lib/services/fatture.ts:485-487 | rounding moves a value by at most half a cent |
| Fatture.TotaliOf | src/lib/services/fatture.ts:484-488 | subtotal, VAT and total each lie within half a cent of the unrounded line sums they round |
| Fatture.CalcolaTotaliFattura | src/lib/services/fatture.ts:470-489 | the loop's running sums are the sums of the unrounded line totals and line VATs; rounding happens once, at the end, and the total rounds the unrounded subtotal + VAT |
| Fatture.TotaliOfNoLines | src/lib/services/fatture.ts:475-488 | no lines give 0/0/0 |
| Fatture.CentsOfSum | src/lib/services/fatture.ts:485-487 | rounding a sum differs from summing the roundings by at most one cent |
| Fatture.TotaleWithinACent | src/lib/services/fatture.ts:485-487 | the total is within one cent of rounded subtotal + rounded VAT |
| Fatture.TotaleCanDifferFromParts | src/lib/services/fatture.ts:479-487 | one line of 0.025 at 22% gives 0.03 + 0.01 but total 0.03 |
| Fatture.UniformRateVat | src/lib/services/fatture.ts:479-481 | when all lines share a rate, the VAT is that rate applied to the subtotal |
| Fatture.VatWithinTableRates | src/lib/services/fatture.ts:479-481 | with non-negative lines at rates from the VAT table, 0 ≤ VAT ≤ 22% of the subtotal |
| Fatture.MaxNumero | src/lib/services/fatture.ts:235-240 | the year's highest invoice number, or none exactly when the year has no invoices |
| Fatture.NextNumero | src/lib/services/fatture.ts:233-246 | exceeds every number of that year; 1 for a year without invoices; otherwise one more than an existing number |
| Fatture.NextNumeroIgnoresOtherYears | src/lib/services/fatture.ts:238 | invoices of other years do not change a year's next number |
| Fatture.CreaFattura | src/lib/services/fatture.ts:268-284 | the new invoice is appended with its year's next number and nothing else changes |
| Fatture.CreaFatturaKeepsNumbersUnique | src/lib/services/fatture.ts:268-284 | creating an invoice keeps every year's numbers distinct |
| Fatture.NextNumeroProgressive | src/lib/services/fatture.ts:231-246 | when a year uses numbers 1..n with n present, the next is n + 1 |
| Fatture.Stats | src/lib/services/fatture.ts:380-423 | the year's count never exceeds the invoices, the month's never exceeds the year's |
| Fatture.StatiPartition | src/lib/services/fatture.ts:397-398 | the five state counts add up to the number of invoices |
| Fatture.PagateDaPagareBounded | src/lib/services/fatture.ts:395-398 | paid + to-be-paid ≤ the year's invoices |
| Fatture.ImportoDaPagareBounded | src/lib/services/fatture.ts:396-401 | with non-negative totals, 0 ≤ amount to be paid ≤ turnover |
| Fatture.InviataCountedInNeither | src/lib/services/fatture.ts:395-401 | a sent invoice adds to the count and turnover but neither to paid nor to be paid |
| Fatture.StatsEmpty | src/lib/services/fatture.ts:383-413 | no invoices give all seven figures 0 |
| Fatture.StatsAppend | src/lib/services/fatture.ts:383-413 | one more invoice: another year's changes nothing; one of the year adds 1 and its total to the year's count and turnover, 1 to the paid count when `pagata`, 1 and its total to the to-be-paid count and amount when `emessa`, and 1 and its total to the month's figures when dated in the current month |
| Fatture.InsertPeriod | src/lib/services/fatture.ts:448-453 | the list grows by at most one entry, and afterwards the invoice's period is listed |
| Fatture.InsertPeriodCounts | src/lib/services/fatture.ts:453 | inserting adds one to its period's count and none to others |
| Fatture.InsertPeriodSum | src/lib/services/fatture.ts:453 | inserting adds one to the total of the counts |
| Fatture.InsertPeriodPositive | src/lib/services/fatture.ts:453 | inserting keeps every count at least 1 |
| Fatture.InsertPeriodSorted | src/lib/services/fatture.ts:459-462 | inserting keeps the list strictly descending by (year, month) |
| Fatture.InsertPeriodKeys | src/lib/services/fatture.ts:448-453 | every entry after inserting is the inserted period or one listed before |
| Fatture.PeriodiDisponibili | src/lib/services/fatture.ts:439-462 | strictly descending by year then month, so each period once; every count at least 1 |
| Fatture.PeriodiTally | src/lib/services/fatture.ts:448-456 | a period's count is the number of invoices dated in it; the counts add up to the number of invoices |
| Fatture.CountOfListed | src/lib/services/fatture.ts:456-462 | in a strictly descending list a period's entry carries its whole count |
| Fatture.CountOfUnlisted | src/lib/services/fatture.ts:456-462 | an unlisted period counts 0 |
| Fatture.PeriodiCounts | src/lib/services/fatture.ts:448-462 | each listed count is the number of invoices of that period; a period is listed iff it has invoices |
| Prodotti.CategoriaNomeOrder | src/lib/services/prodotti.ts:12-13 | the (category, name) order is total and transitive |
| Prodotti.GetProdotti | src/lib/services/prodotti.ts:6-22 | exactly the products with `attivo` true, each as often as stored, sorted by category then name |
| Prodotti.DeleteProdotto | src/lib/services/prodotti.ts:79-94 | the result is the write's success; on success exactly the rows with the id get `attivo` false, every other row unchanged |
| Prodotti.DeleteHidesProduct | src/lib/services/prodotti.ts:79-94 | after the delete no product with the id is listed, and every other product is listed as before |
| Prodotti.DeleteKeepsRecord | src/lib/services/prodotti.ts:81-85 | the deleted row stays stored with every field but `attivo` unchanged |
| Prodotti.Categories | src/lib/services/prodotti.ts:28-35 | the group keys in order of first appearance: each category once, and only categories of products |
| Prodotti.Group | src/lib/services/prodotti.ts:28-35 | the keys are exactly the products' categories |
| Prodotti.GroupIsFilter | src/lib/services/prodotti.ts:29-33 | each group is exactly its category's products, in input order |
| Prodotti.GroupPlacesEachProduct | src/lib/services/prodotti.ts:28-35 | every product is in its own category's group, as often as it occurs, and in no other; no group is empty |
| Prodotti.GroupKeepsOrder | src/lib/services/prodotti.ts:33 | each group is a subsequence of the input |
| Prodotti.SubsequenceSnoc | src/lib/services/prodotti.ts:33 | appending to the input, or to both sequences, keeps a subsequence a subsequence |
| Prodotti.CategoryCountSnoc | src/lib/services/prodotti.ts:28-35 | one more product adds one to the count of its own category |
| Prodotti.CategoryCountPartition | src/lib/services/prodotti.ts:28-35 | the per-category counts over a duplicate-free list covering all categories add up to the number of products |
| Prodotti.CategoryCountEmpty | src/lib/services/prodotti.ts:28-35 | no products, all counts 0 |
| Prodotti.SizeSumOfGroup | src/lib/services/prodotti.ts:28-35 | the sizes of the groups equal the category counts |
| Prodotti.GroupSizesSum | src/lib/services/prodotti.ts:28-35 | the group sizes add up to the number of products |
| Prodotti.ProdottiByCategoria | src/lib/services/prodotti.ts:24-42 | the keys are exactly the categories of active products |
| Prodotti.ProdottiByCategoriaGroups | src/lib/services/prodotti.ts:24-42 | each group is non-empty, holds exactly the active products of its category, sorted by name |
| Prodotti.SortedSubsequence | src/lib/services/prodotti.ts:12-13 | a subsequence of a sorted listing is sorted |
| Prodotti.GroupAsWritten | src/lib/services/prodotti.ts:28-35 | the reduce on `{}` succeeds exactly when no category is an inherited `Object.prototype` name |
| Prodotti.ProdottiByCategoriaAsWritten | src/lib/services/prodotti.ts:24-42 | without inherited names among active categories, the written grouping equals the intended one |
| Prodotti.GroupAsWrittenAgrees | src/lib/services/prodotti.ts:28-35 | without inherited names the written reduce yields the grouping |
| Prodotti.InheritedCategoryEmptiesGrouping | src/lib/services/prodotti.ts:28-41 | one active product in category "toString" makes the result `{}`, where the intended grouping has both categories |

## Left out

- Supabase I/O is left out. Every query is a function over in-memory rows; a failing write that the service reports as `false` is the `writeOk` parameter. The swallow-and-return-`[]`/`null`/`0` error paths are not modelled.
- Realtime channels, React pages and components, PDF export and the dashboard mocks are not part of this model.
- The non-atomic sequences are not modelled: "insert movement, then upsert snapshot" in the cash register, and "read the year's highest number, then insert" in `createFattura` (src/lib/services/fatture.ts:274-284). Each operation is one step and no concurrent operator runs, so Fatture.CreaFatturaKeepsNumbersUnique holds for sequential creation only.
- The snapshot upsert is modelled as keyed by date, with unsupplied columns kept and a new row starting with `chiuso` false. The database schema that decides the conflict key is not part of this model.
- Snapshot rows carry no `id` or `created_at`, and movements no `id`; nothing in the modelled logic reads them.
- Ties in an `ORDER BY` are resolved by the stable insertion sort. The database may order tied rows differently.
- Text ordering is code-point order. Postgres collation is not modelled, and neither are timestamps compared as typed values; both are compared as text.
- Cassa.ClosedInMonth: the monthly range ends at the text "<month>-31" even in 30-day months. This is harmless as a text range; whether a date column accepts "-31" in a short month depends on the schema, which is not part of this model.
- The date helpers do not model time zones, "today", `getTodayInItalianTimezone`, `Intl` month labels or `new Date(string)` UTC parsing. Dates are civil (year, month, day).
- Dates.NumberOf: reads digit strings only. JavaScript's `Number` also reads signed, space-padded, decimal, exponent and hexadecimal text (`" 7"`, `"+3"`, `"1e1"`, `"0x1A"`), which the model treats as not a number. It also reads digit strings exactly, where `Number` rounds values above 2^53.
- Dates.StringToDate: inherits both limits of `Dates.NumberOf`. A date part such as `"+3"` gives an invalid date here but a date in JavaScript.
- Dates.MakeDate: calendar years are unbounded. A JavaScript `Date` holds at most ±8.64e15 ms around 1970 (years about −271821 to 275760), and outside that range the constructor gives an invalid date; `Dates.StringToDate` of such a year is an invalid date in JavaScript but a date here.
- Dates.DateStringRoundTrip: holds only from year 100 on, because `new Date(y, m, d)` maps years 0..99 to 1900..1999.
- `getTotalePagamentiOggi` is `Pos.DailyTotal` with the day as a parameter; its UTC `toISOString` day is not modelled.
- Fatture.NextNumero: the retry path that returns 1 when the query fails twice is not modelled; such a 1 can duplicate an existing number.
- Fatture.Stats: "the current year and month" are parameters. The month is read from the invoice date's civil month, without the UTC-versus-local shift of `new Date(string)`.
- Fatture.PeriodiDisponibili: reads each invoice's year and month as the civil fields of its date text. The source builds `new Date(data_fattura)` (UTC midnight) and reads `getFullYear`/`getMonth` in local time, which moves a first-of-month date into the previous month in time zones west of UTC.
- Amounts are exact reals, so IEEE-754 rounding artefacts of JavaScript numbers are not modelled, nor is `parseFloat(x.toString())`.
- Validazione.ValidateCodiceFiscale / ValidateCodiceDestinatario: `\s` is the full JavaScript whitespace set, but `toUpperCase` is modelled on ASCII letters only, and lengths count characters rather than UTF-16 code units.
- Lines of an invoice and their `codice_iva` are not cross-checked: the model takes each line's rate as stored.
- Prodotti.Categories: gives the keys in order of first appearance. A JavaScript object lists integer-like keys (such as "12") first, in ascending numeric order, so for such category names the key order of the result differs.
- Pos.Delete: always succeeds. A failing delete returns `false` (src/lib/services/pos.ts:122-127), which is not modelled.
- Pos.Update: a failing update rethrows the database error (src/lib/services/pos.ts:106-111). Exceptions are not modelled; the `None` result stands only for "no row has the id".
- Cassa.AddMovimento / Cassa.AddMovimentoAsWritten: a failing insert or refresh rethrows (src/lib/services/cassa.ts:171-181). Exceptions are not modelled; both adds always succeed.
- Cassa.ApriCassaSetsOpeningFloat: holds only when the day's snapshot stores no non-zero opening float, because the as-written refresh keeps a stored non-zero figure (`Cassa.ApriCassaKeepsStoredOpening`).
- Prodotti.Product: carries only the columns the catalogue logic reads or keeps (id, name, description, price, category, active flag). `addProdotto` and `updateProdotto` are plain writes and are not modelled.

## Findings

| source | as written | input that shows it | evidently intended | confidence | as-written member | corrected member |
|---|---|---|---|---|---|---|
| src/lib/services/cassa.ts:127-141, 175, 185-199 | after a movement is added, the snapshot is refreshed from `getStatoCassaCompleto`, whose `\|\|` prefers the stored non-zero aggregate, so the refresh writes back the old figure; `apriCassa` (cassa.ts:243) logs its movement through the same add and inherits the freeze (`Cassa.ApriCassaKeepsStoredOpening`) | a day whose snapshot stores `vendite_contanti` 50, then one more `entrata` of 10: the reported and stored cash sales stay 50 while the day's sales sum grows by 10 | the refresh recomputes cash sales, expenses, opening float and card sales from the day's movements and POS payments | not executed | Cassa.AddMovimentoAsWrittenFreezesSales | Cassa.AddMovimentoTracksMovements |
| src/lib/services/prodotti.ts:28-35 | the grouping accumulates into a plain `{}`; for a category named like an inherited member (`toString`, `constructor`, `__proto__`, …) `acc[categoria]` is already truthy, the list is never created, `push` throws and the `catch` returns `{}` | active products in categories "Spiedo" and "toString": the result is `{}` | every active product grouped under its category, whatever the category's name | not executed | Prodotti.InheritedCategoryEmptiesGrouping | Prodotti.ProdottiByCategoria |
