# Gift-tax calculator: a Dafny model

This project models the calculation engine of a Korean gift-tax (증여세)
calculator. The original is one browser script, `script.js`. When the user
presses "계산하기" (calculate), the script does five things:

1. It reads the gift amount from the form. A cash or real-estate amount is
   read directly. A stock gift is quantity × price per share.
2. It looks up the exemption for the donor–recipient relationship.
3. It subtracts the gifts already made this calendar year from that
   exemption.
4. It taxes the remainder with a progressive bracket table.
5. It adds a late-filing penalty of 0%, 10% or 20% of the tax, based on
   how long after the gift the return is filed.

The model has one module per concern:

- `Currency`: `parseCurrency` and JavaScript's `parseInt(text, 10)`,
  together with the comma grouping the amount fields display. The
  grouping is the inverse that `parseCurrency` reads back.
- `Calendar`: dates as the date fields deliver them, day numbers in the
  style of ECMAScript's MakeDay, and the month arithmetic of `setMonth`,
  including its roll-over. For example, 31 August + 6 months lands in
  March.
- `Exemption`: the exemption table, the prior-gift offset for the current
  year, the row filter that decides which prior gifts are used, and the
  taxable amount.
- `Tax`: the bracket walk of `calculateGiftTax`. Next to it sits an
  independent marginal-rate reference (`MarginalTax`).
- `Penalty`: `calculateLatePenalty`.
- `Calculator`: the click handler, from the form's text fields to the
  figures the result panel shows.
- `Wrappers` and `JsMath`: `Option` and `Math.max`.

Amounts in won are integers. Tax and penalty are exact rationals (`real`),
because every rate is a whole percentage.

Two inputs of the original become parameters:

- The current year, which the script reads from `new Date()`, is the
  parameter `currentYear`.
- The form is a `CalcInput` value. It holds the raw text of each amount
  field, the prior-gift rows, and two `DateInput`s. A `DateInput` is
  empty, malformed, or a date.

## Behaviour modelled as written

- **The bracket walk double-counts its deduction.**
  - `calculateGiftTax` adds each full bracket's tax at its own rate. It
    then also subtracts the terminal bracket's cumulative "누진공제"
    (progressive deduction). That deduction is meant to replace the
    bracket-by-bracket sum, not to be applied on top of it.
  - `Tax.WalkDoubleCountsDeduction` proves, for every ascending table,
    that the walk equals the marginal-rate tax minus the terminal
    deduction.
  - `Tax.GiftTaxDropsAtFirstLimit` shows that the tax is not monotone.
    100,000,000 won is taxed 10,000,000. One won more is taxed 0.2.
  - The rest of the model uses the tax exactly as the script computes it.
- **A gift amount can be `NaN`.**
  - The stock quantity is read with a bare `parseInt`. No commas are
    removed and no `|| 0` fallback applies.
  - A quantity such as "1,000" therefore reads as 1 share.
  - A quantity that has no digit after its leading white space and one
    optional sign (for example "abc" or "-x") gives `NaN`; "+5" and " 5"
    read as 5. The taxable amount, the tax and the total are then
    `NaN` too; this is `Calculator.Report.NotANumber`.
  - The exemption is still computed in that case. The penalty is 0 on
    the branches that return a literal 0 (missing dates, filed on time)
    and `NaN` on the two late branches, which multiply the tax.
- **The bracket table and the penalty are exactly the script's.**
  - The brackets end at 100,000,000, 500,000,000 and 3,000,000,000 won,
    with rates of 10%, 20%, 30% and 50%. Their cumulative deductions are 0,
    10,000,000, 70,000,000 and 470,000,000.
  - A taxable 600,000,000 won is therefore taxed
    3 × 600,000,000 / 10 − 130,000,000 = 50,000,000.
  - The late-filing penalty is a flat 10% or 20% of the tax. There is no
    per-day surcharge, no reduction for young recipients and no marriage
    exemption.

## Model

| member | source | states |
|---|---|---|
| Exemption.ExemptionAmount | script.js:2-12 | The exemption is positive exactly for the five relationship keys, is never above 600,000,000, and is 0 for any other key (the `or 0` fallback). |
| Exemption.KeyRoundTrip | script.js:3-11 | Each relationship's key looks up that relationship's own entry in the table. |
| Exemption.ExemptionTable | script.js:3-9 | The five entries: adult child 50,000,000; minor child 20,000,000; spouse 600,000,000; son- or daughter-in-law 50,000,000; other 10,000,000. |
| Exemption.GiftYear | script.js:74-76 | A gift has a year exactly when its date is a real calendar date, and that year is the date's own year. |
| Exemption.InYearByDate | script.js:74-76 | A gift with a real date is kept by the filter exactly when its date's year is the given year. |
| Exemption.InYear | script.js:73-77 | Every gift the filter keeps is dated in the given year and comes from the list, and every gift of that year is kept. |
| Exemption.InYearCounts | script.js:73-77 | The filter keeps each gift of the year exactly as often as it occurs (two equal gifts both count), and keeps no gift of another year. |
| Exemption.InYearAppend | script.js:73-77 | The filter works element by element and keeps the order: filtering a joined list joins the filtered parts. |
| Exemption.AdjustedExemption | script.js:70-83 | The adjusted exemption is never negative. When prior amounts are non-negative, it never exceeds the relationship's exemption. |
| Exemption.NoPriorGifts | script.js:71-82 | With no prior gifts the adjusted exemption is the whole exemption. |
| Exemption.OtherYearGiftIgnored | script.js:73-77 | A prior gift dated in another year, or with no readable date, does not change the adjusted exemption, wherever it sits in the list. |
| Exemption.SameYearGiftConsumes | script.js:79-82 | A prior gift dated this year reduces the adjusted exemption by its amount, clamped at 0. |
| Exemption.CollectPriorGiftsAppend | script.js:57-64 | Prior-gift rows are collected one by one and keep their order. |
| Exemption.Assess | script.js:42-49 | A gift of 0 or less yields no exemption and no taxable amount. Otherwise the taxable amount plus the exemption used equals the gift, and nothing is taxable exactly when the gift fits within the adjusted exemption. |
| Exemption.AssessUsesAdjustedExemption | script.js:45-46 | For a positive gift, the exemption reported is the adjusted exemption and the taxable amount is the gift less it, never below 0. |
| Exemption.RowGift | script.js:58-62 | A row yields a gift exactly when its amount (read with `parseCurrency`, an empty field as '0') is positive and its date field is non-empty. |
| Exemption.CollectOneRow | script.js:61-62 | A single row is kept, with the amount its text reads as, exactly when it passes the row test. |
| Exemption.CollectPriorGifts | script.js:52-67 | Every collected gift has a positive amount and a date, and there are never more gifts than rows. |
| Tax.GiftTax | script.js:86-111 | The tax is never negative (`Math.max(tax, 0)`). |
| Tax.GiftTaxByBracket | script.js:86-111 | The closed form in each bracket: 10% up to 100,000,000; (a − 100,000,000)/5 up to 500,000,000; 3a/10 − 130,000,000 up to 3,000,000,000; a/2 − 1,130,000,000 above that. A limit itself stays in its bracket, because the test is a strict `>`. |
| Tax.WalkDoubleCountsDeduction | script.js:97-108 | For any ascending bracket table, the walk equals the marginal-rate tax minus the terminal bracket's deduction. |
| Tax.GiftTaxIsMarginalMinusDeduction | script.js:86-111 | For every non-negative amount, the script's tax is the marginal-rate tax minus the terminal deduction, clamped at 0. |
| Tax.GiftTaxDropsAtFirstLimit | script.js:98-105 | The tax at 100,000,000 is 10,000,000 and at 100,000,001 is 0.2, so a larger amount can be taxed less. |
| Tax.MarginalTaxMonotone | script.js:87-92 | The marginal-rate reference the script is measured against grows with the amount. |
| Tax.TerminalIndex | script.js:97-107 | The loop passes exactly the brackets whose limits the amount exceeds, and stops at the first one it does not exceed. |
| Calendar.AddMonths | script.js:156-157 | `setMonth(getMonth() + k)` yields a valid date k months on, with the same day. A day the target month lacks rolls over into the following month by the excess. |
| Calendar.AddMonthsMakeDay | script.js:156-157 | The day number of the shifted date is the first of the target month plus the day − 1 (MakeDay). |
| Calendar.AddMonthsIncreasing | script.js:165-166 | Adding more months gives a strictly later date, in calendar order and in day numbers. |
| Calendar.DayNumberOrder | script.js:160 | Comparing two valid dates by day number agrees with calendar order, both ways. |
| Calendar.ParsedDate | script.js:147-151 | A field gives a date exactly when it holds a real calendar date, and that date is the field's own. |
| Penalty.PenaltyBand | script.js:151-153 | The branch is the invalid-dates branch exactly when either date is missing or unreadable. |
| Penalty.LatePenalty | script.js:146-172 | The penalty is 0 for invalid dates and on-time filing, one tenth of the tax up to the extended deadline, and one fifth after it. For a non-negative tax it lies between 0 and a fifth of the tax. |
| Penalty.Charge | script.js:152-172 | Each branch's penalty: 0, 0, `giftTax * 0.1`, `giftTax * 0.2`. |
| Penalty.PenaltyBands | script.js:155-172 | In calendar order: filed on or before gift + 3 months, nothing is due; after that and on or before gift + 6 months, 10%; later, 20%. |
| Penalty.PenaltyDeadlineDays | script.js:160-168 | Filing on a deadline still falls in the earlier band; the day after it falls in the next band (both tests are `<=`). |
| Penalty.DeadlinesOrdered | script.js:155-166 | The gift date precedes the filing deadline, which precedes the extended deadline, also across month-end roll-over. |
| Penalty.PenaltyMonotone | script.js:160-172 | For a fixed gift date and a non-negative tax, filing later never costs less. |
| Penalty.MissingDatesNoPenalty | script.js:151-152 | An empty or unreadable date gives no penalty and the invalid-dates message. |
| Penalty.MessagesDistinct | script.js:152-172 | Every branch reports a message of its own. |
| Penalty.PenaltyFourMonthsLate | script.js:155-169 | For a gift on 1 January 2024 filed on 1 May 2024, 10% of a 1,000,000 tax (100,000) is due. |
| Currency.ParseInt | script.js:293 | `parseInt(text, 10)` is NaN exactly when no digit follows the leading white space and one optional sign; a text without any digit is NaN. |
| Currency.ParseIntNonNumericStart | script.js:293 | A text whose first character is neither white space, a sign nor a digit ("abc1") is NaN. |
| Currency.ParseIntSignWithoutDigits | script.js:293 | A sign not followed by a digit ("-x1") is NaN. |
| Currency.ParseIntOfDigits | script.js:293 | `parseInt` of a run of digits is its decimal value. |
| Currency.ParseIntStops | script.js:293 | `parseInt` stops at the first character after the digits that is not a digit. |
| Currency.ParseIntSkipsWhitespace | script.js:293 | `parseInt` skips leading white space. |
| Currency.ParseCurrency | script.js:348-350 | A text with no digit at all reads as 0 (the `or 0` fallback). |
| Currency.ParseCurrencyNotANumber | script.js:348-350 | When, once the commas are gone, no digit follows the white space and optional sign, `parseInt` gives NaN and `parseCurrency` gives 0. |
| Currency.ParseCurrencyNonNumericStart | script.js:348-350 | A text starting with a character that is neither white space, a sign, a digit nor a comma ("abc1") reads as 0. |
| Currency.ParseCurrencyOfDigits | script.js:348-350 | Text of digits and commas reads as the number its digits spell. |
| Currency.ParseCurrencyNegative | script.js:348-350 | A leading minus sign negates the value. |
| Currency.ParseIntSigned | script.js:293 | An optional sign, a run of digits and anything that does not start with a digit: `parseInt` gives the digits' value, negated after a minus sign and unchanged after a plus sign or none. |
| Currency.ParseCurrencySigned | script.js:348-350 | An optional sign, digits grouped by commas, and anything that starts with neither a digit nor a comma: the value of the digits, negated after a minus sign only ("-1,000원" reads as -1000, "+5" as 5). |
| Currency.ParseCurrencyStopsAtOther | script.js:348-350 | A run of digits and commas followed by any other character reads as the number its digits spell; whatever follows is ignored. |
| Currency.ParseCurrencyWithUnit | script.js:348-350 | "1,000원" reads as 1000. |
| Currency.ParseCurrencySkipsWhitespace | script.js:348-350 | Leading white space is skipped. |
| Currency.RemoveCommas | script.js:349 | Removing commas leaves no comma, never lengthens the text, and turns digits-and-commas into pure digits. |
| Currency.RemoveCommasKeepsOthers | script.js:349 | Every character other than a comma is kept, as often as it occurs. |
| Currency.RemoveCommasAppend | script.js:349 | Removing commas works piece by piece, so the kept characters keep their order. |
| Currency.RemoveCommasOneChar | script.js:349 | A single comma vanishes; any other single character is kept. |
| Currency.GroupDigits | script.js:30 | The display is a first group of one to three digits followed by comma-led groups of exactly three digits. It has no leading zero except for 0 itself, and it spells n once the commas are removed. |
| Currency.ParseCurrencyGroupedRoundTrip | script.js:30 | `parseCurrency` reads back every amount the fields display with comma grouping. |
| Currency.LocaleString | script.js:340 | `toLocaleString` of an integer in a comma-grouping locale: for 0 and above, digits grouped by threes; below 0, a minus sign and then the grouped digits, which do not start with 0. |
| Currency.ParseCurrencyLocaleRoundTrip | script.js:340 | `parseCurrency` reads back every integer written by `toLocaleString`, negative ones included. |
| Calculator.GiftAmount | script.js:285-296 | Cash and real estate read their field with `parseCurrency`. Stock is quantity × price, and `NaN` exactly when the quantity has no digit after its leading white space and one optional sign. Any other asset type gives 0. |
| Calculator.Calculate | script.js:276-322 | The figures follow the handler's chain: the gift amount is `GiftAmount` of the form; exemption and taxable amount are `Assess` of that amount and the collected prior gifts; the tax is the bracket tax of the taxable amount; the penalty is `LatePenalty` of the two dates and that tax; the total is tax plus penalty and lies between the tax and 6/5 of it. A `NaN` result occurs exactly for an unreadable stock quantity and still carries the adjusted exemption and the penalty branch of the dates; its penalty is 0 exactly for missing dates or filing on time and `NaN` exactly in the two late branches (lines 169 and 172 multiply a `NaN` tax). An unknown asset type gives all zeros. |
| Calculator.AdultChildCashGift | script.js:276-322 | A cash gift of 80,000,000 to an adult child, with no prior gifts, filed within a month, gives exemption 50,000,000, taxable 30,000,000, tax 3,000,000 and total 3,000,000. |
| Calculator.StockQuantityStopsAtComma | script.js:293-295 | A stock quantity of "1,000" is read as 1 share, so the gift is one share's price. |
| Calculator.StockQuantityNotANumber | script.js:293-295 | A quantity of "abc" makes the gift amount `NaN`, and with it the figures. |
| Calculator.EmptyStockQuantity | script.js:293-295 | An empty quantity field reads as "0": no gift and nothing due. |
| Calculator.StockGiftIsProduct | script.js:292-296 | With a quantity of digits and a price of digits and commas, the gift is their product. |
| Calculator.StockTotal | script.js:330-337 | The listener's total is `NaN` exactly when the quantity, with its commas removed, has no digit after white space and sign; otherwise it is quantity × price. |
| Calculator.AfterStockListener | script.js:340 | The listener replaces the price field by `toLocaleString` of the price it read and changes nothing else on the form. |
| Calculator.StockPriceWriteBack | script.js:340 | The price written back reads as the same number, so the gift the click handler computes (line 294) is unchanged. |
| Calculator.StockTotalIsGift | script.js:331 | For a quantity without commas, the total the listener shows equals the gift the handler uses (line 293). |
| Calculator.StockTotalDiffersFromGift | script.js:331 | A quantity of "1,000" at a price of 5: the listener shows 5000, while the handler's gift (line 293) is 5. |

## Left out

- The page: the DOM reads and writes, the button styling, the field
  visibility switches and the result panel's HTML are outside the
  calculation.
- Number formatting: `toLocaleString` is modelled for integers in a
  comma-grouping locale (`Currency.LocaleString`, `Currency.GroupDigits`).
  Left out are the formats of locales that do not group with commas, and
  the result panel's formatting (lines 133 and 312-321), which only
  displays the computed figures.
- The amount-field input listener (lines 16-39) is reduced to the grouping
  it writes back. Its digit stripping and cursor handling are not modelled.
- IEEE-754 doubles: the model's amounts are unbounded integers and exact
  rationals. It does not model rounding of `giftTax * 0.1`, precision loss
  above 2^53, or `Infinity`.
- The JavaScript `Date` object:
  - Time of day and time zones are not modelled. A date-only string is
    parsed as UTC but `setMonth` works in local time. The model treats
    every date as its midnight in one zone.
  - The `Date` range limit of ±100,000,000 days is not modelled.
  - `new Date(text)` is reduced to `DateInput`: empty, malformed, or a
    date. A date the calendar does not have counts as malformed.
- Today's date: `new Date()` in `calculateAdjustedExemption` becomes the
  parameter `currentYear`.
- Object-prototype keys: a relationship value such as "constructor" would
  find an inherited property in the `exemptions` object. The model treats
  every unknown key as absent (0), because the relationship select offers
  only the five keys.
- Relationship values the select does not offer: `ParseRelationship`
  covers only the five keys.
- `calculateFinalTax` (lines 114-134), the first `parseCurrency`
  (lines 137-139) and the listener at line 142 are left out. Line 142
  attaches a second click handler. That handler writes only a separate
  `finalTax` element, and the later definition at line 348 replaces the
  earlier `parseCurrency` before any handler runs.
- `updateDynamicTaxableAmount` and the prior-gift row management
  (lines 176-238) are left out. The model takes the prior-gift rows as
  they stand when the button is clicked. The row management does more
  than refresh the display: lines 206-238 add and remove the inputs that
  `getPreviousGifts` queries (lines 53-54). Line 228 also rewrites a
  row's amount field as `Number(value).toLocaleString()`, and line 58
  reads that field, so "1e3" becomes "1,000" before the click. That
  rewrite is not modelled. Note that the preview keeps a row on a different test (line 187: the amount
  is not NaN and a date is given). Since `parseCurrency` never yields NaN,
  the preview also counts rows of 0 or negative amounts. The figures the
  click handler shows use the test at line 61, modelled as
  `Exemption.KeepsRow`.
- `getPreviousGifts`: only its per-row logic is modelled, as
  `Exemption.RowGift` and `Exemption.CollectPriorGifts`. The DOM query is
  replaced by the list of rows.
- The stock-total listener (lines 325-345) is modelled as
  `Calculator.StockTotal` and `Calculator.AfterStockListener`. It is not
  display-only: line 340 writes `stockPrice.toLocaleString()` back into
  the price field, which the click handler reads at line 294. In a
  comma-grouping locale the value read back is unchanged
  (`Currency.ParseCurrencyLocaleRoundTrip`, `Calculator.StockPriceWriteBack`);
  other locales' formats are not modelled. Line 331 removes the
  quantity's commas, unlike line 293, so the total shown on the form can
  differ from the gift the handler uses
  (`Calculator.StockTotalDiffersFromGift`).
- Penalty.LatePenalty: returns the branch (`PenaltyReason`) in place of
  the message text. `Penalty.Message` maps each branch to the script's
  string.
