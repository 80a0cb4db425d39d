/** Exemptions and the taxable amount: `getExemptionAmount` (script.js:2-12),
    `calculateAdjustedExemption` (script.js:70-83),
    `calculateTaxableAmountAndExemption` (script.js:42-49) and the test that
    decides which prior-gift rows are used (script.js:57-64). */
module Exemption {
  import opened Wrappers
  import opened JsMath
  import opened Calendar
  import opened Currency

  /** The five relationships the exemption table knows. */
  datatype Relationship = AdultChild | MinorChild | Spouse | SonInLawDaughterInLaw | Other

  /** The key of each relationship in the `exemptions` object. */
  function Key(rel: Relationship): string {
    match rel
    case AdultChild => "adultChild"
    case MinorChild => "minorChild"
    case Spouse => "spouse"
    case SonInLawDaughterInLaw => "sonInLawDaughterInLaw"
    case Other => "other"
  }

  /** The relationship a select value names, if any. */
  function ParseRelationship(key: string): (r: Option<Relationship>)
    ensures r.Some? ==> Key(r.value) == key
  {
    if key == "adultChild" then Some(AdultChild)
    else if key == "minorChild" then Some(MinorChild)
    else if key == "spouse" then Some(Spouse)
    else if key == "sonInLawDaughterInLaw" then Some(SonInLawDaughterInLaw)
    else if key == "other" then Some(Other)
    else None
  }

  /** The entries of the `exemptions` object, in won. */
  function Ceiling(rel: Relationship): nat {
    match rel
    case AdultChild => 50_000_000
    case MinorChild => 20_000_000
    case Spouse => 600_000_000
    case SonInLawDaughterInLaw => 50_000_000
    case Other => 10_000_000
  }

  /** `getExemptionAmount(relationship)`: the table entry, or 0 for a key
      the table does not have (`exemptions[relationship] || 0`). */
  function ExemptionAmount(key: string): (r: nat)
    ensures r > 0 <==> ParseRelationship(key).Some?
    ensures r <= 600_000_000
  {
    match ParseRelationship(key)
    case Some(rel) => Ceiling(rel)
    case None => 0
  }

  /** Every relationship's key finds its own entry, and only that key does. */
  lemma KeyRoundTrip(rel: Relationship)
    ensures ParseRelationship(Key(rel)) == Some(rel)
    ensures ExemptionAmount(Key(rel)) == Ceiling(rel)
  {
  }

  /** The table's five values. */
  lemma ExemptionTable()
    ensures ExemptionAmount("adultChild") == 50_000_000
    ensures ExemptionAmount("minorChild") == 20_000_000
    ensures ExemptionAmount("spouse") == 600_000_000
    ensures ExemptionAmount("sonInLawDaughterInLaw") == 50_000_000
    ensures ExemptionAmount("other") == 10_000_000
  {
    KeyRoundTrip(AdultChild);
    KeyRoundTrip(MinorChild);
    KeyRoundTrip(Spouse);
    KeyRoundTrip(SonInLawDaughterInLaw);
    KeyRoundTrip(Other);
  }

  // ----- Prior gifts -----

  /** A `{ amount, date }` entry of `previousGifts`. */
  datatype PriorGift = PriorGift(amount: int, date: DateInput)

  /** `new Date(gift.date).getFullYear()`; `None` stands for NaN. */
  function GiftYear(g: PriorGift): (r: Option<int>)
    ensures r.Some? <==> ParsedDate(g.date).Some?
    ensures g.date.Given? && ValidDate(g.date.date) ==> r == Some(g.date.date.year)
  {
    match ParsedDate(g.date)
    case Some(d) => Some(d.year)
    case None => None
  }

  /** `previousGifts.filter(...)`: the gifts dated in `year`, in order. */
  function InYear(gifts: seq<PriorGift>, year: int): (r: seq<PriorGift>)
    ensures |r| <= |gifts|
    ensures forall i :: 0 <= i < |r| ==> GiftYear(r[i]) == Some(year) && r[i] in gifts
    ensures forall i :: 0 <= i < |gifts| && GiftYear(gifts[i]) == Some(year) ==> gifts[i] in r
  {
    if |gifts| == 0 then []
    else if GiftYear(gifts[0]) == Some(year) then [gifts[0]] + InYear(gifts[1..], year)
    else InYear(gifts[1..], year)
  }

  /** The filter keeps every gift of the year as often as it occurs (two
      equal gifts both count) and adds nothing. */
  lemma {:induction false} InYearCounts(gifts: seq<PriorGift>, year: int)
    ensures multiset(InYear(gifts, year)) <= multiset(gifts)
    ensures forall g :: GiftYear(g) == Some(year) ==> multiset(InYear(gifts, year))[g] == multiset(gifts)[g]
    ensures forall g :: GiftYear(g) != Some(year) ==> multiset(InYear(gifts, year))[g] == 0
  {
    if |gifts| > 0 {
      assert gifts == [gifts[0]] + gifts[1..];
      InYearCounts(gifts[1..], year);
    }
  }

  /** `gifts.reduce((sum, gift) => sum + gift.amount, 0)`. */
  function TotalAmount(gifts: seq<PriorGift>): int {
    if |gifts| == 0 then 0 else gifts[0].amount + TotalAmount(gifts[1..])
  }

  /** `calculateAdjustedExemption(relationship, previousGifts)`, with the
      year of `new Date()` passed in as `currentYear`: the exemption less
      this year's prior gifts, never below 0. */
  function AdjustedExemption(key: string, gifts: seq<PriorGift>, currentYear: int): (r: int)
    ensures r >= 0
    ensures (forall i :: 0 <= i < |gifts| ==> gifts[i].amount >= 0) ==> r <= ExemptionAmount(key)
  {
    var thisYear := InYear(gifts, currentYear);
    NonNegativeTotal(gifts, thisYear);
    MaxInt(ExemptionAmount(key) - TotalAmount(thisYear), 0)
  }

  /** A selection of gifts with non-negative amounts has a non-negative total. */
  lemma NonNegativeTotal(gifts: seq<PriorGift>, selected: seq<PriorGift>)
    requires forall i :: 0 <= i < |selected| ==> selected[i] in gifts
    ensures (forall i :: 0 <= i < |gifts| ==> gifts[i].amount >= 0) ==> TotalAmount(selected) >= 0
  {
    if forall i :: 0 <= i < |gifts| ==> gifts[i].amount >= 0 {
      TotalOfNonNegative(selected);
    }
  }

  lemma {:induction false} TotalOfNonNegative(gifts: seq<PriorGift>)
    requires forall g :: g in gifts ==> g.amount >= 0
    ensures TotalAmount(gifts) >= 0
  {
    if |gifts| > 0 {
      assert forall g :: g in gifts[1..] ==> g in gifts;
      TotalOfNonNegative(gifts[1..]);
    }
  }

  lemma {:induction false} InYearAppend(a: seq<PriorGift>, b: seq<PriorGift>, year: int)
    ensures InYear(a + b, year) == InYear(a, year) + InYear(b, year)
  {
    if |a| == 0 {
      assert a + b == b;
    } else {
      assert (a + b)[0] == a[0];
      assert (a + b)[1..] == a[1..] + b;
      InYearAppend(a[1..], b, year);
    }
  }

  lemma {:induction false} TotalAmountAppend(a: seq<PriorGift>, b: seq<PriorGift>)
    ensures TotalAmount(a + b) == TotalAmount(a) + TotalAmount(b)
  {
    if |a| == 0 {
      assert a + b == b;
    } else {
      assert (a + b)[0] == a[0];
      assert (a + b)[1..] == a[1..] + b;
      TotalAmountAppend(a[1..], b);
    }
  }

  /** A gift with a real calendar date is kept by the filter exactly when
      that date falls in the year. */
  lemma InYearByDate(g: PriorGift, d: Date, year: int)
    requires g.date == Given(d) && ValidDate(d)
    ensures InYear([g], year) == if d.year == year then [g] else []
  {
    assert [g][1..] == [];
  }

  /** With no prior gifts the whole exemption is left. With the two lemmas
      below, this fixes the adjusted exemption of every list. */
  lemma NoPriorGifts(key: string, currentYear: int)
    ensures AdjustedExemption(key, [], currentYear) == ExemptionAmount(key)
  {
  }

  /** A prior gift dated in another year (or with no readable date) does not
      change the adjusted exemption, wherever it appears in the list. */
  lemma OtherYearGiftIgnored(key: string, before: seq<PriorGift>, g: PriorGift, after: seq<PriorGift>, currentYear: int)
    requires GiftYear(g) != Some(currentYear)
    ensures AdjustedExemption(key, before + [g] + after, currentYear) == AdjustedExemption(key, before + after, currentYear)
  {
    var yb, ya := InYear(before, currentYear), InYear(after, currentYear);
    assert InYear(before + [g], currentYear) == yb by {
      InYearAppend(before, [g], currentYear);
      assert InYear([g], currentYear) == [];
      assert yb + [] == yb;
    }
    assert InYear(before + [g] + after, currentYear) == yb + ya by {
      InYearAppend(before + [g], after, currentYear);
    }
    assert InYear(before + after, currentYear) == yb + ya by {
      InYearAppend(before, after, currentYear);
    }
  }

  /** A prior gift dated this year uses up its amount of the exemption, down
      to 0, wherever it appears in the list. */
  lemma SameYearGiftConsumes(key: string, before: seq<PriorGift>, g: PriorGift, after: seq<PriorGift>, currentYear: int)
    requires GiftYear(g) == Some(currentYear) && g.amount >= 0
    ensures AdjustedExemption(key, before + [g] + after, currentYear)
      == MaxInt(AdjustedExemption(key, before + after, currentYear) - g.amount, 0)
  {
    var yb, ya := InYear(before, currentYear), InYear(after, currentYear);
    InYearAppend(before + [g], after, currentYear);
    InYearAppend(before, [g], currentYear);
    InYearAppend(before, after, currentYear);
    assert InYear([g], currentYear) == [g];
    TotalAmountAppend(yb + [g], ya);
    TotalAmountAppend(yb, [g]);
    TotalAmountAppend(yb, ya);
    assert TotalAmount([g]) == g.amount;
  }

  // ----- Taxable amount -----

  /** The `{ adjustedExemption, taxableAmount }` object. */
  datatype Assessment = Assessment(adjustedExemption: int, taxableAmount: int)

  /** `calculateTaxableAmountAndExemption(relationship, giftAmount, previousGifts)`. */
  function Assess(key: string, giftAmount: int, gifts: seq<PriorGift>, currentYear: int): (r: Assessment)
    ensures giftAmount <= 0 ==> r == Assessment(0, 0)
    ensures r.adjustedExemption >= 0
    ensures 0 <= r.taxableAmount <= MaxInt(giftAmount, 0)
    ensures giftAmount > 0 ==>
      r.taxableAmount + (if r.adjustedExemption < giftAmount then r.adjustedExemption else giftAmount) == giftAmount
    ensures giftAmount > 0 ==> (r.taxableAmount == 0 <==> giftAmount <= r.adjustedExemption)
  {
    if giftAmount <= 0 then Assessment(0, 0)
    else
      var adjusted := AdjustedExemption(key, gifts, currentYear);
      Assessment(adjusted, MaxInt(giftAmount - adjusted, 0))
  }

  /** With a positive gift, the exemption used is the adjusted exemption. */
  lemma AssessUsesAdjustedExemption(key: string, giftAmount: int, gifts: seq<PriorGift>, currentYear: int)
    requires giftAmount > 0
    ensures Assess(key, giftAmount, gifts, currentYear).adjustedExemption == AdjustedExemption(key, gifts, currentYear)
    ensures Assess(key, giftAmount, gifts, currentYear).taxableAmount
      == MaxInt(giftAmount - AdjustedExemption(key, gifts, currentYear), 0)
  {
  }

  // ----- The prior-gift rows of the form -----

  /** One row of the prior-gift section: the amount field's text and the
      matching date field (`Empty` also when there is no matching field). */
  datatype GiftRow = GiftRow(amountText: string, date: DateInput)

  /** The test at script.js:61: `amount > 0 && date`. */
  predicate KeepsRow(amount: int, date: DateInput) {
    amount > 0 && !date.Empty?
  }

  /** `parseCurrency(input.value || '0')` */
  function RowAmount(row: GiftRow): int {
    ParseCurrency(FieldOrZero(row.amountText))
  }

  /** The gift a row contributes, if the test lets it through. */
  function RowGift(row: GiftRow): (r: Option<PriorGift>)
    ensures r.Some? <==> KeepsRow(RowAmount(row), row.date)
    ensures r.Some? ==> r.value == PriorGift(RowAmount(row), row.date)
    ensures r.Some? ==> r.value.amount > 0 && !r.value.date.Empty?
  {
    var amount := RowAmount(row);
    if KeepsRow(amount, row.date) then Some(PriorGift(amount, row.date)) else None
  }

  /** The gifts `getPreviousGifts` collects from the rows, in order. */
  function CollectPriorGifts(rows: seq<GiftRow>): (r: seq<PriorGift>)
    ensures |r| <= |rows|
    ensures forall i :: 0 <= i < |r| ==> r[i].amount > 0 && !r[i].date.Empty?
  {
    if |rows| == 0 then []
    else
      var rest, kept := CollectPriorGifts(rows[1..]), RowGift(rows[0]);
      if kept.Some? then
        PrependKept(kept.value, rest);
        [kept.value] + rest
      else rest
  }

  /** A kept gift in front of kept gifts. */
  lemma PrependKept(g: PriorGift, rest: seq<PriorGift>)
    requires g.amount > 0 && !g.date.Empty?
    requires forall i :: 0 <= i < |rest| ==> rest[i].amount > 0 && !rest[i].date.Empty?
    ensures var r := [g] + rest;
      forall i :: 0 <= i < |r| ==> r[i].amount > 0 && !r[i].date.Empty?
  {
  }

  /** A row is kept, as a gift of the amount its text reads as, exactly when
      that amount is positive and its date field is not empty. */
  lemma CollectOneRow(row: GiftRow)
    ensures KeepsRow(RowAmount(row), row.date) ==> CollectPriorGifts([row]) == [PriorGift(RowAmount(row), row.date)]
    ensures !KeepsRow(RowAmount(row), row.date) ==> CollectPriorGifts([row]) == []
  {
    assert [row][1..] == [];
  }

  /** Collecting works row by row, keeping the order of the rows. */
  lemma {:induction false} CollectPriorGiftsAppend(a: seq<GiftRow>, b: seq<GiftRow>)
    ensures CollectPriorGifts(a + b) == CollectPriorGifts(a) + CollectPriorGifts(b)
  {
    if |a| == 0 {
      assert a + b == b;
    } else {
      assert (a + b)[0] == a[0];
      assert (a + b)[1..] == a[1..] + b;
      CollectPriorGiftsAppend(a[1..], b);
    }
  }
}
