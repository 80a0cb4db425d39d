/** What the "계산하기" (calculate) button computes (script.js:276-322),
    without the page: the form's fields come in as a `CalcInput`, and the
    figures the result panel shows come out as a `Report`. Today's year is
    a parameter. */
module Calculator {
  import opened Wrappers
  import opened JsMath
  import opened Calendar
  import opened Currency
  import opened Tax
  import opened Exemption
  import opened Penalty

  /** The form: the `assetType` and `relationship` selections, the raw
      text of the amount fields, the prior-gift rows and the two dates. */
  datatype CalcInput = CalcInput(
    assetType: string,
    relationship: string,
    cashAmount: string,
    realEstateValue: string,
    stockQuantity: string,
    stockPrice: string,
    priorGifts: seq<GiftRow>,
    giftDate: DateInput,
    submissionDate: DateInput)

  /** A JavaScript number as the gift amount can be: an integer, or `NaN`
      when the stock quantity does not start with a number. */
  datatype Amount = Number(value: int) | NaN

  /** The gift amount by asset type (script.js:285-296). The quantity is read
      with a bare `parseInt`: no commas are removed and nothing replaces
      `NaN`. Any other asset type leaves the amount at 0. */
  function GiftAmount(input: CalcInput): (r: Amount)
    ensures r.NaN? <==> input.assetType == "stock" && ParseInt(FieldOrZero(input.stockQuantity)).None?
    ensures input.assetType == "cash" ==> r == Number(ParseCurrency(FieldOrZero(input.cashAmount)))
    ensures input.assetType == "realEstate" ==> r == Number(ParseCurrency(FieldOrZero(input.realEstateValue)))
    ensures input.assetType == "stock" && ParseInt(FieldOrZero(input.stockQuantity)).Some? ==>
      r == Number(ParseInt(FieldOrZero(input.stockQuantity)).value * ParseCurrency(FieldOrZero(input.stockPrice)))
    ensures input.assetType != "cash" && input.assetType != "realEstate" && input.assetType != "stock"
      ==> r == Number(0)
  {
    if input.assetType == "cash" then
      Number(ParseCurrency(FieldOrZero(input.cashAmount)))
    else if input.assetType == "realEstate" then
      Number(ParseCurrency(FieldOrZero(input.realEstateValue)))
    else if input.assetType == "stock" then
      match ParseInt(FieldOrZero(input.stockQuantity))
      case Some(quantity) => Number(quantity * ParseCurrency(FieldOrZero(input.stockPrice)))
      case None => NaN
    else
      Number(0)
  }

  /** The figures of the result panel. When the gift amount is `NaN`, so are
      the taxable amount, the tax and the total; the exemption is still
      computed, and the penalty is 0 in the two branches that return a
      literal 0 and `NaN` (None) in the others. */
  datatype Report =
    | Figures(giftAmount: int, adjustedExemption: int, taxableAmount: int,
              giftTax: real, penalty: PenaltyResult, total: real)
    | NotANumber(adjustedExemption: int, penaltyReason: PenaltyReason, penaltyAmount: Option<real>)

  /** The click handler: gift amount, exemption and taxable amount, gift
      tax, late-filing penalty, and the total payable `giftTax + latePenalty`. */
  function Calculate(input: CalcInput, currentYear: int): (r: Report)
    ensures r.NotANumber? <==> input.assetType == "stock" && ParseInt(FieldOrZero(input.stockQuantity)).None?
    ensures r.Figures? ==> GiftAmount(input) == Number(r.giftAmount)
    ensures r.Figures? ==>
      Assessment(r.adjustedExemption, r.taxableAmount)
        == Assess(input.relationship, r.giftAmount, CollectPriorGifts(input.priorGifts), currentYear)
    ensures r.Figures? ==> r.penalty == LatePenalty(input.submissionDate, input.giftDate, r.giftTax)
    ensures r.NotANumber? ==> r.adjustedExemption == AdjustedExemption(input.relationship, CollectPriorGifts(input.priorGifts), currentYear)
    ensures r.NotANumber? ==> r.penaltyReason == PenaltyBand(input.submissionDate, input.giftDate)
    ensures r.adjustedExemption >= 0 && r.adjustedExemption <= ExemptionAmount(input.relationship)
    ensures r.Figures? ==> 0 <= r.taxableAmount <= MaxInt(r.giftAmount, 0)
    ensures r.Figures? && r.giftAmount > 0 ==>
      r.taxableAmount + (if r.adjustedExemption < r.giftAmount then r.adjustedExemption else r.giftAmount) == r.giftAmount
    ensures r.Figures? ==> r.giftTax == GiftTax(r.taxableAmount)
    ensures r.Figures? ==> r.total == r.giftTax + r.penalty.amount
    ensures r.Figures? ==> r.giftTax <= r.total <= r.giftTax * 6.0 / 5.0
    ensures r.Figures? ==>
      (r.penalty.reason == InvalidDates <==> ParsedDate(input.submissionDate).None? || ParsedDate(input.giftDate).None?)
    ensures r.NotANumber? ==>
      (r.penaltyReason == InvalidDates <==> ParsedDate(input.submissionDate).None? || ParsedDate(input.giftDate).None?)
    ensures r.NotANumber? ==> (r.penaltyAmount == Some(0.0) <==> r.penaltyReason == InvalidDates || r.penaltyReason == OnTime)
    ensures r.NotANumber? ==>
      (r.penaltyAmount.None? <==> r.penaltyReason == LateUpToSixMonths || r.penaltyReason == LateBeyondSixMonths)
    ensures input.assetType != "cash" && input.assetType != "realEstate" && input.assetType != "stock" ==>
      r.Figures? && r.giftAmount == 0 && r.adjustedExemption == 0 && r.taxableAmount == 0
      && r.giftTax == 0.0 && r.penalty.amount == 0.0 && r.total == 0.0
  {
    var gifts := CollectPriorGifts(input.priorGifts);
    match GiftAmount(input)
    case Number(amount) =>
      var assessment := Assess(input.relationship, amount, gifts, currentYear);
      var tax := GiftTax(assessment.taxableAmount);
      var penalty := LatePenalty(input.submissionDate, input.giftDate, tax);
      ExemptionWithinCeiling(input.relationship, amount, gifts, currentYear);
      GiftTaxByBracket(0);
      Figures(amount, assessment.adjustedExemption, assessment.taxableAmount, tax, penalty, tax + penalty.amount)
    case NaN =>
      var reason := PenaltyBand(input.submissionDate, input.giftDate);
      NotANumber(AdjustedExemption(input.relationship, gifts, currentYear), reason,
                 if reason == InvalidDates || reason == OnTime then Some(0.0) else None)
  }

  /** With the rows the form keeps (all positive), the exemption left never
      exceeds the relationship's ceiling. */
  lemma ExemptionWithinCeiling(key: string, giftAmount: int, gifts: seq<PriorGift>, currentYear: int)
    requires forall i :: 0 <= i < |gifts| ==> gifts[i].amount > 0
    ensures Assess(key, giftAmount, gifts, currentYear).adjustedExemption <= ExemptionAmount(key)
  {
    if giftAmount > 0 {
      AssessUsesAdjustedExemption(key, giftAmount, gifts, currentYear);
    }
  }

  // ----- The stock listener -----

  /** The total the stock listener shows (script.js:330-337). Unlike the
      click handler it removes the quantity's commas before `parseInt`, so
      "1,000" shares are 1000 shares there. */
  function StockTotal(input: CalcInput): (r: Amount)
    ensures r.NaN? <==> ParseInt(FieldOrZero(RemoveCommas(input.stockQuantity))).None?
    ensures ParseInt(FieldOrZero(RemoveCommas(input.stockQuantity))).Some? ==>
      r == Number(ParseInt(FieldOrZero(RemoveCommas(input.stockQuantity))).value * ParseCurrency(FieldOrZero(input.stockPrice)))
  {
    match ParseInt(FieldOrZero(RemoveCommas(input.stockQuantity)))
    case Some(quantity) => Number(quantity * ParseCurrency(FieldOrZero(input.stockPrice)))
    case None => NaN
  }

  /** The form after the listener has written the price back as
      `stockPrice.toLocaleString()` (script.js:340). */
  function AfterStockListener(input: CalcInput): (r: CalcInput)
    ensures r.stockPrice == LocaleString(ParseCurrency(FieldOrZero(input.stockPrice)))
    ensures r.(stockPrice := input.stockPrice) == input
  {
    input.(stockPrice := LocaleString(ParseCurrency(FieldOrZero(input.stockPrice))))
  }

  /** The price written back reads as the same number, so the listener never
      changes the gift the click handler computes. */
  lemma StockPriceWriteBack(input: CalcInput)
    ensures ParseCurrency(FieldOrZero(AfterStockListener(input).stockPrice)) == ParseCurrency(FieldOrZero(input.stockPrice))
    ensures GiftAmount(AfterStockListener(input)) == GiftAmount(input)
  {
    ParseCurrencyLocaleRoundTrip(ParseCurrency(FieldOrZero(input.stockPrice)));
  }

  /** Without commas in the quantity, the total shown is the gift the click
      handler uses for a stock gift. */
  lemma StockTotalIsGift(input: CalcInput)
    requires input.assetType == "stock"
    requires forall i :: 0 <= i < |input.stockQuantity| ==> input.stockQuantity[i] != ','
    ensures StockTotal(input) == GiftAmount(input)
  {
    RemoveCommasWithoutCommas(input.stockQuantity);
  }

  /** With a grouped quantity they differ: 1,000 shares at 5 show a total
      of 5000 while the gift is 5. */
  lemma StockTotalDiffersFromGift(input: CalcInput)
    requires input.assetType == "stock" && input.stockQuantity == "1,000" && input.stockPrice == "5"
    ensures StockTotal(input) == Number(5000)
    ensures GiftAmount(input) == Number(5)
  {
    assert ParseCurrency(input.stockPrice) == 5 by {
      PriceOfFive();
    }
    assert ParseInt(FieldOrZero(RemoveCommas(input.stockQuantity))) == Some(1000) by {
      ThousandWithoutCommas();
    }
    StockQuantityStopsAtComma(input);
  }

  lemma PriceOfFive()
    ensures ParseCurrency("5") == 5
  {
    assert AllDigits("5") && DecimalValue("5") == 5 by {
      assert "5"[..0] == [];
    }
    ParseCurrencyOfDigits("5");
    RemoveCommasWithoutCommas("5");
  }

  lemma ThousandWithoutCommas()
    ensures ParseInt(FieldOrZero(RemoveCommas("1,000"))) == Some(1000)
  {
    OneThousandWithoutComma();
    OneThousandValue();
    assert AllDigits("1000");
    ParseIntOfDigits("1000");
  }

  // ----- Worked cases -----

  /** A cash gift of 80,000,000 (as the field formats it) from a parent to an
      adult child, no earlier gifts, filed a month after the gift: 50,000,000
      is exempt, 30,000,000 is taxed at 10%, and 3,000,000 is payable. */
  lemma AdultChildCashGift(currentYear: int)
    ensures Calculate(CalcInput("cash", "adultChild", GroupDigits(80_000_000), "", "", "", [],
                                Given(Date(2024, 1, 1)), Given(Date(2024, 2, 1))), currentYear)
      == Figures(80_000_000, 50_000_000, 30_000_000, 3_000_000.0, PenaltyResult(0.0, OnTime), 3_000_000.0)
  {
    var input := CalcInput("cash", "adultChild", GroupDigits(80_000_000), "", "", "", [],
                           Given(Date(2024, 1, 1)), Given(Date(2024, 2, 1)));
    assert GiftAmount(input) == Number(80_000_000) by {
      ParseCurrencyGroupedRoundTrip(80_000_000);
    }
    assert CollectPriorGifts([]) == [];
    assert Assess("adultChild", 80_000_000, [], currentYear) == Assessment(50_000_000, 30_000_000) by {
      AdultChildAssessment(currentYear);
    }
    assert GiftTax(30_000_000) == 3_000_000.0 by {
      GiftTaxByBracket(30_000_000);
    }
    assert LatePenalty(Given(Date(2024, 2, 1)), Given(Date(2024, 1, 1)), 3_000_000.0) == PenaltyResult(0.0, OnTime) by {
      FiledWithinThreeMonths();
    }
  }

  lemma AdultChildAssessment(currentYear: int)
    ensures Assess("adultChild", 80_000_000, [], currentYear) == Assessment(50_000_000, 30_000_000)
  {
    ExemptionTable();
    assert AdjustedExemption("adultChild", [], currentYear) == 50_000_000;
    AssessUsesAdjustedExemption("adultChild", 80_000_000, [], currentYear);
  }

  lemma FiledWithinThreeMonths()
    ensures LatePenalty(Given(Date(2024, 2, 1)), Given(Date(2024, 1, 1)), 3_000_000.0) == PenaltyResult(0.0, OnTime)
  {
    var gift := Date(2024, 1, 1);
    assert YearOfIndex(12 * 2024 + 3) == 2024 && MonthOfIndex(12 * 2024 + 3) == 4;
    assert FilingDeadline(gift) == Date(2024, 4, 1);
    PenaltyBands(Date(2024, 2, 1), gift, 3_000_000.0);
  }

  /** A quantity that does not start with a number makes every figure but
      the exemption `NaN`. */
  lemma StockQuantityNotANumber(input: CalcInput, currentYear: int)
    requires input.assetType == "stock" && input.stockQuantity == "abc"
    ensures Calculate(input, currentYear).NotANumber?
  {
    assert FieldOrZero(input.stockQuantity) == ['a'] + "bc";
    ParseIntNonNumericStart('a', "bc");
  }

  /** The quantity keeps its commas: "1,000" shares are read as 1 share, so
      the gift is one share's price. */
  lemma StockQuantityStopsAtComma(input: CalcInput)
    requires input.assetType == "stock" && input.stockQuantity == "1,000"
    ensures GiftAmount(input) == Number(ParseCurrency(FieldOrZero(input.stockPrice)))
  {
    assert input.stockQuantity == "1" + ",000";
    assert AllDigits("1") && DecimalValue("1") == 1;
    ParseIntStops("1", ",000");
  }

  /** An empty quantity field reads as "0" shares: no gift, nothing due. */
  lemma EmptyStockQuantity(input: CalcInput, currentYear: int)
    requires input.assetType == "stock" && input.stockQuantity == ""
    ensures Calculate(input, currentYear).Figures?
    ensures Calculate(input, currentYear).giftAmount == 0
    ensures Calculate(input, currentYear).total == 0.0
  {
    assert FieldOrZero(input.stockQuantity) == "0";
    assert AllDigits("0") && DecimalValue("0") == 0;
    ParseIntOfDigits("0");
    GiftTaxByBracket(0);
  }

  /** With a well-formed quantity and price the gift is their product. */
  lemma StockGiftIsProduct(input: CalcInput)
    requires input.assetType == "stock"
    requires |input.stockQuantity| > 0 && AllDigits(input.stockQuantity)
    requires forall i :: 0 <= i < |input.stockPrice| ==> IsDigit(input.stockPrice[i]) || input.stockPrice[i] == ','
    requires |input.stockPrice| > 0
    ensures AllDigits(RemoveCommas(input.stockPrice))
    ensures GiftAmount(input)
      == Number(DecimalValue(input.stockQuantity) * DecimalValue(RemoveCommas(input.stockPrice)))
  {
    ParseIntOfDigits(input.stockQuantity);
    ParseCurrencyOfDigits(input.stockPrice);
  }
}
