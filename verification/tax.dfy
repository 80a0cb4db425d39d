/** The progressive gift tax of `calculateGiftTax` (script.js:86-111): a walk
    over a table of brackets that accumulates each full bracket's tax,
    adds the partial bracket in which the amount ends, subtracts that
    bracket's cumulative deduction, and clamps the result at 0.

    Rates are whole percentages, so amounts of tax are exact rationals. */
module Tax {
  import opened JsMath

  /** A bracket's upper limit; `Unbounded` stands for `Infinity`. */
  datatype Limit = Finite(value: int) | Unbounded

  datatype Bracket = Bracket(limit: Limit, ratePercent: nat, deduction: nat)

  /** The table at script.js:87-92. */
  const TaxBrackets: seq<Bracket> := [
    Bracket(Finite(100_000_000), 10, 0),
    Bracket(Finite(500_000_000), 20, 10_000_000),
    Bracket(Finite(3_000_000_000), 30, 70_000_000),
    Bracket(Unbounded, 50, 470_000_000)
  ]

  /** `amount > bracket.limit`; nothing exceeds `Infinity`. */
  predicate Exceeds(amount: int, limit: Limit) {
    limit.Finite? && amount > limit.value
  }

  function Rate(b: Bracket): real {
    b.ratePercent as real / 100.0
  }

  /** The `for` loop at script.js:97-108 from a given bracket on, with the
      loop variables `previousLimit` and `tax`: a bracket the amount exceeds
      adds its full width at its rate; the first one it does not exceed adds
      the rest at its rate, subtracts its deduction and ends the loop. */
  function Walk(brackets: seq<Bracket>, amount: int, previousLimit: int, tax: real): real
    decreases |brackets|
  {
    if |brackets| == 0 then tax
    else
      var b := brackets[0];
      if Exceeds(amount, b.limit) then
        Walk(brackets[1..], amount, b.limit.value, tax + (b.limit.value - previousLimit) as real * Rate(b))
      else
        tax + (amount - previousLimit) as real * Rate(b) - b.deduction as real
  }

  /** `calculateGiftTax(taxableAmount)`. */
  function GiftTax(taxableAmount: int): (r: real)
    ensures r >= 0.0
  {
    MaxReal(Walk(TaxBrackets, taxableAmount, 0, 0.0), 0.0)
  }

  // ----- Which bracket ends the walk -----

  /** Index of the first bracket whose limit the amount does not exceed
      (|brackets| when it exceeds them all). */
  function TerminalIndex(brackets: seq<Bracket>, amount: int): (k: nat)
    ensures k <= |brackets|
    ensures forall j :: 0 <= j < k ==> Exceeds(amount, brackets[j].limit)
    ensures k < |brackets| ==> !Exceeds(amount, brackets[k].limit)
  {
    if |brackets| == 0 then 0
    else if Exceeds(amount, brackets[0].limit) then 1 + TerminalIndex(brackets[1..], amount)
    else 0
  }

  /** The one deduction the walk subtracts: that of the terminal bracket. */
  function TerminalDeduction(brackets: seq<Bracket>, amount: int): real {
    var k := TerminalIndex(brackets, amount);
    if k < |brackets| then brackets[k].deduction as real else 0.0
  }

  // ----- Reference: marginal-rate taxation -----

  /** Limits strictly ascending from `lower`, `Infinity` only last. */
  predicate Ascending(brackets: seq<Bracket>, lower: int)
    decreases |brackets|
  {
    |brackets| > 0 ==>
      match brackets[0].limit
      case Unbounded => |brackets| == 1
      case Finite(v) => lower < v && Ascending(brackets[1..], v)
  }

  /** The part of `amount` lying above `lower` and at most `limit`. */
  function Portion(amount: int, lower: int, limit: Limit): (p: int)
    ensures p >= 0
  {
    var top := if limit.Finite? && limit.value < amount then limit.value else amount;
    if top > lower then top - lower else 0
  }

  /** The tax a progressive schedule is meant to levy: each bracket's rate
      applied to the part of the amount inside that bracket, with no
      deduction at all. */
  function MarginalTax(brackets: seq<Bracket>, amount: int, lower: int): real
    decreases |brackets|
  {
    if |brackets| == 0 then 0.0
    else
      var b := brackets[0];
      var next := if b.limit.Finite? then b.limit.value else lower;
      Portion(amount, lower, b.limit) as real * Rate(b) + MarginalTax(brackets[1..], amount, next)
  }

  lemma {:induction false} MarginalTaxVanishes(brackets: seq<Bracket>, amount: int, lower: int)
    requires Ascending(brackets, lower) && amount <= lower
    ensures MarginalTax(brackets, amount, lower) == 0.0
    decreases |brackets|
  {
    if |brackets| > 0 {
      var b := brackets[0];
      var next := if b.limit.Finite? then b.limit.value else lower;
      if b.limit.Finite? {
        MarginalTaxVanishes(brackets[1..], amount, next);
      } else {
        assert brackets[1..] == [];
      }
    }
  }

  /** The walk levies the full marginal-rate tax and THEN subtracts the
      terminal bracket's cumulative deduction as well, although the
      cumulative deduction is meant to replace segment-wise accumulation,
      not to be applied on top of it. */
  lemma {:induction false} WalkDoubleCountsDeduction(brackets: seq<Bracket>, amount: int, lower: int, tax: real)
    requires Ascending(brackets, lower) && lower <= amount
    ensures Walk(brackets, amount, lower, tax)
      == tax + MarginalTax(brackets, amount, lower) - TerminalDeduction(brackets, amount)
    decreases |brackets|
  {
    if |brackets| > 0 {
      if Exceeds(amount, brackets[0].limit) {
        var v := brackets[0].limit.value;
        var step := WalkFullBracket(brackets, amount, lower, tax);
        WalkDoubleCountsDeduction(brackets[1..], amount, v, tax + step);
      } else {
        WalkLastBracket(brackets, amount, lower, tax);
      }
    }
  }

  /** A bracket the amount exceeds: the walk and the reference both add
      the bracket's full width at its rate, and the terminal deduction is
      found further on. */
  lemma WalkFullBracket(brackets: seq<Bracket>, amount: int, lower: int, tax: real) returns (step: real)
    requires |brackets| > 0 && Exceeds(amount, brackets[0].limit)
    requires Ascending(brackets, lower)
    ensures var v, rest := brackets[0].limit.value, brackets[1..];
      && Ascending(rest, v) && v <= amount
      && Walk(brackets, amount, lower, tax) == Walk(rest, amount, v, tax + step)
      && MarginalTax(brackets, amount, lower) == step + MarginalTax(rest, amount, v)
      && TerminalDeduction(brackets, amount) == TerminalDeduction(rest, amount)
  {
    var b, rest := brackets[0], brackets[1..];
    var v := b.limit.value;
    step := (v - lower) as real * Rate(b);
    assert Portion(amount, lower, b.limit) == v - lower;
    assert TerminalIndex(brackets, amount) == 1 + TerminalIndex(rest, amount);
  }

  /** The bracket the amount ends in: the walk adds the rest at its rate
      and subtracts the deduction; nothing lies in later brackets. */
  lemma WalkLastBracket(brackets: seq<Bracket>, amount: int, lower: int, tax: real)
    requires |brackets| > 0 && !Exceeds(amount, brackets[0].limit)
    requires Ascending(brackets, lower) && lower <= amount
    ensures Walk(brackets, amount, lower, tax)
      == tax + MarginalTax(brackets, amount, lower) - TerminalDeduction(brackets, amount)
  {
    var b, rest := brackets[0], brackets[1..];
    var last := (amount - lower) as real * Rate(b);
    var next := if b.limit.Finite? then b.limit.value else lower;
    assert TerminalIndex(brackets, amount) == 0;
    assert MarginalTax(rest, amount, next) == 0.0 by {
      match b.limit
      case Unbounded =>
        assert rest == [];
      case Finite(v) =>
        MarginalTaxVanishes(rest, amount, v);
    }
    assert Portion(amount, lower, b.limit) == amount - lower;
    assert MarginalTax(brackets, amount, lower) == last + MarginalTax(rest, amount, next);
  }

  lemma TaxBracketsAscending()
    ensures Ascending(TaxBrackets, 0)
  {
    var t := TaxBrackets;
    assert t[1..][1..][1..] == [t[3]];
    assert t[1..][1..][1..][1..] == [];
  }

  /** For every non-negative amount, the script's tax is the marginal-rate
      tax minus the terminal bracket's deduction, clamped at 0. */
  lemma GiftTaxIsMarginalMinusDeduction(amount: int)
    requires amount >= 0
    ensures GiftTax(amount) == MaxReal(MarginalTax(TaxBrackets, amount, 0) - TerminalDeduction(TaxBrackets, amount), 0.0)
  {
    TaxBracketsAscending();
    WalkDoubleCountsDeduction(TaxBrackets, amount, 0, 0.0);
  }

  // ----- The script's tax bracket by bracket -----

  /** Closed form of the script's tax in each bracket. An amount equal to a
      bracket's limit stays in that bracket (the test is a strict `>`). */
  lemma GiftTaxByBracket(a: int)
    ensures a <= 0 ==> GiftTax(a) == 0.0
    ensures 0 <= a <= 100_000_000 ==> GiftTax(a) == a as real / 10.0
    ensures 100_000_000 < a <= 500_000_000 ==>
      GiftTax(a) == MaxReal(10_000_000.0 + (a - 100_000_000) as real / 5.0 - 10_000_000.0, 0.0)
    ensures 100_000_000 < a <= 500_000_000 ==> GiftTax(a) == (a - 100_000_000) as real / 5.0
    ensures 500_000_000 < a <= 3_000_000_000 ==> GiftTax(a) == 3.0 * a as real / 10.0 - 130_000_000.0
    ensures 3_000_000_000 < a ==> GiftTax(a) == a as real / 2.0 - 1_130_000_000.0
  {
    if a <= 100_000_000 {
      WalkInFirstBracket(a);
    } else if a <= 500_000_000 {
      WalkInSecondBracket(a);
    } else if a <= 3_000_000_000 {
      WalkInThirdBracket(a);
    } else {
      WalkInLastBracket(a);
    }
  }

  lemma WalkInFirstBracket(a: int)
    requires a <= 100_000_000
    ensures Walk(TaxBrackets, a, 0, 0.0) == a as real / 10.0
  {
    assert TaxBrackets[0] == Bracket(Finite(100_000_000), 10, 0);
  }

  lemma WalkInSecondBracket(a: int)
    requires 100_000_000 < a <= 500_000_000
    ensures Walk(TaxBrackets, a, 0, 0.0) == 10_000_000.0 + (a - 100_000_000) as real / 5.0 - 10_000_000.0
  {
    var t1 := TaxBrackets[1..];
    assert t1[0] == Bracket(Finite(500_000_000), 20, 10_000_000);
    assert Walk(TaxBrackets, a, 0, 0.0) == Walk(t1, a, 100_000_000, 10_000_000.0);
  }

  lemma WalkInThirdBracket(a: int)
    requires 500_000_000 < a <= 3_000_000_000
    ensures Walk(TaxBrackets, a, 0, 0.0) == 3.0 * a as real / 10.0 - 130_000_000.0
  {
    var t1 := TaxBrackets[1..];
    var t2 := t1[1..];
    assert t1[0] == Bracket(Finite(500_000_000), 20, 10_000_000);
    assert t2[0] == Bracket(Finite(3_000_000_000), 30, 70_000_000);
    assert Walk(TaxBrackets, a, 0, 0.0) == Walk(t1, a, 100_000_000, 10_000_000.0);
    assert Walk(t1, a, 100_000_000, 10_000_000.0) == Walk(t2, a, 500_000_000, 90_000_000.0);
  }

  lemma WalkInLastBracket(a: int)
    requires 3_000_000_000 < a
    ensures Walk(TaxBrackets, a, 0, 0.0) == a as real / 2.0 - 1_130_000_000.0
  {
    var t1 := TaxBrackets[1..];
    var t2 := t1[1..];
    var t3 := t2[1..];
    assert t1[0] == Bracket(Finite(500_000_000), 20, 10_000_000);
    assert t2[0] == Bracket(Finite(3_000_000_000), 30, 70_000_000);
    assert t3[0] == Bracket(Unbounded, 50, 470_000_000);
    assert Walk(TaxBrackets, a, 0, 0.0) == Walk(t1, a, 100_000_000, 10_000_000.0);
    assert Walk(t1, a, 100_000_000, 10_000_000.0) == Walk(t2, a, 500_000_000, 90_000_000.0);
    assert Walk(t2, a, 500_000_000, 90_000_000.0) == Walk(t3, a, 3_000_000_000, 840_000_000.0);
  }

  /** One won more than the first limit and the tax falls from 10,000,000
      to 0.2: the script's tax is not monotone. */
  lemma GiftTaxDropsAtFirstLimit()
    ensures GiftTax(100_000_000) == 10_000_000.0
    ensures GiftTax(100_000_001) == 0.2
    ensures exists a, b :: a < b && GiftTax(a) > GiftTax(b)
  {
    GiftTaxByBracket(100_000_000);
    GiftTaxByBracket(100_000_001);
  }

  /** The marginal-rate reference never decreases as the amount grows. */
  lemma {:induction false} MarginalTaxMonotone(brackets: seq<Bracket>, a: int, b: int, lower: int)
    requires a <= b
    ensures MarginalTax(brackets, a, lower) <= MarginalTax(brackets, b, lower)
    decreases |brackets|
  {
    if |brackets| > 0 {
      var br, rest := brackets[0], brackets[1..];
      var next := if br.limit.Finite? then br.limit.value else lower;
      var pa, pb := Portion(a, lower, br.limit) as real, Portion(b, lower, br.limit) as real;
      var rate := Rate(br);
      var ra, rb := MarginalTax(rest, a, next), MarginalTax(rest, b, next);
      assert pa * rate <= pb * rate by {
        assert pa <= pb;
        ScaleMonotone(pa, pb, rate);
      }
      assert ra <= rb by {
        MarginalTaxMonotone(rest, a, b, next);
      }
      assert MarginalTax(brackets, a, lower) == pa * rate + ra;
      assert MarginalTax(brackets, b, lower) == pb * rate + rb;
    }
  }

  lemma ScaleMonotone(x: real, y: real, rate: real)
    requires x <= y && rate >= 0.0
    ensures x * rate <= y * rate
  {
  }
}
