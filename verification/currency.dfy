/** Reading amounts typed into the form: `parseCurrency` (script.js:348-350),
    built on JavaScript's `parseInt(text, 10)`, and the comma grouping that
    the input listener writes back into amount fields. */
module Currency {
  import opened Wrappers

  predicate IsDigit(c: char) {
    '0' <= c <= '9'
  }

  predicate AllDigits(s: string) {
    forall i :: 0 <= i < |s| ==> IsDigit(s[i])
  }

  function DigitValue(c: char): (v: nat)
    requires IsDigit(c)
    ensures v <= 9
  {
    (c as int) - ('0' as int)
  }

  function DigitChar(v: nat): (c: char)
    requires v <= 9
    ensures IsDigit(c) && DigitValue(c) == v
  {
    ('0' as int + v) as char
  }

  /** The characters `parseInt` skips before the number: ECMAScript's
      WhiteSpace and LineTerminator characters. */
  predicate IsJsWhitespace(c: char) {
    c == '\t' || c == '\n' || c == '\r' || c == ' '
    || c == '\U{000B}' || c == '\U{000C}' || c == '\U{00A0}' || c == '\U{1680}'
    || ('\U{2000}' <= c <= '\U{200A}')
    || c == '\U{2028}' || c == '\U{2029}' || c == '\U{202F}' || c == '\U{205F}'
    || c == '\U{3000}' || c == '\U{FEFF}'
  }

  /** `value.replace(/,/g, '')` */
  function RemoveCommas(s: string): (r: string)
    ensures |r| <= |s|
    ensures forall i :: 0 <= i < |r| ==> r[i] != ','
    ensures (forall i :: 0 <= i < |s| ==> !IsDigit(s[i])) ==> (forall i :: 0 <= i < |r| ==> !IsDigit(r[i]))
    ensures (forall i :: 0 <= i < |s| ==> IsDigit(s[i]) || s[i] == ',') ==> AllDigits(r)
  {
    if |s| == 0 then []
    else if s[0] == ',' then RemoveCommas(s[1..])
    else [s[0]] + RemoveCommas(s[1..])
  }

  /** The text after the leading white space. */
  function TrimStart(s: string): (r: string)
    ensures |r| <= |s| && r == s[|s| - |r|..]
    ensures |r| > 0 ==> !IsJsWhitespace(r[0])
  {
    if |s| > 0 && IsJsWhitespace(s[0]) then TrimStart(s[1..]) else s
  }

  /** The longest prefix made of decimal digits. */
  function DigitPrefix(s: string): (r: string)
    ensures AllDigits(r)
    ensures |r| <= |s| && r == s[..|r|]
    ensures |r| < |s| ==> !IsDigit(s[|r|])
  {
    if |s| > 0 && IsDigit(s[0]) then
      var r := [s[0]] + DigitPrefix(s[1..]);
      assert s == [s[0]] + s[1..];
      r
    else []
  }

  /** The number a string of decimal digits denotes (0 for no digits). */
  function DecimalValue(ds: string): nat
    requires AllDigits(ds)
  {
    if |ds| == 0 then 0
    else 10 * DecimalValue(ds[..|ds| - 1]) + DigitValue(ds[|ds| - 1])
  }

  /** The text after one optional leading sign. */
  function Unsigned(t: string): string {
    if |t| > 0 && (t[0] == '-' || t[0] == '+') then t[1..] else t
  }

  /** `parseInt(s, 10)`: skip white space, read an optional sign and the
      longest run of digits after it; `None` stands for NaN (no digits). */
  function ParseInt(s: string): (r: Option<int>)
    ensures (forall i :: 0 <= i < |s| ==> !IsDigit(s[i])) ==> r.None?
    ensures r.None? <==> |DigitPrefix(Unsigned(TrimStart(s)))| == 0
  {
    var t := TrimStart(s);
    assert forall i :: 0 <= i < |t| ==> t[i] == s[|s| - |t| + i];
    ParseSigned(t)
  }

  /** The rest of `parseInt` once the white space is gone. */
  function ParseSigned(t: string): (r: Option<int>)
    ensures (forall i :: 0 <= i < |t| ==> !IsDigit(t[i])) ==> r.None?
    ensures r.None? <==> |DigitPrefix(Unsigned(t))| == 0
  {
    var signed := |t| > 0 && (t[0] == '-' || t[0] == '+');
    var u := Unsigned(t);
    var ds := DigitPrefix(u);
    assert |ds| > 0 ==> ds[0] == t[|t| - |u|];
    if |ds| == 0 then None
    else if signed && t[0] == '-' then
      var magnitude: int := DecimalValue(ds);
      Some(-magnitude)
    else Some(DecimalValue(ds))
  }

  /** `parseInt(value.replace(/,/g, ''), 10) || 0`: NaN (and -0) become 0. */
  function ParseCurrency(s: string): (r: int)
    ensures (forall i :: 0 <= i < |s| ==> !IsDigit(s[i])) ==> r == 0
  {
    ParseInt(RemoveCommas(s)).GetOr(0)
  }

  /** `field.value || '0'`: an empty field reads as "0". */
  function FieldOrZero(s: string): (r: string)
    ensures |r| > 0
    ensures |s| > 0 ==> r == s
  {
    if |s| == 0 then "0" else s
  }

  // ----- Properties of parseCurrency -----

  /** Removing commas works piece by piece. */
  lemma {:induction false} RemoveCommasAppend(a: string, b: string)
    ensures RemoveCommas(a + b) == RemoveCommas(a) + RemoveCommas(b)
  {
    if |a| == 0 {
      assert a + b == b;
    } else {
      var ab := a + b;
      assert ab[0] == a[0];
      assert ab[1..] == a[1..] + b;
      RemoveCommasAppend(a[1..], b);
      if a[0] == ',' {
        calc {
          RemoveCommas(ab);
          RemoveCommas(a[1..] + b);
          RemoveCommas(a[1..]) + RemoveCommas(b);
        }
      } else {
        calc {
          RemoveCommas(ab);
          [a[0]] + RemoveCommas(a[1..] + b);
          [a[0]] + (RemoveCommas(a[1..]) + RemoveCommas(b));
          ([a[0]] + RemoveCommas(a[1..])) + RemoveCommas(b);
        }
      }
    }
  }

  lemma {:induction false} DigitPrefixOfDigits(s: string)
    requires AllDigits(s)
    ensures DigitPrefix(s) == s
  {
    if |s| > 0 {
      DigitPrefixOfDigits(s[1..]);
    }
  }

  lemma {:induction false} DigitPrefixStops(p: string, rest: string)
    requires AllDigits(p)
    requires |rest| > 0 && !IsDigit(rest[0])
    ensures DigitPrefix(p + rest) == p
  {
    if |p| > 0 {
      assert (p + rest)[1..] == p[1..] + rest;
      DigitPrefixStops(p[1..], rest);
    }
  }

  lemma TrimStartKeeps(t: string)
    requires |t| > 0 && !IsJsWhitespace(t[0])
    ensures TrimStart(t) == t
  {
  }

  /** parseInt of a non-empty run of digits is its decimal value. */
  lemma ParseIntOfDigits(t: string)
    requires |t| > 0 && AllDigits(t)
    ensures ParseInt(t) == Some(DecimalValue(t))
  {
    assert IsDigit(t[0]);
    TrimStartKeeps(t);
    assert !(t[0] == '-' || t[0] == '+');
    DigitPrefixOfDigits(t);
  }

  /** parseInt of a minus sign and a run of digits is the negated value. */
  lemma ParseIntOfNegativeDigits(u: string, t: string)
    requires |t| > 0 && AllDigits(t)
    requires |u| > 1 && u[0] == '-' && u[1..] == t
    ensures ParseInt(u) == Some(-(DecimalValue(t) as int))
  {
    TrimStartKeeps(u);
    DigitPrefixOfDigits(t);
  }

  /** parseInt stops at the first character after the digits that is not one. */
  lemma ParseIntStops(p: string, tail: string)
    requires |p| > 0 && AllDigits(p)
    requires |tail| > 0 && !IsDigit(tail[0])
    ensures ParseInt(p + tail) == Some(DecimalValue(p))
  {
    var t := p + tail;
    assert t[0] == p[0] && IsDigit(t[0]);
    TrimStartKeeps(t);
    assert !(t[0] == '-' || t[0] == '+');
    DigitPrefixStops(p, tail);
  }

  lemma ParseIntSkipsWhitespace(c: char, t: string)
    requires IsJsWhitespace(c)
    ensures ParseInt([c] + t) == ParseInt(t)
  {
    assert ([c] + t)[1..] == t;
    assert TrimStart([c] + t) == TrimStart(t);
  }

  lemma {:induction false} RemoveCommasWithoutCommas(s: string)
    requires forall i :: 0 <= i < |s| ==> s[i] != ','
    ensures RemoveCommas(s) == s
  {
    if |s| > 0 {
      RemoveCommasWithoutCommas(s[1..]);
      assert s == [s[0]] + s[1..];
    }
  }

  /** A text made of digits and commas reads as the number its digits spell. */
  lemma ParseCurrencyOfDigits(s: string)
    requires forall i :: 0 <= i < |s| ==> IsDigit(s[i]) || s[i] == ','
    ensures AllDigits(RemoveCommas(s))
    ensures ParseCurrency(s) == DecimalValue(RemoveCommas(s))
  {
    var t := RemoveCommas(s);
    if |t| > 0 {
      ParseIntOfDigits(t);
    }
  }

  /** A leading minus sign negates what follows. */
  lemma ParseCurrencyNegative(s: string)
    requires forall i :: 0 <= i < |s| ==> IsDigit(s[i]) || s[i] == ','
    requires |RemoveCommas(s)| > 0
    ensures AllDigits(RemoveCommas(s))
    ensures ParseCurrency("-" + s) == -(DecimalValue(RemoveCommas(s)) as int)
  {
    var t := RemoveCommas(s);
    RemoveCommasAppend("-", s);
    RemoveCommasWithoutCommas("-");
    assert RemoveCommas("-" + s) == "-" + t;
    ParseIntOfNegativeDigits("-" + t, t);
  }

  /** An optional sign, a run of digits and anything after them that is not
      a digit: `parseInt` reads the digits, negated after a minus sign and
      unchanged after a plus sign or none. */
  lemma ParseIntSigned(sign: string, p: string, tail: string)
    requires sign == "" || sign == "-" || sign == "+"
    requires |p| > 0 && AllDigits(p)
    requires |tail| == 0 || !IsDigit(tail[0])
    ensures ParseInt(sign + p + tail) == Some(if sign == "-" then -(DecimalValue(p) as int) else DecimalValue(p))
  {
    ConcatAssoc(sign, p, tail);
    DigitsThenOther(p, tail);
    SignedParse(sign, p + tail, p);
  }

  lemma ConcatAssoc(a: string, b: string, c: string)
    ensures a + b + c == a + (b + c)
  {
  }

  lemma DigitsThenOther(p: string, tail: string)
    requires |p| > 0 && AllDigits(p)
    requires |tail| == 0 || !IsDigit(tail[0])
    ensures DigitPrefix(p + tail) == p
    ensures (p + tail)[0] == p[0]
  {
    if |tail| == 0 {
      assert p + tail == p;
      DigitPrefixOfDigits(p);
    } else {
      DigitPrefixStops(p, tail);
    }
  }

  lemma SignedParse(sign: string, u: string, p: string)
    requires sign == "" || sign == "-" || sign == "+"
    requires |p| > 0 && AllDigits(p)
    requires DigitPrefix(u) == p
    ensures ParseInt(sign + u) == Some(if sign == "-" then -(DecimalValue(p) as int) else DecimalValue(p))
  {
    var t := sign + u;
    assert |u| > 0 && IsDigit(u[0]);
    SignedStart(sign, u);
    SignedValue(t, p, sign == "-");
  }

  lemma SignedValue(t: string, p: string, negative: bool)
    requires |p| > 0 && AllDigits(p)
    requires DigitPrefix(Unsigned(t)) == p
    requires |t| > 0 && (t[0] == '-' <==> negative)
    ensures ParseSigned(t) == Some(if negative then -(DecimalValue(p) as int) else DecimalValue(p))
  {
  }

  /** Where the sign ends and the digits begin. */
  lemma SignedStart(sign: string, u: string)
    requires sign == "" || sign == "-" || sign == "+"
    requires |u| > 0 && IsDigit(u[0])
    ensures var t := sign + u;
      TrimStart(t) == t && Unsigned(t) == u && (t[0] == '-' <==> sign == "-")
  {
    if sign == "" {
      assert sign + u == u;
      TrimStartKeeps(u);
    } else {
      var c := sign[0];
      assert sign == [c];
      assert c == '-' <==> sign == "-";
      SignCharStart(c, u);
    }
  }

  lemma SignCharStart(c: char, u: string)
    requires c == '-' || c == '+'
    ensures var t := [c] + u;
      TrimStart(t) == t && Unsigned(t) == u && t[0] == c
  {
    var t := [c] + u;
    assert t[0] == c && t[1..] == u;
    TrimStartKeeps(t);
  }

  /** The same for `parseCurrency`: an optional sign, digits grouped by
      commas, and anything after them that starts with neither a digit nor
      a comma ("-1,000원" reads as -1000, "+5" as 5). */
  lemma ParseCurrencySigned(sign: string, p: string, tail: string)
    requires sign == "" || sign == "-" || sign == "+"
    requires forall i :: 0 <= i < |p| ==> IsDigit(p[i]) || p[i] == ','
    requires |RemoveCommas(p)| > 0
    requires |tail| == 0 || (!IsDigit(tail[0]) && tail[0] != ',')
    ensures AllDigits(RemoveCommas(p))
    ensures ParseCurrency(sign + p + tail)
      == if sign == "-" then -(DecimalValue(RemoveCommas(p)) as int) else DecimalValue(RemoveCommas(p))
  {
    var q, rt := RemoveCommas(p), RemoveCommas(tail);
    RemoveCommasSigned(sign, p, tail);
    RemoveCommasOtherStart(tail);
    DigitsThenOther(q, rt);
    SignedParse(sign, q + rt, q);
  }

  lemma RemoveCommasSigned(sign: string, p: string, tail: string)
    requires sign == "" || sign == "-" || sign == "+"
    ensures RemoveCommas(sign + p + tail) == sign + (RemoveCommas(p) + RemoveCommas(tail))
  {
    var q, rt := RemoveCommas(p), RemoveCommas(tail);
    assert RemoveCommas(sign + p + tail) == RemoveCommas(sign + p) + rt by {
      RemoveCommasAppend(sign + p, tail);
    }
    assert RemoveCommas(sign + p) == sign + q by {
      RemoveCommasAppend(sign, p);
      RemoveCommasWithoutCommas(sign);
    }
    ConcatAssoc(sign, q, rt);
  }

  lemma RemoveCommasOtherStart(tail: string)
    requires |tail| == 0 || (!IsDigit(tail[0]) && tail[0] != ',')
    ensures |RemoveCommas(tail)| == 0 || !IsDigit(RemoveCommas(tail)[0])
  {
    if |tail| > 0 {
      assert RemoveCommas(tail) == [tail[0]] + RemoveCommas(tail[1..]);
    }
  }

  /** Reading stops at the first character that is neither a digit nor a
      comma; whatever follows is ignored ("1,000원" reads as 1000). */
  lemma ParseCurrencyStopsAtOther(p: string, c: char, rest: string)
    requires forall i :: 0 <= i < |p| ==> IsDigit(p[i]) || p[i] == ','
    requires |RemoveCommas(p)| > 0
    requires !IsDigit(c) && c != ','
    ensures AllDigits(RemoveCommas(p))
    ensures ParseCurrency(p + [c] + rest) == DecimalValue(RemoveCommas(p))
  {
    var tail := [c] + RemoveCommas(rest);
    RemoveCommasStops(p, c, rest);
    ParseIntStops(RemoveCommas(p), tail);
  }

  lemma RemoveCommasStops(p: string, c: char, rest: string)
    requires c != ','
    ensures RemoveCommas(p + [c] + rest) == RemoveCommas(p) + ([c] + RemoveCommas(rest))
  {
    var tail := [c] + rest;
    assert p + [c] + rest == p + tail;
    assert RemoveCommas(p + tail) == RemoveCommas(p) + RemoveCommas(tail) by {
      RemoveCommasAppend(p, tail);
    }
    assert RemoveCommas(tail) == [c] + RemoveCommas(rest) by {
      assert tail[0] == c && tail[1..] == rest;
    }
  }

  /** Every character other than a comma is kept, as often as it occurs;
      with `RemoveCommasAppend` and `RemoveCommasOneChar` this fixes the
      result, order included. */
  lemma {:induction false} RemoveCommasKeepsOthers(s: string)
    ensures forall c :: c != ',' ==> multiset(RemoveCommas(s))[c] == multiset(s)[c]
  {
    if |s| > 0 {
      assert s == [s[0]] + s[1..];
      RemoveCommasKeepsOthers(s[1..]);
    }
  }

  /** A comma vanishes; any other character is kept. */
  lemma RemoveCommasOneChar(c: char)
    ensures RemoveCommas([c]) == if c == ',' then [] else [c]
  {
    assert [c][1..] == [];
  }

  /** Once the commas are gone, a text with no digit right after its white
      space and optional sign is NaN to `parseInt`, so `parseCurrency`
      reads it as 0. */
  lemma ParseCurrencyNotANumber(s: string)
    requires |DigitPrefix(Unsigned(TrimStart(RemoveCommas(s))))| == 0
    ensures ParseInt(RemoveCommas(s)).None?
    ensures ParseCurrency(s) == 0
  {
  }

  /** A text that starts with neither white space, a sign nor a digit is not
      a number: `parseInt` gives NaN ("abc1" as well as "abc"). */
  lemma ParseIntNonNumericStart(c: char, rest: string)
    requires !IsJsWhitespace(c) && !IsDigit(c) && c != '-' && c != '+'
    ensures ParseInt([c] + rest).None?
  {
    var t := [c] + rest;
    assert t[0] == c;
    TrimStartKeeps(t);
    assert Unsigned(t) == t;
  }

  /** A sign not followed by a digit is not a number either ("-x1"). */
  lemma ParseIntSignWithoutDigits(sign: char, c: char, rest: string)
    requires sign == '-' || sign == '+'
    requires !IsDigit(c)
    ensures ParseInt([sign, c] + rest).None?
  {
    var t := [sign, c] + rest;
    assert t[0] == sign;
    TrimStartKeeps(t);
    assert Unsigned(t)[0] == c;
  }

  /** `parseCurrency` of a text whose first character is neither white
      space, a sign, a digit nor a comma is 0 ("abc1" reads as 0). */
  lemma ParseCurrencyNonNumericStart(c: char, rest: string)
    requires !IsJsWhitespace(c) && !IsDigit(c) && c != '-' && c != '+' && c != ','
    ensures ParseCurrency([c] + rest) == 0
  {
    RemoveCommasAppend([c], rest);
    RemoveCommasOneChar(c);
    ParseIntNonNumericStart(c, RemoveCommas(rest));
  }

  /** A realistic field value: digits grouped by commas, then a unit. */
  lemma ParseCurrencyWithUnit()
    ensures ParseCurrency("1,000원") == 1000
  {
    var p := "1,000";
    assert "1,000원" == p + ['원'] + [];
    assert RemoveCommas(p) == "1000" && DecimalValue("1000") == 1000 by {
      OneThousandWithoutComma();
      OneThousandValue();
    }
    assert ParseCurrency(p + ['원'] + []) == DecimalValue(RemoveCommas(p)) by {
      assert forall i :: 0 <= i < |p| ==> IsDigit(p[i]) || p[i] == ',';
      ParseCurrencyStopsAtOther(p, '원', []);
    }
  }

  lemma OneThousandWithoutComma()
    ensures RemoveCommas("1,000") == "1000"
  {
    assert "1,000" == "1" + ",000";
    assert RemoveCommas("1") == "1" by {
      RemoveCommasOneChar('1');
    }
    assert RemoveCommas(",000") == "000" by {
      assert ",000"[1..] == "000";
      RemoveCommasWithoutCommas("000");
    }
    RemoveCommasAppend("1", ",000");
  }

  lemma OneThousandValue()
    ensures DecimalValue("1000") == 1000
  {
    assert "1000" == "1" + "000";
    assert DecimalValue("000") == 0 by {
      ThreeDigits('0', '0', '0');
      assert "000" == ['0', '0', '0'];
    }
    assert DecimalValue("1") == 1 by {
      assert "1"[..0] == [];
    }
    assert Pow10(3) == 1000;
    DecimalValueAppend("1", "000");
  }

  /** Leading white space is skipped. */
  lemma ParseCurrencySkipsWhitespace(c: char, s: string)
    requires IsJsWhitespace(c)
    ensures ParseCurrency([c] + s) == ParseCurrency(s)
  {
    RemoveCommasAppend([c], s);
    RemoveCommasWithoutCommas([c]);
    ParseIntSkipsWhitespace(c, RemoveCommas(s));
  }

  // ----- Comma grouping, the inverse of parseCurrency -----

  function Pow10(n: nat): (p: nat)
    ensures p >= 1
  {
    if n == 0 then 1 else 10 * Pow10(n - 1)
  }

  /** Digits appended on the right shift the value left. */
  lemma {:induction false} DecimalValueAppend(a: string, b: string)
    requires AllDigits(a) && AllDigits(b)
    ensures AllDigits(a + b)
    ensures DecimalValue(a + b) == DecimalValue(a) * Pow10(|b|) + DecimalValue(b)
    decreases |b|
  {
    assert AllDigits(a + b) by {
      forall i | 0 <= i < |a + b|
        ensures IsDigit((a + b)[i])
      {
        if i < |a| {
          assert (a + b)[i] == a[i];
        } else {
          assert (a + b)[i] == b[i - |a|];
        }
      }
    }
    if |b| == 0 {
      assert a + b == a;
    } else {
      var b', d := b[..|b| - 1], DigitValue(b[|b| - 1]);
      var x, p, y := DecimalValue(a), Pow10(|b'|), DecimalValue(b');
      assert AllDigits(a + b') && DecimalValue(a + b') == x * p + y by {
        DecimalValueAppend(a, b');
      }
      assert DecimalValue(a + b) == 10 * DecimalValue(a + b') + d by {
        assert (a + b)[..|a + b| - 1] == a + b';
        assert (a + b)[|a + b| - 1] == b[|b| - 1];
      }
      assert DecimalValue(b) == 10 * y + d by {
        assert b[..|b| - 1] == b';
      }
      assert Pow10(|b|) == 10 * p;
      ShiftDigit(x, p, y, d);
    }
  }

  lemma ShiftDigit(x: int, p: int, y: int, d: int)
    ensures 10 * (x * p + y) + d == x * (10 * p) + (10 * y + d)
  {
  }

  /** The shortest decimal numeral of n. */
  function Numeral(n: nat): (r: string)
    ensures |r| > 0 && AllDigits(r)
    ensures DecimalValue(r) == n
    ensures r[0] == '0' <==> n == 0
    ensures n < 100 ==> |r| <= 2
    ensures n < 1000 ==> |r| <= 3
    decreases n
  {
    if n < 10 then
      var r := [DigitChar(n)];
      assert r[..0] == [];
      r
    else
      var r := Numeral(n / 10) + [DigitChar(n % 10)];
      assert r[..|r| - 1] == Numeral(n / 10);
      assert r[0] == Numeral(n / 10)[0];
      r
  }

  /** The three digits of a group, with leading zeros. */
  function Group3(n: nat): (r: string)
    requires n < 1000
    ensures |r| == 3 && AllDigits(r)
    ensures DecimalValue(r) == n
  {
    var c0, c1, c2 := DigitChar(n / 100), DigitChar(n / 10 % 10), DigitChar(n % 10);
    ThreeDigits(c0, c1, c2);
    SplitThree(n);
    [c0, c1, c2]
  }

  lemma SplitThree(n: nat)
    requires n < 1000
    ensures 100 * (n / 100) + 10 * (n / 10 % 10) + n % 10 == n
  {
    var q := n / 10;
    assert n == 10 * q + n % 10;
    assert q / 10 == n / 100;
    assert q == 10 * (q / 10) + q % 10;
  }

  lemma ThreeDigits(c0: char, c1: char, c2: char)
    requires IsDigit(c0) && IsDigit(c1) && IsDigit(c2)
    ensures AllDigits([c0, c1, c2])
    ensures DecimalValue([c0, c1, c2]) == 100 * DigitValue(c0) + 10 * DigitValue(c1) + DigitValue(c2)
  {
    var one, two, three := [c0], [c0, c1], [c0, c1, c2];
    assert DecimalValue(one) == DigitValue(c0) by {
      assert one[..0] == [];
    }
    assert DecimalValue(two) == 10 * DigitValue(c0) + DigitValue(c1) by {
      assert two[..1] == one;
    }
    assert three[..2] == two;
  }

  /** Digit groups separated by commas: a first group of one to three
      digits, then groups of exactly three digits, each after a comma. */
  predicate Grouped(r: string)
    decreases |r|
  {
    (1 <= |r| <= 3 && AllDigits(r))
    || (|r| > 4 && r[|r| - 4] == ',' && AllDigits(r[|r| - 3..]) && Grouped(r[..|r| - 4]))
  }

  /** n written with a comma between groups of three digits, the way the
      amount fields display it (`toLocaleString` in a comma-grouping locale). */
  function GroupDigits(n: nat): (r: string)
    ensures |r| > 0 && IsDigit(r[0])
    ensures Grouped(r)
    ensures r[0] == '0' <==> n == 0
    ensures forall i :: 0 <= i < |r| ==> IsDigit(r[i]) || r[i] == ','
    ensures AllDigits(RemoveCommas(r)) && DecimalValue(RemoveCommas(r)) == n
    decreases n
  {
    if n < 1000 then
      var r := Numeral(n);
      RemoveCommasWithoutCommas(r);
      r
    else
      var head, tail := GroupDigits(n / 1000), Group3(n % 1000);
      GroupJoin(head, tail);
      GroupedJoin(head, tail);
      head + "," + tail
  }

  /** Joining a grouped numeral and a group of three digits with a comma:
      the commas vanish and the digits shift left by three places. */
  lemma GroupJoin(head: string, tail: string)
    requires |head| > 0 && IsDigit(head[0])
    requires forall i :: 0 <= i < |head| ==> IsDigit(head[i]) || head[i] == ','
    requires AllDigits(RemoveCommas(head))
    requires |tail| == 3 && AllDigits(tail)
    ensures var r := head + "," + tail;
      && |r| > 0 && IsDigit(r[0])
      && (forall i :: 0 <= i < |r| ==> IsDigit(r[i]) || r[i] == ',')
      && AllDigits(RemoveCommas(r))
      && DecimalValue(RemoveCommas(r)) == DecimalValue(RemoveCommas(head)) * 1000 + DecimalValue(tail)
  {
    GroupJoinShape(head, tail);
    var r := head + "," + tail;
    assert RemoveCommas(r) == RemoveCommas(head) + tail by {
      RemoveCommasJoin(head, tail);
    }
    DecimalValueAppend(RemoveCommas(head), tail);
  }

  lemma GroupedJoin(head: string, tail: string)
    requires Grouped(head)
    requires |tail| == 3 && AllDigits(tail)
    ensures Grouped(head + "," + tail)
    ensures |head| > 0 && (head + "," + tail)[0] == head[0]
  {
    var r := head + "," + tail;
    assert |head| > 0;
    assert r[..|r| - 4] == head;
    assert r[|r| - 4] == ',';
    assert r[|r| - 3..] == tail;
  }

  lemma GroupJoinShape(head: string, tail: string)
    requires forall i :: 0 <= i < |head| ==> IsDigit(head[i]) || head[i] == ','
    requires AllDigits(tail)
    ensures var r := head + "," + tail;
      forall i :: 0 <= i < |r| ==> IsDigit(r[i]) || r[i] == ','
  {
  }

  lemma RemoveCommasJoin(head: string, tail: string)
    requires AllDigits(tail)
    ensures RemoveCommas(head + "," + tail) == RemoveCommas(head) + tail
  {
    var h := RemoveCommas(head);
    assert RemoveCommas(head + ",") == h by {
      RemoveCommasAppend(head, ",");
      assert RemoveCommas(",") == [];
      assert h + [] == h;
    }
    assert RemoveCommas(tail) == tail by {
      RemoveCommasWithoutCommas(tail);
    }
    RemoveCommasAppend(head + ",", tail);
  }

  /** `n.toLocaleString()` for an integer in a comma-grouping locale: a
      minus sign for a negative number, then the grouped digits. */
  function LocaleString(n: int): (r: string)
    ensures |r| > 0
    ensures n >= 0 ==> IsDigit(r[0]) && Grouped(r)
    ensures n < 0 ==> r[0] == '-' && Grouped(r[1..]) && r[1] != '0'
  {
    if n < 0 then "-" + GroupDigits(-n) else GroupDigits(n)
  }

  /** Round trip for every integer, negative ones included. */
  lemma ParseCurrencyLocaleRoundTrip(n: int)
    ensures ParseCurrency(LocaleString(n)) == n
  {
    if n < 0 {
      var g := GroupDigits(-n);
      assert LocaleString(n) == "-" + g + "";
      RemoveCommasKeepsLeadingDigit(g);
      ParseCurrencySigned("-", g, "");
    } else {
      ParseCurrencyGroupedRoundTrip(n);
    }
  }

  lemma RemoveCommasKeepsLeadingDigit(s: string)
    requires |s| > 0 && IsDigit(s[0])
    ensures |RemoveCommas(s)| > 0
  {
  }

  /** Round trip: parseCurrency reads back every amount the fields display. */
  lemma ParseCurrencyGroupedRoundTrip(n: nat)
    ensures ParseCurrency(GroupDigits(n)) == n
  {
    ParseCurrencyOfDigits(GroupDigits(n));
  }
}
