// The pt-BR money convention of utils.py: `fmt_currency` renders
// "R$ 1.234,56", `money_input` pre-fills "1.234,56", and `_money_to_float`
// (with the same cleaning as the loader's `Valor` column) reads them back.
module Money {
  import opened Wrappers
  import opened Text
  import opened Seqs

  // ------------------------------------------------------------ rounding

  function Abs(x: real): real { if x < 0.0 then -x else x }

  function Pow10(n: nat): (p: nat)
    ensures p >= 1
  {
    if n == 0 then 1 else 10 * Pow10(n - 1)
  }

  /** Nearest integer to a non-negative real, ties to the even neighbour. */
  function RoundHalfEven(r: real): (n: nat)
    requires r >= 0.0
    ensures n as real - 0.5 <= r <= n as real + 0.5
    ensures r.Floor as real == r ==> n as real == r
  {
    var f := r.Floor;
    var frac := r - f as real;
    if frac < 0.5 then f
    else if frac > 0.5 then f + 1
    else if f % 2 == 0 then f
    else f + 1
  }

  /** The number of cents `f"{x:.2f}"` shows for |x|. */
  function Cents(x: real): nat { RoundHalfEven(Abs(x) * 100.0) }

  /** x has at most two decimal places. */
  predicate IsCentExact(x: real) { (x * 100.0).Floor as real == x * 100.0 }

  /** The value that a two-decimal rendering of x stands for. */
  function RoundedToCents(x: real): real {
    (if x < 0.0 then -1.0 else 1.0) * (Cents(x) as real / 100.0)
  }

  lemma CentExactRounding(x: real)
    requires IsCentExact(x)
    ensures Cents(x) as real == Abs(x) * 100.0
    ensures RoundedToCents(x) == x
  {
    var y := x * 100.0;
    if x < 0.0 {
      assert Abs(x) * 100.0 == -y;
      assert (-y).Floor == -(y.Floor);
    }
  }

  /** Rounding to cents keeps the sign. */
  lemma RoundedSign(x: real)
    ensures x <= 0.0 ==> RoundedToCents(x) <= 0.0
    ensures x >= 0.0 ==> RoundedToCents(x) >= 0.0
  {
  }

  // --------------------------------------------------------- formatting

  function SignText(x: real): string { if x < 0.0 then "-" else "" }

  /** Digits after the first group, each group of three preceded by the separator. */
  function Dotted(ds: string): string
    requires |ds| % 3 == 0
    decreases |ds|
  {
    if ds == [] then [] else ['.'] + ds[..3] + Dotted(ds[3..])
  }

  function HeadLength(n: nat): (h: nat)
    requires n >= 1
    ensures 1 <= h <= 3 && h <= n && (n - h) % 3 == 0
  {
    if n % 3 == 0 then 3 else n % 3
  }

  /** Thousands grouping of a digit string, "1234567" to "1.234.567". */
  function Group(ds: string): string
    requires |ds| >= 1
  {
    var h := HeadLength(|ds|);
    ds[..h] + Dotted(ds[h..])
  }

  /** `f"{x:,.2f}"` with "," and "." swapped: the `money_input` default text. */
  function GroupedNumber(x: real): string {
    var c := Cents(x);
    SignText(x) + (Group(NatStr(c / 100)) + ("," + Pad2(c % 100)))
  }

  /** `fmt_currency` of a number: "R$ " and the grouped pt-BR rendering. */
  function FmtAmount(x: real): string { "R$ " + GroupedNumber(x) }

  /** "[-]<n>.<cc>": the plain two-decimal text of the cent amount `c`. */
  function DecimalText(neg: bool, c: nat): string {
    (if neg then "-" else "") + (NatStr(c / 100) + ("." + Pad2(c % 100)))
  }

  /** `f"{x:.2f}"`: the plain two-decimal rendering written into new rows. */
  function Fixed2(x: real): string { DecimalText(x < 0.0, Cents(x)) }

  /** The values `fmt_currency` is applied to: floats, NaN, or other objects (text). */
  datatype PyValue = Num(x: real) | NaN | Text(s: string)

  /** Python's `float(s)` on text, limited to plain decimals. */
  function PyFloatOfText(s: string): Option<real> { ParseDecimal(Strip(s)) }

  /** `fmt_currency`: numbers are rendered, anything `float` rejects is returned unchanged. */
  function FmtCurrency(v: PyValue): (r: PyValue)
    ensures v.Num? ==> r == Text(FmtAmount(v.x))
    ensures v.Text? && PyFloatOfText(v.s).None? ==> r == v
    ensures r.Text? && r != v ==> StartsWith(r.s, "R$ ")
  {
    match v
    case Num(x) => Text(FmtAmount(x))
    case NaN => Text("R$ nan")
    case Text(s) =>
      match PyFloatOfText(s)
      case Some(x) => Text(FmtAmount(x))
      case None => v
  }

  // ------------------------------------------------------------ parsing

  function ParseUnsigned(s: string): (r: Option<real>)
    ensures r.Some? ==> r.value >= 0.0
  {
    var k := CharIndex(s, '.');
    var ip := s[..k];
    var fp := if k < |s| then s[k + 1..] else [];
    if AllDigits(ip) && AllDigits(fp) && |ip| + |fp| >= 1 then Some(DecimalValue(ip, fp))
    else None
  }

  /** The value of the digits `ip` before the point and `fp` after it. */
  function DecimalValue(ip: string, fp: string): (v: real)
    requires AllDigits(ip) && AllDigits(fp)
    ensures v >= 0.0
  {
    DigitsValue(ip) as real + DigitsValue(fp) as real / Pow10(|fp|) as real
  }

  /**
   * Python's `float(s)` / pandas' `to_numeric` on text made of digits, '.'
   * and '-': an optional leading '-', digits, at most one '.', at least one
   * digit. None stands for the ValueError / the coerced NaN.
   */
  function ParseDecimal(s: string): (r: Option<real>)
    ensures s == [] || s == "-" || s == "." ==> r.None?
    ensures r.Some? && s[0] != '-' ==> r.value >= 0.0
    ensures r.Some? && s[0] == '-' ==> r.value <= 0.0
  {
    if |s| > 0 && s[0] == '-' then
      match ParseUnsigned(s[1..])
      case Some(v) => Some(-v)
      case None => None
    else ParseUnsigned(s)
  }

  predicate IsMoneyChar(c: char) { IsDigit(c) || c == ',' || c == '.' || c == '-' }

  /** A '.' followed by exactly three digits and then a non-digit or the end. */
  predicate ThousandsDotAt(s: string, i: nat)
    requires i < |s|
  {
    s[i] == '.' && i + 4 <= |s| && AllDigits(s[i + 1..i + 4]) && (i + 4 == |s| || !IsDigit(s[i + 4]))
  }

  /** `re.sub(r"\.(?=\d{3}(?:\D|$))", "", s)`. */
  function DropThousandsDots(s: string): (r: string)
    ensures |r| <= |s|
    decreases |s|
  {
    if s == [] then [] else (if ThousandsDotAt(s, 0) then [] else [s[0]]) + DropThousandsDots(s[1..])
  }

  /**
   * The cleaning shared by `_money_to_float` and the loader's `Valor` column:
   * keep digits, ',', '.', '-'; drop thousands dots; ',' becomes '.'.
   */
  function CleanValue(s: string): (r: string)
    ensures forall i :: 0 <= i < |r| ==> IsDigit(r[i]) || r[i] == '.' || r[i] == '-'
  {
    var kept := Keep(s, IsMoneyChar);
    var t := DropThousandsDots(kept);
    DropKeepsMoneyChars(kept);
    ReplaceChar(t, ',', '.')
  }

  lemma {:induction false} DropKeepsMoneyChars(s: string)
    requires forall i :: 0 <= i < |s| ==> IsMoneyChar(s[i])
    ensures forall i :: 0 <= i < |DropThousandsDots(s)| ==> IsMoneyChar(DropThousandsDots(s)[i])
    decreases |s|
  {
    if s != [] {
      DropKeepsMoneyChars(s[1..]);
    }
  }

  /** `_money_to_float`: 0.0 for None, for empty text and for anything unparseable. */
  function MoneyToFloat(s: Option<string>): (r: real)
    ensures s.None? ==> r == 0.0
    ensures s.Some? && CleanValue(s.value) == [] ==> r == 0.0
    ensures s.Some? && ParseDecimal(CleanValue(s.value)).None? ==> r == 0.0
    ensures s.Some? && ParseDecimal(CleanValue(s.value)).Some? ==> r == ParseDecimal(CleanValue(s.value)).value
  {
    match s
    case None => 0.0
    case Some(t) =>
      var c := CleanValue(t);
      if c == [] then 0.0
      else match ParseDecimal(c)
        case Some(v) => v
        case None => 0.0
  }

  // ---------------------------------------------------------- round trips

  lemma {:induction false} DropAfterDotFree(x: string, y: string)
    requires forall i :: 0 <= i < |x| ==> x[i] != '.'
    ensures DropThousandsDots(x + y) == x + DropThousandsDots(y)
    decreases |x|
  {
    if x == [] {
      assert x + y == y;
    } else {
      assert (x + y)[1..] == x[1..] + y;
      DropAfterDotFree(x[1..], y);
    }
  }

  lemma DropAtThousandsDot(s: string)
    requires s != [] && ThousandsDotAt(s, 0)
    ensures DropThousandsDots(s) == DropThousandsDots(s[1..])
  {
  }

  predicate DigitsAndDots(s: string) {
    forall i :: 0 <= i < |s| ==> IsDigit(s[i]) || s[i] == '.'
  }

  /** A dot before three digits and a non-digit (or the end) is dropped, the digits kept. */
  lemma DropDotGroup(d3: string, tail: string)
    requires |d3| == 3 && AllDigits(d3)
    requires tail == [] || !IsDigit(tail[0])
    ensures DropThousandsDots(['.'] + d3 + tail) == d3 + DropThousandsDots(tail)
  {
    var s := ['.'] + d3 + tail;
    assert s[1..4] == d3;
    assert |s| == 4 || s[4] == tail[0];
    assert ThousandsDotAt(s, 0);
    DropAtThousandsDot(s);
    assert s[1..] == d3 + tail;
    DropAfterDotFree(d3, tail);
  }

  lemma {:induction false} DropDotted(ds: string, rest: string)
    requires |ds| % 3 == 0 && AllDigits(ds)
    requires rest == [] || !IsDigit(rest[0])
    ensures DropThousandsDots(Dotted(ds) + rest) == ds + DropThousandsDots(rest)
    decreases |ds|
  {
    if ds == [] {
      assert Dotted(ds) + rest == rest;
    } else {
      var d3 := ds[..3];
      var tail := Dotted(ds[3..]) + rest;
      assert Dotted(ds) + rest == ['.'] + d3 + tail;
      assert tail == [] || !IsDigit(tail[0]) by {
        if ds[3..] != [] { assert tail[0] == '.'; } else { assert tail == rest; }
      }
      DropDotGroup(d3, tail);
      DropDotted(ds[3..], rest);
      var x := DropThousandsDots(rest);
      assert DropThousandsDots(Dotted(ds) + rest) == d3 + (ds[3..] + x);
      ConcatAssoc(d3, ds[3..], x);
      assert d3 + ds[3..] == ds;
    }
  }

  lemma DropGroup(ds: string, rest: string)
    requires |ds| >= 1 && AllDigits(ds)
    requires rest == [] || !IsDigit(rest[0])
    ensures DropThousandsDots(Group(ds) + rest) == ds + DropThousandsDots(rest)
  {
    var h := HeadLength(|ds|);
    var head, more := ds[..h], ds[h..];
    assert Group(ds) == head + Dotted(more);
    assert AllDigits(more) && |more| % 3 == 0;
    assert forall i :: 0 <= i < |head| ==> head[i] != '.';
    assert Group(ds) + rest == head + (Dotted(more) + rest);
    DropAfterDotFree(head, Dotted(more) + rest);
    DropDotted(more, rest);
    var x := DropThousandsDots(rest);
    assert DropThousandsDots(Group(ds) + rest) == head + (more + x);
    ConcatAssoc(head, more, x);
    SplitAt(ds, h);
  }

  lemma {:induction false} DottedChars(ds: string)
    requires |ds| % 3 == 0 && AllDigits(ds)
    ensures DigitsAndDots(Dotted(ds))
    decreases |ds|
  {
    if ds != [] {
      DottedChars(ds[3..]);
      var r := Dotted(ds);
      forall i | 0 <= i < |r| ensures IsDigit(r[i]) || r[i] == '.' {
        if 1 <= i < 4 { assert r[i] == ds[i - 1]; }
        else if i >= 4 { assert r[i] == Dotted(ds[3..])[i - 4]; }
      }
    }
  }

  lemma GroupChars(ds: string)
    requires |ds| >= 1 && AllDigits(ds)
    ensures DigitsAndDots(Group(ds))
  {
    var h := HeadLength(|ds|);
    DottedChars(ds[h..]);
    var r := Group(ds);
    forall i | 0 <= i < |r| ensures IsDigit(r[i]) || r[i] == '.' {
      if i < h { assert r[i] == ds[i]; }
      else { assert r[i] == Dotted(ds[h..])[i - h]; }
    }
  }

  lemma {:induction false} DotIndexAfterDigits(ds: string, rest: string)
    requires AllDigits(ds)
    ensures CharIndex(ds + rest, '.') == |ds| + CharIndex(rest, '.')
    decreases |ds|
  {
    if ds == [] {
      assert ds + rest == rest;
    } else {
      var s := ds + rest;
      assert s[0] == ds[0] && s[0] != '.';
      assert s[1..] == ds[1..] + rest;
      DotIndexAfterDigits(ds[1..], rest);
    }
  }

  /** Reading "<digits>.<digits>" gives the integer part plus the scaled fraction. */
  lemma ParseUnsignedOf(ip: string, fp: string)
    requires AllDigits(ip) && AllDigits(fp) && |ip| >= 1
    ensures ParseUnsigned(ip + ("." + fp)) == Some(DecimalValue(ip, fp))
  {
    var s := ip + ("." + fp);
    DotIndexAfterDigits(ip, "." + fp);
    assert CharIndex("." + fp, '.') == 0;
    var k := CharIndex(s, '.');
    assert k == |ip| < |s|;
    assert s[..k] == ip;
    assert s[k + 1..] == fp;
  }

  /** The plain decimal text reads back as the signed amount c/100. */
  lemma ParseDecimalText(neg: bool, c: nat)
    ensures ParseDecimal(DecimalText(neg, c))
      == Some((if neg then -1.0 else 1.0) * (c as real / 100.0))
  {
    var ip, fp := NatStr(c / 100), Pad2(c % 100);
    var body := ip + ("." + fp);
    DigitsValueOfNatStr(c / 100);
    Pad2Value(c % 100);
    ParseUnsignedOf(ip, fp);
    assert Pow10(2) == 100;
    assert DecimalValue(ip, fp) == (c / 100) as real + (c % 100) as real / 100.0;
    assert (c / 100) as real + (c % 100) as real / 100.0 == c as real / 100.0;
    assert ParseUnsigned(body) == Some(c as real / 100.0);
    if neg {
      assert DecimalText(neg, c) == "-" + body;
      assert ("-" + body)[1..] == body;
    } else {
      assert DecimalText(neg, c) == body;
      assert body[0] == ip[0];
    }
  }

  lemma KeepMoneyChars(s: string)
    requires forall i :: 0 <= i < |s| ==> IsMoneyChar(s[i])
    ensures Keep(s, IsMoneyChar) == s
  {
    KeepAll(s, IsMoneyChar);
  }

  lemma KeepBoth(a: string, b: string, p: char -> bool)
    requires Keep(a, p) == a && Keep(b, p) == b
    ensures Keep(a + b, p) == a + b
  {
    KeepAppend(a, b, p);
  }

  lemma ReplaceCommaAbsent(s: string)
    requires AllDigits(s) || s == "-" || s == []
    ensures ReplaceChar(s, ',', '.') == s
  {
    ReplaceCharAbsent(s, ',', '.');
  }

  /** Cleaning the grouped rendering gives the plain two-decimal text. */
  /** Every character of the grouped rendering is a money character. */
  lemma KeepGrouped(sg: string, ds: string, cc: string)
    requires sg == "" || sg == "-"
    requires |ds| >= 1 && AllDigits(ds) && AllDigits(cc)
    ensures Keep(sg + (Group(ds) + ("," + cc)), IsMoneyChar) == sg + (Group(ds) + ("," + cc))
  {
    var gr, tail := Group(ds), "," + cc;
    GroupChars(ds);
    KeepMoneyChars(sg);
    KeepMoneyChars(gr);
    KeepMoneyChars(tail);
    KeepBoth(gr, tail, IsMoneyChar);
    KeepBoth(sg, gr + tail, IsMoneyChar);
  }

  /** The grouping dots of the rendering are the ones dropped. */
  lemma DropGrouped(sg: string, ds: string, cc: string)
    requires sg == "" || sg == "-"
    requires |ds| >= 1 && AllDigits(ds) && AllDigits(cc)
    ensures DropThousandsDots(sg + (Group(ds) + ("," + cc))) == sg + (ds + ("," + cc))
  {
    var gr, tail := Group(ds), "," + cc;
    DropAfterDotFree(sg, gr + tail);
    DropGroup(ds, tail);
    DropAfterDotFree(tail, []);
    assert tail + [] == tail;
  }

  /** The decimal comma, the only comma, becomes a point. */
  lemma ReplaceGrouped(sg: string, ds: string, cc: string)
    requires sg == "" || sg == "-"
    requires AllDigits(ds) && AllDigits(cc)
    ensures ReplaceChar(sg + (ds + ("," + cc)), ',', '.') == sg + (ds + ("." + cc))
  {
    ReplaceCharAppend(sg, ds + ("," + cc), ',', '.');
    ReplaceCharAppend(ds, "," + cc, ',', '.');
    ReplaceCharAppend(",", cc, ',', '.');
    ReplaceCommaAbsent(sg);
    ReplaceCommaAbsent(ds);
    ReplaceCommaAbsent(cc);
    assert ReplaceChar(",", ',', '.') == ".";
  }

  lemma CleanGroupedNumber(x: real)
    ensures CleanValue(GroupedNumber(x)) == Fixed2(x)
  {
    var c := Cents(x);
    var ds, cc, sg := NatStr(c / 100), Pad2(c % 100), SignText(x);
    assert GroupedNumber(x) == sg + (Group(ds) + ("," + cc));
    KeepGrouped(sg, ds, cc);
    DropGrouped(sg, ds, cc);
    ReplaceGrouped(sg, ds, cc);
  }

  lemma KeepCurrencyPrefix(x: real)
    ensures Keep(FmtAmount(x), IsMoneyChar) == GroupedNumber(x)
  {
    var c := Cents(x);
    var ds, cc, sg := NatStr(c / 100), Pad2(c % 100), SignText(x);
    var gr, tail := Group(ds), "," + cc;
    GroupChars(ds);
    KeepMoneyChars(sg);
    KeepMoneyChars(gr);
    KeepMoneyChars(tail);
    KeepBoth(gr, tail, IsMoneyChar);
    KeepBoth(sg, gr + tail, IsMoneyChar);
    KeepAppend("R$ ", GroupedNumber(x), IsMoneyChar);
    KeepNone("R$ ", IsMoneyChar);
  }

  /** `_money_to_float(fmt_currency(x))` is x rounded to cents. */
  lemma MoneyToFloatOfFmt(x: real)
    ensures MoneyToFloat(Some(FmtAmount(x))) == RoundedToCents(x)
  {
    KeepCurrencyPrefix(x);
    assert CleanValue(FmtAmount(x)) == CleanValue(GroupedNumber(x)) by {
      KeepAll(GroupedNumber(x), IsMoneyChar);
    }
    CleanGroupedNumber(x);
    Fixed2ReadBack(x);
  }

  /** Round trip: `_money_to_float(fmt_currency(x)) == x` for two-decimal x. */
  lemma FmtRoundTrip(x: real)
    requires IsCentExact(x)
    ensures MoneyToFloat(Some(FmtAmount(x))) == x
  {
    MoneyToFloatOfFmt(x);
    CentExactRounding(x);
  }

  /** Round trip of the `money_input` default text. */
  lemma MoneyInputRoundTrip(x: real)
    requires IsCentExact(x)
    ensures MoneyToFloat(Some(GroupedNumber(x))) == x
  {
    CleanGroupedNumber(x);
    Fixed2ReadBack(x);
    CentExactRounding(x);
  }

  /** A canonical "R$" text survives a parse and a re-format unchanged. */
  lemma FmtOfParsedCanonical(x: real)
    requires IsCentExact(x)
    ensures FmtAmount(MoneyToFloat(Some(FmtAmount(x)))) == FmtAmount(x)
  {
    FmtRoundTrip(x);
  }

  /** The cleaning leaves the plain two-decimal text as it is. */
  lemma CleanFixed2(x: real)
    ensures CleanValue(Fixed2(x)) == Fixed2(x)
  {
    var c := Cents(x);
    var ds, cc, sg := NatStr(c / 100), Pad2(c % 100), SignText(x);
    var tail := "." + cc;
    var f := Fixed2(x);
    assert f == sg + (ds + tail);
    KeepMoneyChars(sg);
    KeepMoneyChars(ds);
    KeepMoneyChars(tail);
    KeepBoth(ds, tail, IsMoneyChar);
    KeepBoth(sg, ds + tail, IsMoneyChar);
    DropAfterDotFree(sg, ds + tail);
    DropAfterDotFree(ds, tail);
    assert DropThousandsDots(tail) == ['.'] + DropThousandsDots(cc) by {
      assert !ThousandsDotAt(tail, 0);
      assert tail[1..] == cc;
    }
    DropAfterDotFree(cc, []);
    assert cc + [] == cc;
    assert DropThousandsDots(f) == f;
    ReplaceCharAppend(sg, ds + tail, ',', '.');
    ReplaceCharAppend(ds, tail, ',', '.');
    ReplaceCharAppend(".", cc, ',', '.');
    ReplaceCommaAbsent(sg);
    ReplaceCommaAbsent(ds);
    ReplaceCommaAbsent(cc);
    assert ReplaceChar(".", ',', '.') == ".";
  }

  /** The plain `f"{x:.2f}"` text is read back by the same cleaning as x rounded to cents. */
  lemma Fixed2ReadBack(x: real)
    ensures CleanValue(Fixed2(x)) == Fixed2(x)
    ensures ParseDecimal(CleanValue(Fixed2(x))) == Some(RoundedToCents(x))
  {
    CleanFixed2(x);
    ParseFixed2(x);
  }

  lemma ParseFixed2(x: real)
    ensures ParseDecimal(Fixed2(x)) == Some(RoundedToCents(x))
  {
    var neg, c := x < 0.0, Cents(x);
    ParseDecimalText(neg, c);
    assert Fixed2(x) == DecimalText(neg, c);
    assert RoundedToCents(x) == (if neg then -1.0 else 1.0) * (c as real / 100.0);
  }
}
