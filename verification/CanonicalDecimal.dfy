/** The canonical text of decimals, and of the values that contain them. */
module CanonicalDecimal {
  import opened Wrappers

  /** A finite decimal: (-1)^negative * coefficient * 10^exponent. */
  datatype Decimal = Decimal(negative: bool, coefficient: nat, exponent: int)

  // ----- digits -----

  function DigitChar(n: nat): (c: char)
    requires n < 10
    ensures '0' <= c <= '9' && c as int - '0' as int == n
  {
    '0' + n as char
  }

  predicate IsDigit(c: char) {
    '0' <= c <= '9'
  }

  function Digits(n: nat): (s: string)
    ensures s != "" && forall i | 0 <= i < |s| :: IsDigit(s[i])
  {
    if n < 10 then [DigitChar(n)] else Digits(n / 10) + [DigitChar(n % 10)]
  }

  /** n without its last k digits */
  function Whole(n: nat, k: nat): nat {
    if k == 0 then n else Whole(n / 10, k - 1)
  }

  /** the last k digits of n, padded with zeros */
  function Fraction(n: nat, k: nat): (s: string)
    ensures |s| == k && forall i | 0 <= i < |s| :: IsDigit(s[i])
  {
    if k == 0 then "" else Fraction(n / 10, k - 1) + [DigitChar(n % 10)]
  }

  /** n * 10^e */
  function Scale(n: int, e: nat): (r: int)
    ensures n >= 0 ==> r >= 0
  {
    if e == 0 then n else 10 * Scale(n, e - 1)
  }

  // ----- the source's formatting -----

  /** format(value, "f"): exactly as many decimals as the exponent says. */
  function Fixed(d: Decimal): string {
    var sign := if d.negative then "-" else "";
    if d.exponent >= 0 then sign + Digits(Scale(d.coefficient, d.exponent))
    else sign + Digits(Whole(d.coefficient, -d.exponent)) + "." + Fraction(d.coefficient, -d.exponent)
  }

  function StripRight(s: string, c: char): string {
    if s != "" && s[|s| - 1] == c then StripRight(s[..|s| - 1], c) else s
  }

  /** The decimal case of _canonical_value. */
  function CanonicalText(d: Decimal): string {
    var text := Fixed(d);
    var stripped := if '.' in text then StripRight(StripRight(text, '0'), '.') else text;
    if stripped == "-0" || stripped == "" then "0" else stripped
  }

  // ----- numerical equality -----

  function Signed(d: Decimal): int {
    if d.negative then 0 - d.coefficient else d.coefficient
  }

  /** The value in units of 10^m. */
  function InUnits(d: Decimal, m: int): int
    requires m <= d.exponent
  {
    Scale(Signed(d), d.exponent - m)
  }

  function Min(a: int, b: int): int {
    if a < b then a else b
  }

  predicate SameValue(a: Decimal, b: Decimal) {
    var m := Min(a.exponent, b.exponent);
    InUnits(a, m) == InUnits(b, m)
  }

  lemma {:induction false} SameInLowerUnits(a: Decimal, b: Decimal, m: int, n: int)
    requires n <= m <= a.exponent && m <= b.exponent
    ensures InUnits(a, m) == InUnits(b, m) <==> InUnits(a, n) == InUnits(b, n)
    decreases m - n
  {
    if n < m { SameInLowerUnits(a, b, m, n + 1); }
  }

  lemma SameValueTransitive(a: Decimal, b: Decimal, c: Decimal)
    requires SameValue(a, b)
    ensures SameValue(b, c) <==> SameValue(a, c)
    ensures SameValue(b, a)
  {
    var m := Min(a.exponent, Min(b.exponent, c.exponent));
    SameInLowerUnits(a, b, Min(a.exponent, b.exponent), m);
    SameInLowerUnits(b, c, Min(b.exponent, c.exponent), m);
    SameInLowerUnits(a, c, Min(a.exponent, c.exponent), m);
  }

  // ----- the normal form -----

  /** A decimal without superfluous zeros: the form that the text spells out. */
  predicate Normal(d: Decimal) {
    && d.exponent <= 0
    && (d.exponent < 0 ==> d.coefficient % 10 != 0)
    && (d.negative ==> d.coefficient != 0)
  }

  function Strip(n: nat, k: nat): (r: (nat, nat))
    ensures r.1 > 0 ==> r.0 % 10 != 0
    ensures n == 0 <==> r.0 == 0
    ensures r.1 <= k
  {
    if k > 0 && n % 10 == 0 then Strip(n / 10, k - 1) else (n, k)
  }

  lemma {:induction false} ScaleKeepsSign(n: int, e: nat)
    ensures n == 0 <==> Scale(n, e) == 0
    ensures n > 0 <==> Scale(n, e) > 0
    ensures Scale(-n, e) == -Scale(n, e)
  {
    if e > 0 { ScaleKeepsSign(n, e - 1); }
  }

  function Normalize(d: Decimal): (r: Decimal)
    ensures Normal(r)
  {
    if d.coefficient == 0 then Decimal(false, 0, 0)
    else if d.exponent >= 0 then
      ScaleKeepsSign(d.coefficient, d.exponent);
      Decimal(d.negative, Scale(d.coefficient, d.exponent), 0)
    else
      var (n, k) := Strip(d.coefficient, -d.exponent);
      Decimal(d.negative, n, 0 - k)
  }

  lemma {:induction false} ScaleAdds(n: int, e: nat, f: nat)
    ensures Scale(Scale(n, e), f) == Scale(n, e + f)
  {
    if f > 0 { ScaleAdds(n, e, f - 1); }
  }

  lemma {:induction false} StripScales(n: nat, k: nat)
    ensures Scale(Strip(n, k).0, k - Strip(n, k).1) == n
  {
    if k > 0 && n % 10 == 0 {
      StripScales(n / 10, k - 1);
      var (r, j) := Strip(n / 10, k - 1);
      assert Scale(r, k - j) == 10 * Scale(r, k - 1 - j);
    }
  }

  lemma NormalizeKeepsValue(d: Decimal)
    ensures SameValue(d, Normalize(d))
  {
    var r := Normalize(d);
    var m := Min(d.exponent, r.exponent);
    if d.coefficient == 0 {
      ScaleKeepsSign(0, d.exponent - m);
      ScaleKeepsSign(0, r.exponent - m);
    } else if d.exponent >= 0 {
      ScaleKeepsSign(d.coefficient, d.exponent);
    } else {
      StripScales(d.coefficient, -d.exponent);
      ScaleKeepsSign(r.coefficient, r.exponent - d.exponent);
    }
  }

  /** Written with more decimals than it needs, a number ends in a zero. */
  lemma MoreDecimalsEndInZero(a: Decimal, b: Decimal)
    requires b.exponent < a.exponent && InUnits(a, b.exponent) == InUnits(b, b.exponent)
    ensures b.coefficient % 10 == 0
  {
    var x := Scale(Signed(a), a.exponent - b.exponent - 1);
    assert Signed(b) == 10 * x;
    assert b.coefficient == 10 * (if x >= 0 then x else 0 - x);
  }

  /** Two normal decimals of the same value are the same decimal. */
  lemma NormalIsUnique(a: Decimal, b: Decimal)
    requires Normal(a) && Normal(b) && SameValue(a, b)
    ensures a == b
  {
    if a.exponent > b.exponent { MoreDecimalsEndInZero(a, b); }
    if b.exponent > a.exponent { MoreDecimalsEndInZero(b, a); }
  }

  // ----- the text is the normal form, spelled out -----

  function Body(n: nat, k: nat): (s: string)
    ensures s != "" && IsDigit(s[0])
  {
    Digits(Whole(n, k)) + (if k > 0 then "." + Fraction(n, k) else "")
  }

  /** What the text of a normal decimal looks like. */
  function Render(d: Decimal): string
    requires Normal(d)
  {
    (if d.negative then "-" else "") + Body(d.coefficient, -d.exponent)
  }

  function Pointed(prefix: string, n: nat, k: nat): string {
    prefix + Digits(Whole(n, k)) + "." + Fraction(n, k)
  }

  /** Stripping zeros and the point walks down to the normal form. */
  lemma {:induction false} StripText(prefix: string, n: nat, k: nat)
    ensures
      var (r, j) := Strip(n, k);
      StripRight(StripRight(Pointed(prefix, n, k), '0'), '.') ==
        prefix + Body(r, j)
    decreases k
  {
    if k == 0 {
      StripPoint(prefix, n);
    } else {
      PointedGrows(prefix, n, k);
      if n % 10 == 0 { StripText(prefix, n / 10, k - 1); }
    }
  }

  /** With no decimals left only the point goes. */
  lemma StripPoint(prefix: string, n: nat)
    ensures StripRight(StripRight(Pointed(prefix, n, 0), '0'), '.') == prefix + Body(n, 0)
  {
    var text, body := Pointed(prefix, n, 0), prefix + Digits(n);
    assert text == body + ".";
    assert text[|text| - 1] == '.' && text[..|text| - 1] == body;
    assert StripRight(text, '0') == text;
    assert IsDigit(body[|body| - 1]);
    assert StripRight(body, '.') == body;
    assert Body(n, 0) == Digits(n);
  }

  /** The last decimal, which goes when it is a zero. */
  lemma PointedGrows(prefix: string, n: nat, k: nat)
    requires k > 0
    ensures
      var text := Pointed(prefix, n, k);
      && (n % 10 == 0 ==> StripRight(text, '0') == StripRight(Pointed(prefix, n / 10, k - 1), '0'))
      && (n % 10 != 0 ==> StripRight(StripRight(text, '0'), '.') == prefix + Body(n, k))
  {
    var text := Pointed(prefix, n, k);
    assert text == Pointed(prefix, n / 10, k - 1) + [DigitChar(n % 10)];
    assert text[..|text| - 1] == Pointed(prefix, n / 10, k - 1);
    if n % 10 != 0 {
      assert StripRight(text, '0') == text && StripRight(text, '.') == text;
      assert text == prefix + Body(n, k);
    }
  }

  lemma {:induction false} WholeOfZero(k: nat)
    ensures Whole(0, k) == 0 && Strip(0, k) == (0, 0)
  {
    if k > 0 { WholeOfZero(k - 1); }
  }

  lemma {:induction false} DigitsOfPositive(n: nat)
    requires n > 0
    ensures Digits(n)[0] != '0'
  {
    if n >= 10 { DigitsOfPositive(n / 10); }
  }

  lemma NoPoint(s: string)
    requires forall i | 0 <= i < |s| :: IsDigit(s[i])
    ensures '.' !in s && '.' !in "-" + s
  {
  }

  lemma IntegerText(d: Decimal)
    requires d.exponent >= 0
    ensures CanonicalText(d) == Render(Normalize(d))
  {
    ScaleKeepsSign(d.coefficient, d.exponent);
    var digits, text := Digits(Scale(d.coefficient, d.exponent)), Fixed(d);
    NoPoint(digits);
    assert text == if d.negative then "-" + digits else digits;
    if d.coefficient == 0 {
      assert digits == "0";
    } else {
      DigitsOfPositive(Scale(d.coefficient, d.exponent));
      assert d.negative ==> text[1] != '0';
      assert digits + "" == digits;
    }
  }

  lemma FractionStripped(d: Decimal, sign: string)
    requires d.exponent < 0 && sign == if d.negative then "-" else ""
    ensures '.' in Fixed(d)
    ensures
      var (n, j) := Strip(d.coefficient, -d.exponent);
      StripRight(StripRight(Fixed(d), '0'), '.') == sign + Body(n, j)
  {
    var k := -d.exponent;
    var text := Fixed(d);
    assert text == Pointed(sign, d.coefficient, k);
    assert text[|sign| + |Digits(Whole(d.coefficient, k))|] == '.';
    StripText(sign, d.coefficient, k);
  }

  lemma FractionText(d: Decimal)
    requires d.exponent < 0
    ensures CanonicalText(d) == Render(Normalize(d))
  {
    var sign := if d.negative then "-" else "";
    FractionStripped(d, sign);
    if d.coefficient == 0 {
      ZeroText(d, sign);
    } else {
      var (n, j) := Strip(d.coefficient, -d.exponent);
      NotZeroText(sign, n, j);
      assert CanonicalText(d) == sign + Body(n, j);
    }
  }

  lemma ZeroText(d: Decimal, sign: string)
    requires d.exponent < 0 && d.coefficient == 0 && sign == if d.negative then "-" else ""
    requires '.' in Fixed(d)
    requires
      var (n, j) := Strip(d.coefficient, -d.exponent);
      StripRight(StripRight(Fixed(d), '0'), '.') == sign + Body(n, j)
    ensures CanonicalText(d) == "0" == Render(Normalize(d))
  {
    WholeOfZero(-d.exponent);
    assert Body(0, 0) == "0";
  }

  /** The source's text is the rendering of the normal form. */
  lemma TextIsRendering(d: Decimal)
    ensures CanonicalText(d) == Render(Normalize(d))
  {
    if d.exponent >= 0 {
      IntegerText(d);
    } else {
      FractionText(d);
    }
  }

  /** A non-zero value is never spelled "-0", "0" or "". */
  lemma NotZeroText(sign: string, n: nat, k: nat)
    requires sign == "" || sign == "-"
    requires n > 0 && (k > 0 ==> n % 10 != 0)
    ensures
      var text := sign + Body(n, k);
      text != "-0" && text != ""
  {
    var text := sign + Body(n, k);
    if k == 0 {
      DigitsOfPositive(n);
      assert text[|sign|] == Digits(n)[0];
    } else {
      assert |text| >= |sign| + 1 + 1 + k;
    }
  }

  // ----- reading the text back -----

  function DigitValue(c: char): (n: nat)
    requires IsDigit(c)
    ensures n < 10 && DigitChar(n) == c
  {
    c as int - '0' as int
  }

  function ParseDigits(s: string): nat
    requires forall i | 0 <= i < |s| :: IsDigit(s[i])
  {
    if s == "" then 0 else ParseDigits(s[..|s| - 1]) * 10 + DigitValue(s[|s| - 1])
  }

  predicate AllDigits(s: string) {
    forall i | 0 <= i < |s| :: IsDigit(s[i])
  }

  function PointIn(s: string): (i: nat)
    ensures i <= |s| && (i < |s| ==> s[i] == '.') && forall k | 0 <= k < i :: s[k] != '.'
  {
    if s == "" || s[0] == '.' then 0 else 1 + PointIn(s[1..])
  }

  /** An unsigned text: digits with at most one point among them. */
  function ParseBody(negative: bool, body: string): Option<Decimal> {
    var point := PointIn(body);
    var digits := if point == |body| then body else body[..point] + body[point + 1..];
    var exponent := if point == |body| then 0 else point + 1 - |body|;
    if digits != "" && AllDigits(digits) then Some(Decimal(negative, ParseDigits(digits), exponent)) else None
  }

  /** Decimal(text), for texts made of an optional sign, digits and an optional point. */
  function Parse(text: string): Option<Decimal> {
    if text != "" && text[0] == '-' then ParseBody(true, text[1..]) else ParseBody(false, text)
  }

  lemma {:induction false} DigitsParse(n: nat)
    ensures ParseDigits(Digits(n)) == n
  {
    if n >= 10 {
      DigitsParse(n / 10);
      assert Digits(n)[..|Digits(n)| - 1] == Digits(n / 10);
    } else {
      assert Digits(n)[..0] == "";
    }
  }

  lemma {:induction false} FractionParses(n: nat, k: nat)
    ensures AllDigits(Digits(Whole(n, k)) + Fraction(n, k))
    ensures ParseDigits(Digits(Whole(n, k)) + Fraction(n, k)) == n
    decreases k
  {
    var text := Digits(Whole(n, k)) + Fraction(n, k);
    if k == 0 {
      assert text == Digits(n);
      DigitsParse(n);
    } else {
      FractionParses(n / 10, k - 1);
      var shorter := Digits(Whole(n / 10, k - 1)) + Fraction(n / 10, k - 1);
      assert text == shorter + [DigitChar(n % 10)];
      assert text[..|text| - 1] == shorter;
    }
  }

  lemma {:induction false} PointAfterDigits(digits: string, rest: string)
    requires AllDigits(digits) && (rest == "" || rest[0] == '.')
    ensures PointIn(digits + rest) == |digits|
  {
    var text := digits + rest;
    if digits != "" {
      assert text[0] == digits[0] && text[1..] == digits[1..] + rest;
      PointAfterDigits(digits[1..], rest);
    } else {
      assert text == rest;
    }
  }

  lemma SplitAtPoint(whole: string, fraction: string, body: string)
    requires body == whole + ("." + fraction)
    ensures |body| == |whole| + 1 + |fraction|
    ensures body[..|whole|] == whole && body[|whole| + 1..] == fraction
  {
    forall i | 0 <= i < |fraction| ensures body[|whole| + 1..][i] == fraction[i] {
      assert body[|whole| + 1 + i] == ("." + fraction)[i + 1];
    }
  }

  /** An unsigned text, read back. */
  lemma BodyParses(n: nat, k: nat, body: string, d: Decimal)
    requires body == Body(n, k) && d.coefficient == n && d.exponent == 0 - k
    ensures ParseBody(d.negative, body) == Some(d)
  {
    var whole := Digits(Whole(n, k));
    FractionParses(n, k);
    if k > 0 {
      PointAfterDigits(whole, "." + Fraction(n, k));
      SplitAtPoint(whole, Fraction(n, k), body);
    } else {
      PointAfterDigits(whole, "");
      assert body == whole && whole + "" == whole && whole + Fraction(n, 0) == whole;
    }
  }

  /** A text with its sign, once its unsigned part is known to parse. */
  lemma SignParses(negative: bool, body: string, text: string, d: Decimal)
    requires body != "" && IsDigit(body[0]) && text == (if negative then "-" else "") + body
    requires ParseBody(negative, body) == Some(d)
    ensures Parse(text) == Some(d)
  {
    if negative {
      assert text[0] == '-' && text[1..] == body;
    } else {
      assert text == body;
    }
  }

  /** The rendering of a normal decimal parses back to it. */
  lemma RenderParses(d: Decimal, text: string)
    requires Normal(d) && text == Render(d)
    ensures Parse(text) == Some(d)
  {
    SignedBodyParses(d, text, Body(d.coefficient, -d.exponent));
  }

  lemma SignedBodyParses(d: Decimal, text: string, body: string)
    requires Normal(d) && body == Body(d.coefficient, -d.exponent) && text == (if d.negative then "-" else "") + body
    ensures Parse(text) == Some(d)
  {
    BodyParses(d.coefficient, -d.exponent, body, d);
    SignParses(d.negative, body, text, d);
  }

  // ----- the promise -----

  /** Exponents, trailing zeros and signed zeros do not show: the text is equal exactly when the number is. */
  lemma SameTextIffSameValue(a: Decimal, b: Decimal)
    ensures CanonicalText(a) == CanonicalText(b) <==> SameValue(a, b)
  {
    var m, n := Normalize(a), Normalize(b);
    TextIsRendering(a);
    TextIsRendering(b);
    NormalizeKeepsValue(a);
    NormalizeKeepsValue(b);
    if CanonicalText(a) == CanonicalText(b) {
      RenderParses(m, CanonicalText(a));
      RenderParses(n, CanonicalText(b));
      assert m == n;
      SameValueTransitive(b, n, a);
      SameValueTransitive(a, m, b);
    }
    if SameValue(a, b) {
      SameValueTransitive(a, m, b);
      SameValueTransitive(a, b, m);
      SameValueTransitive(b, n, m);
      SameValueTransitive(b, m, n);
      NormalIsUnique(m, n);
    }
  }

  /** The text parses back to the number it was made from. */
  lemma TextParsesBack(d: Decimal)
    ensures Parse(CanonicalText(d)).Some? && SameValue(d, Parse(CanonicalText(d)).value)
  {
    TextIsRendering(d);
    RenderParses(Normalize(d), CanonicalText(d));
    NormalizeKeepsValue(d);
  }

  // ----- whole values -----

  datatype Value =
    | Null
    | Flag(b: bool)
    | Text(s: string)
    | Number(n: int)
    | Amount(d: Decimal)
    | List(items: seq<Value>)
    | Dict(entries: map<string, Value>)

  /** What is written to JSON: amounts have become texts. */
  function Canonical(v: Value): Value
    decreases v
  {
    match v
    case Amount(d) => Text(CanonicalText(d))
    case List(items) => List(seq(|items|, i requires 0 <= i < |items| => Canonical(items[i])))
    case Dict(entries) => Dict(map key | key in entries :: Canonical(entries[key]))
    case _ => v
  }

  /** Equal up to the way amounts are written; an amount is never mixed up with a text, except with its own. */
  predicate SameMeaning(a: Value, b: Value)
    decreases a
  {
    match (a, b)
    case (Amount(x), Amount(y)) => SameValue(x, y)
    case (Amount(x), Text(s)) => s == CanonicalText(x)
    case (Text(s), Amount(y)) => s == CanonicalText(y)
    case (List(x), List(y)) => |x| == |y| && forall i | 0 <= i < |x| :: SameMeaning(x[i], y[i])
    case (Dict(x), Dict(y)) => x.Keys == y.Keys && forall key | key in x :: SameMeaning(x[key], y[key])
    case _ => a == b
  }

  /** A stored draft matches a submitted one exactly when they mean the same, whatever padding the amounts carry. */
  lemma {:induction false} MatchesIffSameMeaning(a: Value, b: Value)
    ensures Canonical(a) == Canonical(b) <==> SameMeaning(a, b)
    decreases a
  {
    match (a, b) {
      case (Amount(x), Amount(y)) => SameTextIffSameValue(x, y);
      case (List(x), List(y)) =>
        if |x| == |y| {
          forall i | 0 <= i < |x| ensures Canonical(x[i]) == Canonical(y[i]) <==> SameMeaning(x[i], y[i]) {
            MatchesIffSameMeaning(x[i], y[i]);
          }
          ListsEqual(x, y);
        } else {
          assert |Canonical(a).items| != |Canonical(b).items|;
        }
      case (Dict(x), Dict(y)) =>
        if x.Keys == y.Keys {
          forall key | key in x ensures Canonical(x[key]) == Canonical(y[key]) <==> SameMeaning(x[key], y[key]) {
            MatchesIffSameMeaning(x[key], y[key]);
          }
          DictsEqual(x, y);
        } else {
          assert Canonical(a).entries.Keys == x.Keys && Canonical(b).entries.Keys == y.Keys;
        }
      case _ =>
    }
  }

  lemma ListsEqual(x: seq<Value>, y: seq<Value>)
    requires |x| == |y|
    ensures Canonical(List(x)) == Canonical(List(y)) <==> forall i | 0 <= i < |x| :: Canonical(x[i]) == Canonical(y[i])
  {
    var p, q := Canonical(List(x)).items, Canonical(List(y)).items;
    assert forall i | 0 <= i < |x| :: p[i] == Canonical(x[i]) && q[i] == Canonical(y[i]);
    if forall i | 0 <= i < |x| :: Canonical(x[i]) == Canonical(y[i]) { assert p == q; }
  }

  lemma DictsEqual(x: map<string, Value>, y: map<string, Value>)
    requires x.Keys == y.Keys
    ensures Canonical(Dict(x)) == Canonical(Dict(y)) <==> forall key | key in x :: Canonical(x[key]) == Canonical(y[key])
  {
    var p, q := Canonical(Dict(x)).entries, Canonical(Dict(y)).entries;
    assert forall key | key in x :: p[key] == Canonical(x[key]) && q[key] == Canonical(y[key]);
    if forall key | key in x :: Canonical(x[key]) == Canonical(y[key]) { assert p == q; }
  }
}
