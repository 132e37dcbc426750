/** The strings Python's `float()` accepts, as a recogniser. Only the
    decision "parses / raises ValueError" is modelled; the binary value a
    literal denotes is not. */
module FloatSyntax {
  import opened Text

  /** Python's `str.strip()`, which `float()` applies first. */
  function Strip(s: string): (r: string)
    ensures |r| <= |s|
    ensures |r| > 0 ==> !IsSpace(r[0]) && !IsSpace(r[|r| - 1])
    decreases |s|
  {
    if |s| == 0 then s
    else if IsSpace(s[0]) then Strip(s[1..])
    else if IsSpace(s[|s| - 1]) then Strip(s[..|s| - 1])
    else s
  }

  /** A string whose two ends are not whitespace is its own strip. */
  lemma StripTrimmed(s: string)
    requires |s| > 0 && !IsSpace(s[0]) && !IsSpace(s[|s| - 1])
    ensures Strip(s) == s
  {
  }

  /** One or more decimal digits, optionally grouped by single underscores
      between digits (`1_000`). */
  predicate IsDigitPart(s: string) {
    && |s| > 0
    && IsDigit(s[0]) && IsDigit(s[|s| - 1])
    && (forall i :: 0 <= i < |s| ==> IsDigit(s[i]) || s[i] == '_')
    && (forall i :: 0 <= i < |s| - 1 ==> !(s[i] == '_' && s[i + 1] == '_'))
  }

  /** A run of plain digits is a digit part. */
  lemma DigitsAreDigitPart(s: string)
    requires |s| > 0 && forall i :: 0 <= i < |s| ==> IsDigit(s[i])
    ensures IsDigitPart(s)
  {
  }

  /** Index of the first occurrence of `c`, or `|s|`. */
  function IndexOf(s: string, c: char): (i: nat)
    ensures i <= |s|
    ensures i < |s| ==> s[i] == c
    ensures forall j :: 0 <= j < i ==> s[j] != c
    decreases |s|
  {
    if |s| == 0 then 0
    else if s[0] == c then 0
    else 1 + IndexOf(s[1..], c)
  }

  predicate IsExponentMark(c: char) { c == 'e' || c == 'E' }

  /** Index of the first `e`/`E`, or `|s|`. */
  function ExponentIndex(s: string): (i: nat)
    ensures i <= |s|
    ensures i < |s| ==> IsExponentMark(s[i])
    ensures forall j :: 0 <= j < i ==> !IsExponentMark(s[j])
    decreases |s|
  {
    if |s| == 0 then 0
    else if IsExponentMark(s[0]) then 0
    else 1 + ExponentIndex(s[1..])
  }

  /** Drops one leading `+` or `-`. */
  function Unsigned(s: string): (r: string)
    ensures |r| <= |s|
  {
    if |s| > 0 && (s[0] == '+' || s[0] == '-') then s[1..] else s
  }

  /** `digits`, `digits.`, `digits.digits` or `.digits`. */
  predicate IsMantissa(m: string) {
    var d := IndexOf(m, '.');
    if d == |m| then IsDigitPart(m)
    else
      var before := m[..d];
      var after := m[d + 1..];
      (IsDigitPart(before) && (after == "" || IsDigitPart(after)))
      || (before == "" && IsDigitPart(after))
  }

  /** `inf`, `infinity` and `nan`, in any letter case. */
  predicate IsSpecialValue(s: string) {
    var l := Lower(s);
    l == "inf" || l == "infinity" || l == "nan"
  }

  function Lower(s: string): (r: string)
    ensures |r| == |s|
  {
    seq(|s|, i requires 0 <= i < |s| =>
      if 'A' <= s[i] <= 'Z' then (s[i] as int + 32) as char else s[i])
  }

  /** An unsigned numeral: a mantissa optionally followed by an exponent. */
  predicate IsNumeral(u: string) {
    var e := ExponentIndex(u);
    IsMantissa(u[..e]) && (e == |u| || IsDigitPart(Unsigned(u[e + 1..])))
  }

  /** True exactly when Python's `float(s)` returns instead of raising
      ValueError, for input whose digits are ASCII (`float()` also accepts
      the other Unicode decimal digits). */
  predicate IsFloatLiteral(s: string) {
    var t := Unsigned(Strip(s));
    IsSpecialValue(t) || IsNumeral(t)
  }

  /** The empty string is not a number. */
  lemma EmptyIsNotFloat()
    ensures !IsFloatLiteral("")
  {
    assert Lower("") == "";
  }

  /** `digits` and `digits.digits` are mantissas. */
  lemma DecimalIsMantissa(whole: string, frac: string)
    requires |whole| > 0 && forall i :: 0 <= i < |whole| ==> IsDigit(whole[i])
    requires forall i :: 0 <= i < |frac| ==> IsDigit(frac[i])
    ensures IsMantissa(whole + (if frac == "" then "" else "." + frac))
  {
    var u := whole + (if frac == "" then "" else "." + frac);
    DigitsAreDigitPart(whole);
    if frac == "" {
      assert u == whole;
      assert IndexOf(u, '.') == |u|;
    } else {
      DigitsAreDigitPart(frac);
      assert u[|whole|] == '.';
      assert forall j :: 0 <= j < |whole| ==> u[j] == whole[j];
      assert IndexOf(u, '.') == |whole|;
      assert u[..|whole|] == whole;
      assert u[|whole| + 1..] == frac;
    }
  }

  /** A string of digits and points has no exponent part. */
  lemma NoExponentMark(u: string)
    requires forall i :: 0 <= i < |u| ==> IsDigit(u[i]) || u[i] == '.'
    ensures ExponentIndex(u) == |u|
  {
  }

  /** A numeral without exponent is a numeral when its mantissa is. */
  lemma DecimalIsNumeral(whole: string, frac: string)
    requires |whole| > 0 && forall i :: 0 <= i < |whole| ==> IsDigit(whole[i])
    requires forall i :: 0 <= i < |frac| ==> IsDigit(frac[i])
    ensures IsNumeral(whole + (if frac == "" then "" else "." + frac))
  {
    var u := whole + (if frac == "" then "" else "." + frac);
    NoExponentMark(u);
    assert u[..|u|] == u;
    DecimalIsMantissa(whole, frac);
  }

  /** A sign, digits, and optionally a point followed by digits, always
      parses as a float. */
  lemma SignedDecimalIsFloat(sign: string, whole: string, frac: string)
    requires sign == "" || sign == "+" || sign == "-"
    requires |whole| > 0 && forall i :: 0 <= i < |whole| ==> IsDigit(whole[i])
    requires forall i :: 0 <= i < |frac| ==> IsDigit(frac[i])
    ensures IsFloatLiteral(sign + whole + (if frac == "" then "" else "." + frac))
  {
    var u := whole + (if frac == "" then "" else "." + frac);
    assert sign + whole + (if frac == "" then "" else "." + frac) == sign + u;
    assert IsDigit(u[0]) && IsDigit(u[|u| - 1]);
    DecimalIsNumeral(whole, frac);
    SignedNumeralIsFloat(sign, u);
  }

  /** A run of digits on its own is a float. */
  lemma DigitsAreFloat(whole: string)
    requires |whole| > 0 && forall i :: 0 <= i < |whole| ==> IsDigit(whole[i])
    ensures IsFloatLiteral(whole)
  {
    SignedDecimalIsFloat("", whole, "");
    assert "" + whole + "" == whole;
  }

  /** An optional sign before a numeral that starts and ends with a digit
      survives stripping, and the numeral is what gets parsed. */
  lemma SignedNumeralIsFloat(sign: string, u: string)
    requires sign == "" || sign == "+" || sign == "-"
    requires |u| > 0 && IsDigit(u[0]) && IsDigit(u[|u| - 1])
    requires IsNumeral(u)
    ensures IsFloatLiteral(sign + u)
  {
    var s := sign + u;
    assert s[|s| - 1] == u[|u| - 1];
    assert !IsSpace(s[0]);
    StripTrimmed(s);
    assert Unsigned(s) == u;
  }
}
