/**
 * Python's int() and float() applied to text, and pandas' to_numeric with
 * errors="coerce", restricted to plain decimal literals: an optional sign,
 * decimal digits, and for float() an optional fractional part.
 */
module Decimal {
  import opened Wrappers

  predicate IsDigit(c: char) { '0' <= c <= '9' }

  predicate AllDigits(s: string) { forall i :: 0 <= i < |s| ==> IsDigit(s[i]) }

  function DigitValue(c: char): nat
    requires IsDigit(c)
  {
    c as int - '0' as int
  }

  /** The value of a string of decimal digits, most significant digit first. */
  function DigitsValue(s: string): nat
    requires AllDigits(s)
  {
    if s == [] then 0 else DigitsValue(s[..|s| - 1]) * 10 + DigitValue(s[|s| - 1])
  }

  function Pow10(n: nat): (p: nat)
    ensures p >= 1
  {
    if n == 0 then 1 else 10 * Pow10(n - 1)
  }

  predicate IsSign(c: char) { c == '+' || c == '-' }

  /** The unsigned part of a literal: everything after a leading sign, if any. */
  function Unsigned(s: string): string {
    if |s| > 0 && IsSign(s[0]) then s[1..] else s
  }

  function ApplySign(s: string, x: real): real {
    if |s| > 0 && s[0] == '-' then -x else x
  }

  /** int(s): an optional sign followed by at least one decimal digit. */
  function ParseInt(s: string): (r: Option<int>)
    ensures r.Some? <==> Unsigned(s) != [] && AllDigits(Unsigned(s))
    ensures r.Some? && (|s| == 0 || s[0] != '-') ==> r.value == DigitsValue(Unsigned(s))
    ensures r.Some? && |s| > 0 && s[0] == '-' ==> r.value == -(DigitsValue(Unsigned(s)) as int)
  {
    var u := Unsigned(s);
    if u != [] && AllDigits(u) then
      Some(if |s| > 0 && s[0] == '-' then -(DigitsValue(u) as int) else DigitsValue(u))
    else
      None
  }

  /** The index of the first occurrence of c in s, or |s| when there is none. */
  function FirstIndex(s: string, c: char): (k: nat)
    ensures k <= |s|
    ensures k < |s| ==> s[k] == c
    ensures forall j :: 0 <= j < k ==> s[j] != c
  {
    if s == [] then 0
    else if s[0] == c then 0
    else 1 + FirstIndex(s[1..], c)
  }

  /** The digits before the decimal point of an unsigned literal. */
  function IntegerPart(u: string): string {
    u[..FirstIndex(u, '.')]
  }

  /** The digits after the decimal point of an unsigned literal (empty when there is no point). */
  function FractionPart(u: string): string {
    var k := FirstIndex(u, '.');
    if k < |u| then u[k + 1..] else []
  }

  /** Digits, optionally a point and more digits, with at least one digit in all. */
  predicate IsUnsignedDecimal(u: string) {
    && AllDigits(IntegerPart(u))
    && AllDigits(FractionPart(u))
    && (IntegerPart(u) != [] || FractionPart(u) != [])
  }

  function DecimalValue(intDigits: string, fracDigits: string): real
    requires AllDigits(intDigits) && AllDigits(fracDigits)
  {
    DigitsValue(intDigits) as real + DigitsValue(fracDigits) as real / Pow10(|fracDigits|) as real
  }

  /** float(s) for a plain decimal literal. */
  function ParseDecimal(s: string): (r: Option<real>)
    ensures r.Some? <==> IsUnsignedDecimal(Unsigned(s))
  {
    var u := Unsigned(s);
    if IsUnsignedDecimal(u) then
      Some(ApplySign(s, DecimalValue(IntegerPart(u), FractionPart(u))))
    else
      None
  }

  /** pd.to_numeric(cell, errors="coerce"): a missing cell or an unparsable text is missing. */
  function ToNumeric(cell: Option<string>): (r: Option<real>)
    ensures r.Some? <==> cell.Some? && IsUnsignedDecimal(Unsigned(cell.value))
    ensures r.Some? ==> r.value == ParseDecimal(cell.value).value
  {
    match cell
    case None => None
    case Some(s) => ParseDecimal(s)
  }

  /** The decimal rendering of a natural number, as str() writes it. */
  function ShowNat(n: nat): (s: string)
    ensures s != [] && AllDigits(s)
  {
    if n < 10 then [('0' as int + n) as char]
    else ShowNat(n / 10) + [('0' as int + n % 10) as char]
  }

  /** Reading back the rendering of n gives n. */
  lemma {:induction false} DigitsValueShowNat(n: nat)
    ensures DigitsValue(ShowNat(n)) == n
  {
    if n >= 10 {
      var s := ShowNat(n);
      assert s[..|s| - 1] == ShowNat(n / 10);
      DigitsValueShowNat(n / 10);
    }
  }

  /** int() reads back str() of an integer. */
  lemma ParseIntShowNat(n: nat)
    ensures ParseInt(ShowNat(n)) == Some(n)
    ensures ParseInt("-" + ShowNat(n)) == Some(-(n as int))
  {
    DigitsValueShowNat(n);
    assert Unsigned("-" + ShowNat(n)) == ShowNat(n);
  }

  /** A character that is neither a digit, a sign nor a point makes float() fail. */
  lemma ParseDecimalRejects(s: string, i: nat, c: char)
    requires i < |s| && s[i] == c
    requires !IsDigit(c) && !IsSign(c) && c != '.'
    ensures ParseDecimal(s) == None
  {
    var u := Unsigned(s);
    var j := if |s| > 0 && IsSign(s[0]) then i - 1 else i;
    assert 0 <= j < |u| && u[j] == c;
    var k := FirstIndex(u, '.');
    if j < k {
      assert IntegerPart(u)[j] == c;
    } else if j > k {
      assert FractionPart(u)[j - k - 1] == c;
    }
  }

  /** Reading a literal "a.b" built from two digit strings. */
  lemma ParseDecimalOfParts(a: string, b: string)
    requires AllDigits(a) && AllDigits(b) && a != []
    ensures ParseDecimal(a + "." + b) == Some(DecimalValue(a, b))
  {
    var s := a + "." + b;
    assert Unsigned(s) == s;
    FirstIndexAfterDigits(a, b);
    assert IntegerPart(s) == a;
    assert FractionPart(s) == b;
  }

  lemma FirstIndexAfterDigits(a: string, b: string)
    requires AllDigits(a)
    ensures FirstIndex(a + "." + b, '.') == |a|
  {
    var s := a + "." + b;
    assert s[|a|] == '.';
    assert forall j :: 0 <= j < |a| ==> s[j] == a[j];
  }

  /** Reading a literal made only of digits. */
  lemma ParseDecimalOfDigits(a: string)
    requires AllDigits(a) && a != []
    ensures ParseDecimal(a) == Some(DigitsValue(a) as real)
  {
    assert Unsigned(a) == a by {
      assert IsDigit(a[0]);
    }
    NoPointInDigits(a);
    assert IntegerPart(a) == a;
    assert FractionPart(a) == [];
  }

  lemma NoPointInDigits(a: string)
    requires AllDigits(a)
    ensures FirstIndex(a, '.') == |a|
  {
    var k := FirstIndex(a, '.');
    assert k < |a| ==> IsDigit(a[k]);
  }
}
