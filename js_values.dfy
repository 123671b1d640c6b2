/**
  The JavaScript values a decoded spreadsheet grid holds, and the built-in
  coercions the survey engine applies to them: `Number(v)`, `String(v)`,
  truthiness, `String.prototype.trim`, `String.prototype.toLowerCase` and
  `Math.round`.
*/
module JsValues {
  import opened Wrappers

  /** One cell of the grid: a number, a string, or nothing (`undefined`, or
      a hole past the end of a short row). A `null` cell would read as
      `Empty` too: `Number(null)` is 0 rather than `NaN` and `String(null)` is
      "null" rather than "undefined", but either way such a cell clamps to 1,
      never marks the name column and is falsy, so every use agrees. */
  datatype Cell = Num(value: real) | Str(text: string) | Empty

  /** A JavaScript number as far as the engine can observe it: `NaN`, a finite
      value, or one of the two infinities. */
  datatype JsNumber = NaN | Finite(value: real) | PosInfinity | NegInfinity

  /** The cell at `index` of a row; reading past the end gives `undefined`. */
  function CellAt(row: seq<Cell>, index: nat): Cell
  {
    if index < |row| then row[index] else Empty
  }

  // ---------------------------------------------------------------------
  // Characters and strings

  /** The characters `trim` removes: ECMAScript WhiteSpace and LineTerminator. */
  predicate IsWhiteSpace(c: char) {
    || ('\t' <= c <= '\r')          // tab, line feed, vertical tab, form feed, carriage return
    || c == ' ' || c == '\U{00A0}' || c == '\U{1680}'
    || ('\U{2000}' <= c <= '\U{200A}')
    || c == '\U{2028}' || c == '\U{2029}' || c == '\U{202F}' || c == '\U{205F}'
    || c == '\U{3000}' || c == '\U{FEFF}'
  }

  /** `s` with its leading white space removed. */
  function TrimStart(s: string): (r: string)
    ensures |r| <= |s| && r == s[|s| - |r|..]
    ensures r == [] || !IsWhiteSpace(r[0])
    ensures forall k :: 0 <= k < |s| - |r| ==> IsWhiteSpace(s[k])
  {
    if s != [] && IsWhiteSpace(s[0]) then TrimStart(s[1..]) else s
  }

  /** `s` with its trailing white space removed. */
  function TrimEnd(s: string): (r: string)
    ensures |r| <= |s| && r == s[..|r|]
    ensures r == [] || !IsWhiteSpace(r[|r| - 1])
    ensures forall k :: |r| <= k < |s| ==> IsWhiteSpace(s[k])
  {
    if s != [] && IsWhiteSpace(s[|s| - 1]) then TrimEnd(s[..|s| - 1]) else s
  }

  /** `s.trim()`: the infix of `s` left by removing leading and trailing
      white space, and nothing else. */
  function Trim(s: string): (r: string)
    ensures r == [] || (!IsWhiteSpace(r[0]) && !IsWhiteSpace(r[|r| - 1]))
    ensures r == [] <==> forall k :: 0 <= k < |s| ==> IsWhiteSpace(s[k])
    ensures TrimmedAt(s, r, |s| - |TrimStart(s)|)
  {
    TrimParts(s);
    TrimEnd(TrimStart(s))
  }

  /** `r` sits in `s` at offset `i` with only white space around it. */
  predicate TrimmedAt(s: string, r: string, i: int) {
    && 0 <= i <= |s| - |r| && r == s[i..i + |r|]
    && (forall k :: 0 <= k < i ==> IsWhiteSpace(s[k]))
    && (forall k :: i + |r| <= k < |s| ==> IsWhiteSpace(s[k]))
  }

  lemma TrimParts(s: string)
    ensures TrimmedAt(s, TrimEnd(TrimStart(s)), |s| - |TrimStart(s)|)
    ensures TrimEnd(TrimStart(s)) == [] <==> forall k :: 0 <= k < |s| ==> IsWhiteSpace(s[k])
  {
    var t := TrimStart(s);
    var i := |s| - |t|;
    var r := TrimEnd(t);
    TailWhiteSpace(s, t, r);
    InfixOfSuffix(s, i, |r|);
    assert r == s[i..i + |r|];
    assert forall k :: 0 <= k < i ==> IsWhiteSpace(s[k]);
    assert TrimmedAt(s, r, i);
    TrimBlank(s, t, r);
  }

  /** A prefix of a suffix is an infix. */
  lemma InfixOfSuffix(s: string, i: nat, n: nat)
    requires i + n <= |s|
    ensures s[i..][..n] == s[i..i + n]
  {
  }

  /** Trimming leaves nothing exactly when every character is white space. */
  lemma TrimBlank(s: string, t: string, r: string)
    requires t == TrimStart(s) && r == TrimEnd(t)
    ensures r == [] <==> forall k :: 0 <= k < |s| ==> IsWhiteSpace(s[k])
  {
    if r != [] {
      assert r[0] == t[0] == s[|s| - |t|];
    } else {
      assert t == [];
    }
  }

  /** White space after `r` in the suffix `t` of `s` is white space in `s`. */
  lemma TailWhiteSpace(s: string, t: string, r: string)
    requires |t| <= |s| && t == s[|s| - |t|..]
    requires |r| <= |t| && r == t[..|r|]
    requires forall k :: |r| <= k < |t| ==> IsWhiteSpace(t[k])
    ensures forall k :: |s| - |t| + |r| <= k < |s| ==> IsWhiteSpace(s[k])
  {
    var i := |s| - |t|;
    forall k | i + |r| <= k < |s| ensures IsWhiteSpace(s[k]) {
      assert s[k] == t[k - i];
    }
  }

  /** A string that neither starts nor ends with white space is its own trim. */
  lemma TrimUnchanged(s: string)
    requires s == [] || (!IsWhiteSpace(s[0]) && !IsWhiteSpace(s[|s| - 1]))
    ensures Trim(s) == s
  {
  }

  /** The lower-case form of one character, for the ASCII letters only. */
  function LowerChar(c: char): (r: char)
    ensures 'A' <= c <= 'Z' ==> 'a' <= r <= 'z' && r as int == c as int + 32
    ensures !('A' <= c <= 'Z') ==> r == c
  {
    if 'A' <= c <= 'Z' then (c as int + 32) as char else c
  }

  /** `s.toLowerCase()`, character by character. */
  function ToLower(s: string): (r: string)
    ensures |r| == |s|
    ensures forall k :: 0 <= k < |s| ==> r[k] == LowerChar(s[k])
  {
    if s == [] then [] else [LowerChar(s[0])] + ToLower(s[1..])
  }

  // ---------------------------------------------------------------------
  // Decimal digits

  predicate IsDigit(c: char) {
    '0' <= c <= '9'
  }

  predicate AllDigits(s: string) {
    forall k :: 0 <= k < |s| ==> IsDigit(s[k])
  }

  function DigitChar(d: nat): (c: char)
    requires d < 10
    ensures IsDigit(c) && c as int - '0' as int == d
  {
    ('0' as int + d) as char
  }

  function DigitValue(c: char): (d: nat)
    requires IsDigit(c)
    ensures d < 10 && DigitChar(d) == c
  {
    c as int - '0' as int
  }

  /** The value of a string of decimal digits, most significant first; `""` is 0. */
  function DigitsValue(s: string): (n: nat)
    requires AllDigits(s)
  {
    if s == [] then 0 else DigitsValue(s[..|s| - 1]) * 10 + DigitValue(s[|s| - 1])
  }

  /** The decimal numeral of `n`, without leading zeros. */
  function DigitsText(n: nat): (s: string)
    ensures s != [] && AllDigits(s)
    ensures |s| > 1 ==> s[0] != '0'
  {
    if n < 10 then [DigitChar(n)] else DigitsText(n / 10) + [DigitChar(n % 10)]
  }

  lemma {:induction false} DigitsRoundTrip(n: nat)
    ensures DigitsValue(DigitsText(n)) == n
  {
    if n >= 10 {
      var s := DigitsText(n);
      assert s[..|s| - 1] == DigitsText(n / 10);
      DigitsRoundTrip(n / 10);
    }
  }

  /** `v` times ten to the power `e`: the decimal point moved `e` places. */
  function Shift(v: real, e: int): real
    decreases if e < 0 then -e else e
  {
    if e == 0 then v
    else if e > 0 then 10.0 * Shift(v, e - 1)
    else Shift(v, e + 1) / 10.0
  }

  // ---------------------------------------------------------------------
  // String(number)

  /** Up to `count` decimal digits of a fraction `f` in [0, 1), truncated. */
  function FractionDigits(f: real, count: nat): (s: string)
    requires 0.0 <= f < 1.0
    ensures |s| == count && AllDigits(s)
    decreases count
  {
    if count == 0 then []
    else
      var d := (f * 10.0).Floor;
      [DigitChar(d)] + FractionDigits(f * 10.0 - d as real, count - 1)
  }

  /** `s` without its trailing zeros. */
  function DropTrailingZeros(s: string): (r: string)
    ensures |r| <= |s| && r == s[..|r|]
    ensures r == [] || r[|r| - 1] != '0'
  {
    if s != [] && s[|s| - 1] == '0' then DropTrailingZeros(s[..|s| - 1]) else s
  }

  lemma {:induction false} ZeroFraction(count: nat)
    ensures DropTrailingZeros(FractionDigits(0.0, count)) == []
  {
    if count > 0 {
      ZeroFraction(count - 1);
      var z := FractionDigits(0.0, count);
      assert z == FractionDigits(0.0, count - 1) + ['0'] by {
        ZerosCommute(count - 1);
      }
      assert z[..|z| - 1] == FractionDigits(0.0, count - 1);
    }
  }

  lemma {:induction false} ZerosCommute(count: nat)
    ensures FractionDigits(0.0, count + 1) == FractionDigits(0.0, count) + ['0']
  {
    if count > 0 {
      ZerosCommute(count - 1);
    }
  }

  /** The numeral of a non-negative number: its integer part, then the digits
      of its fraction (at most sixteen, truncated) after a point. */
  function UnsignedText(x: real): (s: string)
    requires x >= 0.0
    ensures s != [] && IsDigit(s[0]) && IsDigit(s[|s| - 1])
    ensures x == x.Floor as real ==> s == DigitsText(x.Floor)
  {
    var n := x.Floor;
    var fraction := DropTrailingZeros(FractionDigits(x - n as real, 16));
    assert x == n as real ==> fraction == [] by {
      if x == n as real { ZeroFraction(16); }
    }
    if fraction == [] then DigitsText(n) else DigitsText(n) + "." + fraction
  }

  lemma NumeralNotWhiteSpace(c: char)
    requires IsDigit(c) || c == '-'
    ensures !IsWhiteSpace(c)
  {
  }

  /** `String(x)` for a finite number `x`. */
  function NumberText(x: real): (s: string)
    ensures s != [] && !IsWhiteSpace(s[0]) && !IsWhiteSpace(s[|s| - 1])
    ensures x < 0.0 <==> s[0] == '-'
    ensures IsDigit(s[|s| - 1])
  {
    var s := if x < 0.0 then "-" + UnsignedText(-x) else UnsignedText(x);
    NumeralNotWhiteSpace(s[0]);
    NumeralNotWhiteSpace(s[|s| - 1]);
    s
  }

  // ---------------------------------------------------------------------
  // Number(string)

  /** The index of the first `e` or `E` in `s`, or `|s|` when there is none. */
  function ExponentMark(s: string): (k: nat)
    ensures k <= |s|
    ensures k < |s| ==> s[k] == 'e' || s[k] == 'E'
    ensures forall j :: 0 <= j < k ==> s[j] != 'e' && s[j] != 'E'
  {
    if s == [] then 0
    else if s[0] == 'e' || s[0] == 'E' then 0
    else 1 + ExponentMark(s[1..])
  }

  /** The index of the first `.` in `s`, or `|s|` when there is none. */
  function PointMark(s: string): (k: nat)
    ensures k <= |s|
    ensures k < |s| ==> s[k] == '.'
    ensures forall j :: 0 <= j < k ==> s[j] != '.'
  {
    if s == [] then 0
    else if s[0] == '.' then 0
    else 1 + PointMark(s[1..])
  }

  /** The value of `digits [. digits]`, where at least one digit is present. */
  function MantissaValue(m: string): (v: Option<real>)
    ensures AllDigits(m) && m != [] ==> v == Some(DigitsValue(m) as real)
  {
    var p := PointMark(m);
    assert AllDigits(m) ==> p == |m|;
    var whole := m[..p];
    var fraction := if p < |m| then m[p + 1..] else [];
    assert AllDigits(m) ==> whole == m && fraction == [] && DigitsValue(fraction) == 0;
    if whole == [] && fraction == [] then None
    else if !AllDigits(whole) || !AllDigits(fraction) then None
    else Some(DigitsValue(whole) as real + Shift(DigitsValue(fraction) as real, -|fraction|))
  }

  /** The value of an exponent `[+|-] digits`. */
  function ExponentValue(e: string): (v: Option<int>)
  {
    var negative := e != [] && e[0] == '-';
    var digits := if e != [] && (e[0] == '-' || e[0] == '+') then e[1..] else e;
    if digits == [] || !AllDigits(digits) then None
    else if negative then Some(0 - DigitsValue(digits))
    else Some(DigitsValue(digits))
  }

  /** The value of an unsigned decimal literal: mantissa, then optionally an
      exponent introduced by `e` or `E`. */
  function DecimalValue(u: string): (v: Option<real>)
    ensures AllDigits(u) && u != [] ==> v == Some(DigitsValue(u) as real)
  {
    var k := ExponentMark(u);
    assert AllDigits(u) ==> k == |u|;
    assert AllDigits(u) ==> u[..k] == u;
    var mantissa := MantissaValue(u[..k]);
    if mantissa.None? then None
    else if k == |u| then mantissa
    else match ExponentValue(u[k + 1..])
      case None => None
      case Some(e) => Some(Shift(mantissa.value, e))
  }

  function UnsignedNumber(u: string): (x: JsNumber)
  {
    if u == "Infinity" then PosInfinity
    else match DecimalValue(u)
      case Some(v) => Finite(v)
      case None => NaN
  }

  function Negate(x: JsNumber): (y: JsNumber)
  {
    match x
    case NaN => NaN
    case Finite(v) => Finite(-v)
    case PosInfinity => NegInfinity
    case NegInfinity => PosInfinity
  }

  /** `Number(s)` for a string: white space around the literal is ignored, the
      empty string is 0, and text that is not a decimal literal is `NaN`. */
  function StringToNumber(s: string): (x: JsNumber)
    ensures (forall k :: 0 <= k < |s| ==> IsWhiteSpace(s[k])) ==> x == Finite(0.0)
  {
    var t := Trim(s);
    if t == [] then Finite(0.0)
    else if t[0] == '-' then Negate(UnsignedNumber(t[1..]))
    else if t[0] == '+' then UnsignedNumber(t[1..])
    else UnsignedNumber(t)
  }

  /** `Number(v)` for a cell; `undefined` is `NaN`. */
  function ToNumber(c: Cell): JsNumber
  {
    match c
    case Num(v) => Finite(v)
    case Str(s) => StringToNumber(s)
    case Empty => NaN
  }

  /** `String(v)` for a cell. */
  function ToText(c: Cell): string
  {
    match c
    case Num(v) => NumberText(v)
    case Str(s) => s
    case Empty => "undefined"
  }

  /** The cells `||` treats as false: `undefined`, `""` and `0`. */
  predicate IsFalsy(c: Cell) {
    c == Empty || c == Str("") || c == Num(0.0)
  }

  /** `Math.round(x)`: the nearest integer, halves rounded up. */
  function Round(x: real): (n: int)
    ensures n as real - 0.5 <= x < n as real + 0.5
  {
    (x + 0.5).Floor
  }

  /** The numeral of a natural number reads back as that number. */
  lemma DigitsNumber(n: nat)
    ensures UnsignedNumber(DigitsText(n)) == Finite(n as real)
  {
    var digits := DigitsText(n);
    DigitsRoundTrip(n);
    assert digits != "Infinity" by { assert IsDigit(digits[0]); }
  }

  /** A trimmed string that starts with a digit is read as unsigned. */
  lemma UnsignedReading(s: string)
    requires Trim(s) == s && s != [] && IsDigit(s[0])
    ensures StringToNumber(s) == UnsignedNumber(s)
  {
  }

  /** A trimmed string that starts with `-` is read as the negation of the rest. */
  lemma NegativeReading(s: string)
    requires Trim(s) == s && s != [] && s[0] == '-'
    ensures StringToNumber(s) == Negate(UnsignedNumber(s[1..]))
  {
  }

  /** For an integer, `Number(String(x))` gives `x` back. */
  lemma IntegerTextRoundTrip(x: real)
    requires x == x.Floor as real
    ensures StringToNumber(NumberText(x)) == Finite(x)
  {
    if x < 0.0 {
      NegativeIntegerText(x);
    } else {
      var n: nat := x.Floor;
      var s := NumberText(x);
      assert s == DigitsText(n);
      TrimUnchanged(s);
      DigitsNumber(n);
      UnsignedReading(s);
    }
  }

  /** A negative number is written as `-` and its magnitude. */
  lemma NegativeNumberText(x: real)
    requires x < 0.0
    ensures NumberText(x) == "-" + UnsignedText(-x)
  {
  }

  /** Negating a whole number gives a whole number. */
  lemma NegatedWhole(x: real)
    requires x == x.Floor as real && x < 0.0
    ensures -x == (-x).Floor as real && (-x).Floor > 0
  {
    var m := -x.Floor;
    assert -x == m as real;
    assert (m as real).Floor == m;
  }

  /** A negative integer is written as `-` and the numeral of its magnitude. */
  lemma NegativeIntegerNumeral(x: real)
    requires x == x.Floor as real && x < 0.0
    ensures (-x).Floor > 0 && NumberText(x) == "-" + DigitsText((-x).Floor)
  {
    NegatedWhole(x);
    NegativeNumberText(x);
  }

  /** `-` and a numeral read back as the negated number. */
  lemma NegativeDigitsReading(n: nat)
    ensures StringToNumber("-" + DigitsText(n)) == Finite(-(n as real))
  {
    var s := "-" + DigitsText(n);
    assert s[1..] == DigitsText(n);
    DigitsNumber(n);
    TrimUnchanged(s);
    NegativeReading(s);
  }

  lemma NegativeIntegerText(x: real)
    requires x == x.Floor as real && x < 0.0
    ensures StringToNumber(NumberText(x)) == Finite(x)
  {
    NegativeIntegerNumeral(x);
    NegatedWhole(x);
    NegativeDigitsReading((-x).Floor);
  }
}
