/**
 * The slice of ECMAScript value semantics the front end's guard and getters rely on:
 * primitive values, truthiness, `ToNumber` applied to a string (ECMA-262 section
 * 7.1.4.1.1, StringToNumber) and the loose equality `==` / `!=` (section 7.2.14 of ECMA-262,
 * IsLooselyEqual). Numbers are the integers the application exchanges (user ids).
 */
module JsValues {
  import opened Wrappers

  /** A primitive JavaScript value. `Num` holds an integral Number. */
  datatype JsVal = Undefined | Null | Bool(b: bool) | Num(n: int) | Str(s: string)

  /** ToBoolean (section 7.1.2 of ECMA-262), which `!` and `&&` apply. */
  predicate Truthy(v: JsVal) {
    match v
    case Undefined => false
    case Null => false
    case Bool(b) => b
    case Num(n) => n != 0
    case Str(s) => s != ""
  }

  // ---------------------------------------------------------------------------
  // Trimming: WhiteSpace and LineTerminator code points (sections 12.2 and 12.3 of ECMA-262)

  predicate IsJsSpace(c: char) {
    c == '\t' || c == '\n' || c == '\U{B}' || c == '\U{C}' || c == '\r' || c == ' '
    || c == '\U{A0}' || c == '\U{1680}' || '\U{2000}' <= c <= '\U{200A}'
    || c == '\U{2028}' || c == '\U{2029}' || c == '\U{202F}' || c == '\U{205F}'
    || c == '\U{3000}' || c == '\U{FEFF}'
  }

  predicate AllJsSpace(s: string) {
    forall i :: 0 <= i < |s| ==> IsJsSpace(s[i])
  }

  /** Neither end is whitespace. */
  predicate Trimmed(t: string) {
    t == [] || (!IsJsSpace(t[0]) && !IsJsSpace(t[|t| - 1]))
  }

  /** The string with whitespace removed from both ends. */
  function Trim(s: string): (t: string)
    ensures Trimmed(t) && |t| <= |s|
    ensures Trimmed(s) ==> t == s
    ensures AllJsSpace(s) ==> t == []
    decreases |s|
  {
    if s != [] && IsJsSpace(s[0]) then Trim(s[1..])
    else if s != [] && IsJsSpace(s[|s| - 1]) then Trim(s[..|s| - 1])
    else s
  }

  /** Whitespace around a trimmed string is exactly what `Trim` takes away. */
  lemma {:induction false} TrimRemovesPadding(a: string, t: string, b: string)
    requires AllJsSpace(a) && AllJsSpace(b) && Trimmed(t)
    ensures Trim(a + t + b) == t
    decreases |a| + |b|
  {
    var s := a + t + b;
    if a != [] {
      assert s[0] == a[0];
      assert s[1..] == a[1..] + t + b;
      TrimRemovesPadding(a[1..], t, b);
    } else if t != [] {
      assert s == t + b && s[0] == t[0];
      if b != [] {
        assert s[|s| - 1] == b[|b| - 1];
        assert s[..|s| - 1] == a + t + b[..|b| - 1];
        TrimRemovesPadding(a, t, b[..|b| - 1]);
      } else {
        assert s == t;
      }
    } else if b != [] {
      assert s == b && IsJsSpace(s[0]);
      assert s[1..] == a + t + b[1..];
      TrimRemovesPadding(a, t, b[1..]);
    } else {
      assert s == [];
    }
  }

  // ---------------------------------------------------------------------------
  // Digits

  /** The value of a digit character in bases up to 36. */
  function DigitValue(c: char): (d: Option<nat>)
    ensures d.Some? ==> d.value < 36
    ensures '0' <= c <= '9' <==> d.Some? && d.value < 10
  {
    if '0' <= c <= '9' then Some(c as int - '0' as int)
    else if 'a' <= c <= 'z' then Some(c as int - 'a' as int + 10)
    else if 'A' <= c <= 'Z' then Some(c as int - 'A' as int + 10)
    else None
  }

  predicate IsRadixDigit(c: char, radix: nat) {
    DigitValue(c).Some? && DigitValue(c).value < radix
  }

  predicate AllRadixDigits(s: string, radix: nat) {
    forall i :: 0 <= i < |s| ==> IsRadixDigit(s[i], radix)
  }

  /** The value of a digit string in the given base, most significant digit first. */
  function ValueIn(s: string, radix: nat): nat
    requires AllRadixDigits(s, radix)
    decreases |s|
  {
    if s == [] then 0
    else ValueIn(s[..|s| - 1], radix) * radix + DigitValue(s[|s| - 1]).value
  }

  lemma {:induction false} DigitsConcat(x: string, y: string)
    requires AllRadixDigits(x, 10) && AllRadixDigits(y, 10)
    ensures AllRadixDigits(x + y, 10)
  {
    forall i | 0 <= i < |x + y| ensures IsRadixDigit((x + y)[i], 10) {
      if i < |x| { assert (x + y)[i] == x[i]; } else { assert (x + y)[i] == y[i - |x|]; }
    }
  }

  /** The length of the run of decimal digits that starts `s`. */
  function DigitRun(s: string): (k: nat)
    ensures k <= |s| && AllRadixDigits(s[..k], 10)
    ensures k < |s| ==> !IsRadixDigit(s[k], 10)
  {
    if s != [] && IsRadixDigit(s[0], 10) then
      var k := 1 + DigitRun(s[1..]);
      assert s[..k] == [s[0]] + s[1..][..k - 1];
      k
    else 0
  }

  function Pow10(e: nat): (p: nat)
    ensures p >= 1
  {
    if e == 0 then 1 else 10 * Pow10(e - 1)
  }

  /** `m` times ten to the `e`, when that is an integer. */
  function Scaled(m: nat, e: int): (r: Option<int>)
    ensures e >= 0 ==> r == Some(m * Pow10(e))
    ensures e < 0 ==> (r.Some? <==> m % Pow10(-e) == 0)
    ensures r.Some? ==> r.value * (if e < 0 then Pow10(-e) else 1) == m * (if e >= 0 then Pow10(e) else 1)
  {
    if e >= 0 then Some(m * Pow10(e))
    else if m % Pow10(-e) == 0 then Some(m / Pow10(-e))
    else None
  }

  // ---------------------------------------------------------------------------
  // StringToNumber

  /**
   * The exponent of a StrUnsignedDecimalLiteral: nothing (0), or `e`/`E`, an optional
   * sign and at least one digit running to the end. None when the rest is anything else.
   */
  function ExponentPart(r: string): Option<int> {
    if r == [] then Some(0)
    else if r[0] != 'e' && r[0] != 'E' then None
    else
      var neg := |r| > 1 && r[1] == '-';
      var digits := if |r| > 1 && (r[1] == '-' || r[1] == '+') then r[2..] else r[1..];
      if digits != [] && AllRadixDigits(digits, 10) then
        var v: int := ValueIn(digits, 10);
        Some(if neg then -v else v)
      else None
  }

  /**
   * A StrUnsignedDecimalLiteral: digits, an optional '.' with more digits, and an
   * optional exponent, with at least one digit before or after the point. The answer
   * is the integer it denotes, or None for "Infinity", for a value with a fractional
   * part, and for anything that is not such a literal (NaN).
   */
  function UnsignedDecimal(u: string): Option<int> {
    if u == "Infinity" then None
    else
      var a := DigitRun(u);
      AfterIntegerPart(u[..a], u[a..])
  }

  /** The literal once its integer digits are read: an optional fraction comes next. */
  function AfterIntegerPart(intPart: string, r: string): Option<int>
    requires AllRadixDigits(intPart, 10)
  {
    if r != [] && r[0] == '.' then
      var b := DigitRun(r[1..]);
      AfterFraction(intPart, r[1..][..b], r[1..][b..])
    else AfterFraction(intPart, [], r)
  }

  /** The literal once both digit runs are read: at least one digit, then an optional exponent. */
  function AfterFraction(intPart: string, frac: string, r: string): Option<int>
    requires AllRadixDigits(intPart, 10) && AllRadixDigits(frac, 10)
  {
    if |intPart| + |frac| == 0 then None
    else
      match ExponentPart(r)
      case None => None
      case Some(e) =>
        DigitsConcat(intPart, frac);
        Scaled(ValueIn(intPart + frac, 10), e - |frac|)
  }

  /** A StrDecimalLiteral: an optional sign before the unsigned literal. */
  function SignedDecimal(t: string): Option<int> {
    if t != [] && t[0] == '+' then UnsignedDecimal(t[1..])
    else if t != [] && t[0] == '-' then
      (match UnsignedDecimal(t[1..]) case None => None case Some(v) => Some(-v))
    else UnsignedDecimal(t)
  }

  /** A NonDecimalIntegerLiteral body: at least one digit of the base, nothing else. */
  function RadixInteger(u: string, radix: nat): Option<int> {
    if u != [] && AllRadixDigits(u, radix) then Some(ValueIn(u, radix)) else None
  }

  /**
   * StringToNumber, as far as the answer matters for comparing with an integer: the
   * integer the string denotes, or None when the result is NaN, an infinity or has a
   * fractional part. The whitespace-only string is 0.
   */
  function StringToNumber(s: string): (r: Option<int>)
    ensures AllJsSpace(s) ==> r == Some(0)
    ensures s != [] && AllRadixDigits(s, 10) ==> r == Some(ValueIn(s, 10))
  {
    var t := Trim(s);
    assert s != [] && AllRadixDigits(s, 10) ==> t == s && SignedDecimal(s) == Some(ValueIn(s, 10)) by {
      if s != [] && AllRadixDigits(s, 10) {
        assert IsRadixDigit(s[0], 10) && IsRadixDigit(s[|s| - 1], 10);
        SignedDigits(s);
      }
    }
    if t == [] then Some(0)
    else if |t| > 2 && t[0] == '0' && (t[1] == 'x' || t[1] == 'X') then RadixInteger(t[2..], 16)
    else if |t| > 2 && t[0] == '0' && (t[1] == 'o' || t[1] == 'O') then RadixInteger(t[2..], 8)
    else if |t| > 2 && t[0] == '0' && (t[1] == 'b' || t[1] == 'B') then RadixInteger(t[2..], 2)
    else SignedDecimal(t)
  }

  /** ToNumber of a primitive other than undefined and null (section 7.1.4 of ECMA-262). */
  function NumberOf(v: JsVal): Option<int>
    requires !v.Undefined? && !v.Null?
  {
    match v
    case Bool(b) => Some(if b then 1 else 0)
    case Num(n) => Some(n)
    case Str(s) => StringToNumber(s)
  }

  /**
   * `x == y` on primitives: undefined and null equal each other and nothing else; two
   * strings compare as strings; every other pair compares as numbers, and NaN equals
   * nothing.
   */
  predicate LooselyEqual(x: JsVal, y: JsVal)
    ensures x == y ==> LooselyEqual(x, y)
    ensures x.Undefined? || x.Null? ==> (LooselyEqual(x, y) <==> y.Undefined? || y.Null?)
    ensures x.Str? && y.Str? ==> (LooselyEqual(x, y) <==> x == y)
    ensures x.Num? && y.Num? ==> (LooselyEqual(x, y) <==> x == y)
  {
    if x.Undefined? || x.Null? then y.Undefined? || y.Null?
    else if y.Undefined? || y.Null? then false
    else if x.Str? && y.Str? then x.s == y.s
    else NumberOf(x).Some? && NumberOf(x) == NumberOf(y)
  }

  // ---------------------------------------------------------------------------
  // Number::toString for integers (section 6.1.6.1.20 of ECMA-262)

  function DigitChar(d: nat): (c: char)
    requires d < 10
    ensures IsRadixDigit(c, 10) && DigitValue(c) == Some(d)
  {
    ('0' as int + d) as char
  }

  /** The decimal numeral of a natural number, without leading zeros. */
  function Digits(n: nat): (s: string)
    ensures s != [] && AllRadixDigits(s, 10)
  {
    if n < 10 then [DigitChar(n)] else Digits(n / 10) + [DigitChar(n % 10)]
  }

  /** `String(n)` for an integral Number. */
  function Decimal(n: int): (s: string)
    ensures s != [] && IsRadixDigit(s[|s| - 1], 10)
    ensures n >= 0 ==> AllRadixDigits(s, 10)
    ensures n < 0 ==> s[0] == '-' && AllRadixDigits(s[1..], 10)
  {
    if n < 0 then "-" + Digits(-n) else Digits(n)
  }

  // ---------------------------------------------------------------------------
  // Lemmas

  /** Reading a numeral back gives the number it was written from. */
  lemma {:induction false} DigitsValue(n: nat)
    ensures ValueIn(Digits(n), 10) == n
  {
    if n >= 10 {
      var s := Digits(n);
      assert s[..|s| - 1] == Digits(n / 10);
      DigitsValue(n / 10);
    }
  }

  /** An unsigned decimal numeral parses to its value. */
  lemma {:induction false} UnsignedDigits(d: string)
    requires d != [] && AllRadixDigits(d, 10)
    ensures UnsignedDecimal(d) == Some(ValueIn(d, 10))
  {
    NotInfinity(d);
    DigitRunOfDigits(d);
    assert d[..|d|] == d && d[|d|..] == [];
    OnlyIntegerPart(d);
  }

  lemma {:induction false} NotInfinity(d: string)
    requires d != [] && IsRadixDigit(d[0], 10)
    ensures d != "Infinity"
  {
    assert !IsRadixDigit('I', 10);
  }

  lemma {:induction false} DigitRunOfDigits(d: string)
    requires AllRadixDigits(d, 10)
    ensures DigitRun(d) == |d|
  {
  }

  lemma {:induction false} OnlyIntegerPart(d: string)
    requires d != [] && AllRadixDigits(d, 10)
    ensures AfterIntegerPart(d, []) == Some(ValueIn(d, 10))
  {
    assert d + [] == d;
    assert ExponentPart([]) == Some(0);
  }

  /** A trimmed string whose second character is a digit carries no radix prefix. */
  lemma {:induction false} NoRadixPrefix(s: string)
    requires s != [] && Trimmed(s)
    requires |s| > 1 ==> IsRadixDigit(s[1], 10)
    ensures StringToNumber(s) == SignedDecimal(s)
  {
    assert Trim(s) == s;
  }

  /** A digit string reads as its value. */
  lemma {:induction false} SignedDigits(d: string)
    requires d != [] && AllRadixDigits(d, 10)
    ensures SignedDecimal(d) == Some(ValueIn(d, 10))
  {
    assert d[0] != '+' && d[0] != '-' by {
      assert IsRadixDigit(d[0], 10);
    }
    assert SignedDecimal(d) == UnsignedDecimal(d);
    UnsignedDigits(d);
  }

  /** A minus sign before a digit string negates its value. */
  lemma {:induction false} NegatedDigits(d: string)
    requires d != [] && AllRadixDigits(d, 10)
    ensures SignedDecimal("-" + d) == Some(-(ValueIn(d, 10) as int))
  {
    var t := "-" + d;
    assert t[0] == '-' && t[1..] == d;
    UnsignedDigits(d);
  }

  /** The signed-decimal reading of a numeral is its number. */
  lemma {:induction false} SignedDecimalOfDecimal(n: int)
    ensures SignedDecimal(Decimal(n)) == Some(n)
  {
    if n < 0 {
      var d := Digits(-n);
      assert Decimal(n) == "-" + d;
      NegatedDigits(d);
      DigitsValue(-n);
      assert SignedDecimal("-" + d) == Some(n);
    } else {
      var d := Digits(n);
      assert Decimal(n) == d;
      SignedDigits(d);
      DigitsValue(n);
    }
  }

  /** `Number(String(n)) == n`: the numeral of an integer converts back to it. */
  lemma {:induction false} StringToNumberOfDecimal(n: int)
    ensures StringToNumber(Decimal(n)) == Some(n)
  {
    var s := Decimal(n);
    assert Trimmed(s) by {
      assert IsRadixDigit(s[|s| - 1], 10);
      assert s[0] == '-' || IsRadixDigit(s[0], 10);
    }
    assert |s| > 1 ==> IsRadixDigit(s[1], 10) by {
      if n < 0 && |s| > 1 {
        assert s[1] == s[1..][0];
      }
    }
    NoRadixPrefix(s);
    SignedDecimalOfDecimal(n);
  }

  /** A numeral loosely equals exactly the number it denotes: "2" == 2, and "2" != 3. */
  lemma {:induction false} DecimalLooselyEquals(m: int, n: int)
    ensures LooselyEqual(Str(Decimal(m)), Num(n)) <==> m == n
  {
    StringToNumberOfDecimal(m);
  }

  /** Loose equality does not depend on the order of its operands. */
  lemma {:induction false} LooselyEqualSymmetric(x: JsVal, y: JsVal)
    ensures LooselyEqual(x, y) == LooselyEqual(y, x)
  {
  }

  /** Whitespace around a numeral does not matter: " 2 " == 2, and likewise for every integer. */
  lemma {:induction false} PaddedNumeralEquals(a: string, n: int, b: string)
    requires AllJsSpace(a) && AllJsSpace(b)
    ensures LooselyEqual(Str(a + Decimal(n) + b), Num(n))
  {
    var d := Decimal(n);
    assert !IsJsSpace(d[0]) && !IsJsSpace(d[|d| - 1]) by {
      assert IsRadixDigit(d[|d| - 1], 10);
      if n >= 0 { assert IsRadixDigit(d[0], 10); }
    }
    TrimRemovesPadding(a, d, b);
    assert Trim(d) == d;
    StringToNumberOfDecimal(n);
  }

  /**
   * A path segment that starts with a lower-case letter (a word such as "users" or
   * "edit") is no numeral: ToNumber gives NaN, so it loosely equals no number.
   */
  lemma {:induction false} LowercaseWordIsNaN(w: string)
    requires w != [] && Trimmed(w) && 'a' <= w[0] <= 'z'
    ensures StringToNumber(w) == None
    ensures forall n :: !LooselyEqual(Str(w), Num(n))
  {
    assert Trim(w) == w;
    assert w != "Infinity";
    assert !IsRadixDigit(w[0], 10);
    assert DigitRun(w) == 0;
    assert w[..0] == [] && w[0..] == w;
    assert UnsignedDecimal(w) == AfterIntegerPart([], w);
  }

  /** Numerals other than the canonical one also match: "02" == 2 and "2.0" == 2. */
  lemma {:induction false} NonCanonicalNumerals()
    ensures LooselyEqual(Str("02"), Num(2))
    ensures LooselyEqual(Str("2.0"), Num(2))
  {
    LeadingZeroNumeral();
    ZeroFractionNumeral();
  }

  lemma {:induction false} LeadingZeroNumeral()
    ensures StringToNumber("02") == Some(2)
  {
    assert IsRadixDigit("02"[0], 10) && IsRadixDigit("02"[1], 10);
    NoRadixPrefix("02");
    UnsignedDigits("02");
    assert "02"[..1] == "0";
  }

  lemma {:induction false} ZeroFractionNumeral()
    ensures StringToNumber("2.0") == Some(2)
  {
    assert Trim("2.0") == "2.0";
    var a := DigitRun("2.0");
    assert a == 1;
    var r1 := "2.0"[1..];
    assert r1 == ".0" && r1[1..] == "0";
    assert DigitRun("0") == 1;
    assert "0"[..1] == "0" && "0"[1..] == [];
    assert "2.0"[..1] + "0" == "20";
    assert ValueIn("20", 10) == 20 by {
      assert "20"[..1] == "2";
    }
    assert UnsignedDecimal("2.0") == Scaled(20, -1);
  }
}
