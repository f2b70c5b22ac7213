/**
 * Numbers as the source sees them: JSON floats as exact decimals, Python's
 * `str()` of a float, Python's `float()` of a string, and `format(n, ",")`.
 */
module Numbers {
  import opened Wrappers
  import opened Text

  /** The decimal `mant * 10^exp`. */
  datatype Decimal = Decimal(mant: int, exp: int)

  function RealPow10(e: int): (p: real)
    ensures p > 0.0
    decreases if e < 0 then -e else e
  {
    if e == 0 then 1.0
    else if e > 0 then 10.0 * RealPow10(e - 1)
    else RealPow10(e + 1) / 10.0
  }

  lemma {:induction false} RealPow10Nat(n: nat)
    ensures RealPow10(n) == Pow10(n) as real
  {
    if n > 0 { RealPow10Nat(n - 1); }
  }

  lemma {:induction false} RealPow10Step(e: int)
    ensures RealPow10(e + 1) == 10.0 * RealPow10(e)
    decreases if e < 0 then -e else e
  {
    if e < 0 {
      assert RealPow10(e) == RealPow10(e + 1) / 10.0;
    }
  }

  function Value(d: Decimal): real {
    d.mant as real * RealPow10(d.exp)
  }

  /** The same decimal without trailing zeros in its mantissa (and `0` as `0 * 10^0`). */
  function Normalize(d: Decimal): (n: Decimal)
    ensures Value(n) == Value(d)
    ensures n.mant == 0 ==> n.exp == 0
    ensures n.mant != 0 ==> n.mant % 10 != 0
    decreases if d.mant < 0 then -d.mant else d.mant
  {
    if d.mant == 0 then Decimal(0, 0)
    else if d.mant % 10 != 0 then d
    else
      var next := Decimal(d.mant / 10, d.exp + 1);
      RealPow10Step(d.exp);
      assert d.mant == (d.mant / 10) * 10;
      Normalize(next)
  }

  /**
   * Python's `repr`/`str` of a float holding the decimal `d`: positional
   * notation with at least one digit after the point when the decimal point
   * lies within 16 places left of or 4 places right of the first digit,
   * scientific notation (`1.5e-05`, `1e+16`) otherwise.
   */
  function FloatRepr(d: Decimal): string {
    var n := Normalize(d);
    if n.mant == 0 then "0.0"
    else (if n.mant < 0 then "-" else "") + AbsRepr(NatToString(Abs(n.mant)), n.exp)
  }

  function Abs(i: int): nat {
    if i < 0 then -i else i
  }

  /** Repr of the positive value `digits * 10^e`. */
  function AbsRepr(digits: string, e: int): string
    requires digits != []
  {
    var decpt := |digits| + e;
    if decpt <= -4 || decpt > 16 then
      [digits[0]] + (if |digits| > 1 then "." + digits[1..] else "") + "e" + ExponentText(decpt - 1)
    else if e >= 0 then digits + Zeros(e) + ".0"
    else if decpt > 0 then digits[..decpt] + "." + digits[decpt..]
    else "0." + Zeros(-decpt) + digits
  }

  /** The exponent as repr writes it: a sign and at least two digits. */
  function ExponentText(x: int): string {
    (if x < 0 then "-" else "+") + ZeroPad(Abs(x), 2)
  }

  // ---------------------------------------------------------------------------
  // Python's float(): optional white space, sign, digits with optional single
  // underscores between them, an optional fraction and an optional exponent.
  // ---------------------------------------------------------------------------

  /**
   * Python's `float(s)` on decimal literals (the spellings of infinity and
   * NaN are not accepted here).
   */
  function ParseFloat(s: string): Option<Decimal> {
    ParseLiteral(Strip(s))
  }

  /** `float()` of a string without surrounding white space. */
  function ParseLiteral(t: string): Option<Decimal> {
    if t != [] && (t[0] == '+' || t[0] == '-') then
      match ParseUnsigned(t[1..])
      case None => None
      case Some(v) => Some(Negate(t[0] == '-', v))
    else ParseUnsigned(t)
  }

  function Negate(neg: bool, v: Decimal): Decimal {
    if neg then Decimal(-v.mant, v.exp) else v
  }

  function ParseUnsigned(u: string): Option<Decimal> {
    Scan(u, 0, 0, false, false, false)
  }

  /**
   * Reads the digits of `u` left to right. `m` is the value of the digits
   * read so far, of which the last `scale` came after the point; `frac` says
   * the point has been read, `prev` that the last character was a digit
   * (so an underscore may follow), `seen` that some digit was read.
   * The first character that continues neither the digits nor the point
   * starts the exponent part.
   */
  function Scan(u: string, m: nat, scale: nat, frac: bool, prev: bool, seen: bool): Option<Decimal>
    decreases |u|
  {
    if u != [] && IsDigit(u[0]) then
      Scan(u[1..], 10 * m + DigitValue(u[0]), if frac then scale + 1 else scale, frac, true, true)
    else if |u| >= 2 && u[0] == '_' && prev && IsDigit(u[1]) then
      Scan(u[1..], m, scale, frac, false, seen)
    else if u != [] && u[0] == '.' && !frac then
      Scan(u[1..], m, scale, true, false, seen)
    else if !seen then None
    else match ParseExponent(u)
      case None => None
      case Some(x) => Some(Decimal(m, x - scale))
  }

  /**
   * The longest prefix of `u` of the form `digit (_? digit)*`, with the
   * underscores dropped, and what follows it.
   */
  function TakeDigitPart(u: string): (r: (string, string))
    ensures AllDigits(r.0) && |r.1| <= |u|
  {
    if u == [] || !IsDigit(u[0]) then ([], u)
    else
      var (d, rest) := DigitTail(u[1..]);
      ([u[0]] + d, rest)
  }

  function DigitTail(u: string): (r: (string, string))
    ensures AllDigits(r.0) && |r.1| <= |u|
  {
    if u != [] && IsDigit(u[0]) then
      var (d, rest) := DigitTail(u[1..]);
      ([u[0]] + d, rest)
    else if |u| >= 2 && u[0] == '_' && IsDigit(u[1]) then
      var (d, rest) := DigitTail(u[2..]);
      ([u[1]] + d, rest)
    else ([], u)
  }

  function SignValue(c: char): int {
    if c == '-' then -1 else 1
  }

  /** The exponent part, when `r` is exactly one (or empty). */
  function ParseExponent(r: string): Option<int> {
    if r == [] then Some(0)
    else if r[0] != 'e' && r[0] != 'E' then None
    else
      var u := r[1..];
      var signed := u != [] && (u[0] == '+' || u[0] == '-');
      var (d, rest) := TakeDigitPart(if signed then u[1..] else u);
      if d == [] || rest != [] then None
      else Some((if signed then SignValue(u[0]) else 1) * DigitsValue(d))
  }

  /** The integer the digits `ip` then `fp` spell. */
  function Mantissa(ip: string, fp: string): nat
    requires AllDigits(ip) && AllDigits(fp)
  {
    DigitsValue(ip) * Pow10(|fp|) + DigitsValue(fp)
  }

  // ---------------------------------------------------------------------------
  // Round trips: float() reads back what str() writes.
  // ---------------------------------------------------------------------------

  function SignText(neg: bool): string {
    if neg then "-" else ""
  }

  /** Reading a run of digits accumulates their value. */
  lemma {:induction false} ScanDigits(a: string, q: string, m: nat, scale: nat, frac: bool, prev: bool, seen: bool)
    requires AllDigits(a)
    ensures Scan(a + q, m, scale, frac, prev, seen)
         == Scan(q, m * Pow10(|a|) + DigitsValue(a), scale + (if frac then |a| else 0), frac, prev || a != [], seen || a != [])
    decreases |a|
  {
    if a == [] {
      assert a + q == q;
    } else {
      var c, a' := a[0], a[1..];
      var u := a + q;
      assert u[0] == c && IsDigit(c);
      assert u[1..] == a' + q;
      var m' := 10 * m + DigitValue(c);
      var scale' := if frac then scale + 1 else scale;
      assert Scan(u, m, scale, frac, prev, seen) == Scan(a' + q, m', scale', frac, true, true);
      ScanDigits(a', q, m', scale', frac, true, true);
      HeadDigitValue(a, m);
    }
  }

  /** The value of digits read with the first one folded into the accumulator. */
  lemma {:induction false} HeadDigitValue(a: string, m: nat)
    requires AllDigits(a) && a != []
    ensures (10 * m + DigitValue(a[0])) * Pow10(|a| - 1) + DigitsValue(a[1..]) == m * Pow10(|a|) + DigitsValue(a)
  {
    var c, a' := a[0], a[1..];
    assert [c] + a' == a;
    DigitsValueAppend([c], a');
    assert DigitsValue([c]) == DigitValue(c);
    ShiftMantissa(m, DigitValue(c), Pow10(|a'|), DigitsValue(a'));
  }

  lemma {:induction false} ShiftMantissa(m: nat, d: nat, p: nat, y: nat)
    ensures (10 * m + d) * p + y == m * (10 * p) + (d * p + y)
  {
  }


  /** An exponent text a literal may end with: nothing, or `e`, a sign and digits. */
  predicate ExponentLike(xe: string, x: int) {
    ParseExponent(xe) == Some(x)
    && (xe == [] || (xe[0] == 'e' && IsDigit(xe[|xe| - 1])))
  }

  lemma {:induction false} ScanEnd(xe: string, x: int, m: nat, scale: nat, frac: bool, prev: bool)
    requires ExponentLike(xe, x)
    ensures Scan(xe, m, scale, frac, prev, true) == Some(Decimal(m, x - scale))
  {
  }

  lemma {:induction false} ScanPoint(r: string, m: nat, scale: nat, prev: bool, seen: bool)
    ensures Scan("." + r, m, scale, false, prev, seen) == Scan(r, m, scale, true, false, seen)
  {
    assert ("." + r)[1..] == r;
  }

  lemma {:induction false} DigitTailAppend(a: string, q: string)
    requires AllDigits(a)
    requires q == [] || (!IsDigit(q[0]) && q[0] != '_')
    ensures DigitTail(a + q) == (a, q)
    decreases |a|
  {
    if a != [] {
      assert (a + q)[1..] == a[1..] + q;
      DigitTailAppend(a[1..], q);
      assert [a[0]] + a[1..] == a;
    } else {
      assert a + q == q;
    }
  }

  lemma {:induction false} TakeDigitPartAppend(a: string, q: string)
    requires AllDigits(a)
    requires q == [] || (!IsDigit(q[0]) && q[0] != '_')
    ensures TakeDigitPart(a + q) == (a, q)
  {
    if a != [] {
      assert (a + q)[1..] == a[1..] + q;
      DigitTailAppend(a[1..], q);
      assert [a[0]] + a[1..] == a;
    } else {
      assert a + q == q;
    }
  }

  lemma {:induction false} NoExponent()
    ensures ExponentLike("", 0)
  {
  }

  /** `e`, a sign and a digit string read back as the exponent they spell. */
  lemma {:induction false} ParseSignedExponent(sg: char, z: string)
    requires sg == '+' || sg == '-'
    requires AllDigits(z) && z != []
    ensures ExponentLike("e" + [sg] + z, SignValue(sg) * DigitsValue(z))
  {
    var xe := "e" + [sg] + z;
    assert xe[1..] == [sg] + z;
    assert xe[1..][1..] == z + [];
    assert xe[|xe| - 1] == z[|z| - 1];
    TakeDigitPartAppend(z, []);
  }

  lemma {:induction false} ExponentTextParses(x: int)
    ensures ExponentLike("e" + ExponentText(x), x)
  {
    var z := ZeroPad(Abs(x), 2);
    var sg := if x < 0 then '-' else '+';
    assert |z| >= 2;
    assert "e" + ExponentText(x) == "e" + [sg] + z;
    ParseSignedExponent(sg, z);
    assert SignValue(sg) * Abs(x) == x;
  }

  /** Digits followed by an exponent text. */
  lemma {:induction false} UnsignedNoPoint(a: string, xe: string, x: int)
    requires AllDigits(a) && a != []
    requires ExponentLike(xe, x)
    ensures ParseUnsigned(a + xe) == Some(Decimal(DigitsValue(a), x))
  {
    ScanDigits(a, xe, 0, 0, false, false, false);
    ScanEnd(xe, x, DigitsValue(a), 0, false, true);
  }

  /** Digits, a point, digits, then an exponent text. */
  lemma {:induction false} UnsignedPoint(a: string, b: string, xe: string, x: int)
    requires AllDigits(a) && AllDigits(b) && (a != [] || b != [])
    requires ExponentLike(xe, x)
    ensures ParseUnsigned(a + ("." + (b + xe))) == Some(Decimal(Mantissa(a, b), x - |b|))
  {
    var ma := DigitsValue(a);
    ScanDigits(a, "." + (b + xe), 0, 0, false, false, false);
    ScanPoint(b + xe, ma, 0, a != [], a != []);
    ScanDigits(b, xe, ma, 0, true, false, a != []);
    ScanEnd(xe, x, Mantissa(a, b), |b|, true, b != []);
  }

  /** A literal whose first and last characters are digits or points. */
  predicate LiteralEnds(u: string) {
    u != [] && (u[0] == '.' || IsDigit(u[0])) && (u[|u| - 1] == '.' || IsDigit(u[|u| - 1]))
  }

  lemma {:induction false} ParseSigned(neg: bool, u: string, v: Decimal)
    requires LiteralEnds(u)
    requires ParseUnsigned(u) == Some(v)
    ensures ParseFloat(SignText(neg) + u) == Some(Negate(neg, v))
  {
    var t := SignText(neg) + u;
    DigitNotSpace(t[0]);
    DigitNotSpace(t[|t| - 1]);
    StripStripped(t);
    if neg {
      assert t[1..] == u;
    } else {
      assert t == u;
    }
  }

  /** float(str(i)) is i, for every int i. */
  lemma {:induction false} IntRoundTrip(i: int)
    ensures ParseFloat(IntToString(i)) == Some(Decimal(i, 0))
  {
    var a := NatToString(Abs(i));
    NoExponent();
    UnsignedNoPoint(a, "", 0);
    assert a + "" == a;
    ParseSigned(i < 0, a, Decimal(Abs(i), 0));
    assert IntToString(i) == SignText(i < 0) + a;
  }

  /** Moving `z` zeros from the exponent into the mantissa keeps the value. */
  lemma {:induction false} ValueShift(k: int, a: int, z: nat)
    ensures Value(Decimal(k * Pow10(z), a)) == Value(Decimal(k, a + z))
    decreases z
  {
    if z > 0 {
      ValueShift(k * 10, a, z - 1);
      MulTenFirst(k, Pow10(z - 1));
      ValueStep(k, a + z - 1);
    }
  }

  /** One zero moved from the mantissa into the exponent. */
  lemma {:induction false} ValueStep(k: int, x: int)
    ensures Value(Decimal(k * 10, x)) == Value(Decimal(k, x + 1))
  {
    RealPow10Step(x);
    assert (k * 10) as real == k as real * 10.0;
  }

  lemma {:induction false} MulTenFirst(k: int, q: nat)
    ensures k * (10 * q) == (k * 10) * q
  {
  }

  lemma {:induction false} NegateValue(neg: bool, p: Decimal, q: Decimal)
    requires Value(p) == Value(q)
    ensures Value(Negate(neg, p)) == Value(Negate(neg, q))
  {
  }

  /** float(repr(x)) is x, for every float x. */
  lemma {:induction false} FloatRoundTrip(d: Decimal)
    ensures ParseFloat(FloatRepr(d)).Some?
    ensures Value(ParseFloat(FloatRepr(d)).value) == Value(d)
  {
    var n := Normalize(d);
    if n.mant == 0 {
      ZeroRepr();
      assert FloatRepr(d) == "0.0";
      assert Value(d) == 0.0;
    } else {
      NonzeroRoundTrip(n);
      assert FloatRepr(d) == SignText(n.mant < 0) + AbsRepr(NatToString(Abs(n.mant)), n.exp);
    }
  }

  lemma {:induction false} ZeroRepr()
    ensures ParseFloat("0.0") == Some(Decimal(0, -1))
  {
    NoExponent();
    UnsignedPoint("0", "0", "", 0);
    assert "0" + ("." + ("0" + "")) == "0.0";
    ParseSigned(false, "0.0", Decimal(Mantissa("0", "0"), -1));
    assert SignText(false) + "0.0" == "0.0";
    assert Mantissa("0", "0") == 0;
  }

  /** The signed repr of a non-zero decimal reads back as a decimal of its value. */
  lemma {:induction false} NonzeroRoundTrip(n: Decimal)
    requires n.mant != 0
    ensures var u := SignText(n.mant < 0) + AbsRepr(NatToString(Abs(n.mant)), n.exp);
            ParseFloat(u).Some? && Value(ParseFloat(u).value) == Value(n)
  {
    var m := Abs(n.mant);
    var u := AbsRepr(NatToString(m), n.exp);
    var p := AbsReprRoundTrip(NatToString(m), n.exp);
    ParseSigned(n.mant < 0, u, p);
    NegateValue(n.mant < 0, p, Decimal(m, n.exp));
    assert Negate(n.mant < 0, Decimal(m, n.exp)) == n;
  }

  /** The unsigned repr of `digits * 10^e` reads back as a decimal of the same value. */
  lemma {:induction false} AbsReprRoundTrip(D: string, e: int) returns (p: Decimal)
    requires D != [] && AllDigits(D)
    ensures LiteralEnds(AbsRepr(D, e))
    ensures ParseUnsigned(AbsRepr(D, e)) == Some(p)
    ensures Value(p) == Value(Decimal(DigitsValue(D), e))
  {
    var decpt := |D| + e;
    if decpt <= -4 || decpt > 16 {
      if |D| > 1 {
        ScientificPointCase(D, e, D[0], D[1..]);
      } else {
        ScientificDigitCase(D, e);
      }
      p := Decimal(DigitsValue(D), e);
    } else if e >= 0 {
      p := WholeCase(D, e);
    } else if decpt > 0 {
      PointInsideCase(D, e, D[..decpt], D[decpt..]);
      p := Decimal(DigitsValue(D), e);
    } else {
      LeadingZerosCase(D, e);
      p := Decimal(DigitsValue(D), e);
    }
  }

  /** Concatenation regrouped to the right. */
  lemma {:induction false} Regroup(a: string, p: string, b: string, c: string, d: string)
    ensures a + (p + b) + c + d == a + (p + (b + (c + d)))
  {
  }

  lemma {:induction false} LeadPointParses(c: char, b: string, xe: string, x: int)
    requires IsDigit(c) && AllDigits(b)
    requires ExponentLike(xe, x)
    ensures ParseUnsigned([c] + ("." + (b + xe))) == Some(Decimal(Mantissa([c], b), x - |b|))
  {
    UnsignedPoint([c], b, xe, x);
  }

  lemma {:induction false} ScientificPointParses(c: char, b: string, x: int)
    requires IsDigit(c) && AllDigits(b)
    ensures ParseUnsigned([c] + ("." + (b + ("e" + ExponentText(x)))))
         == Some(Decimal(Mantissa([c], b), x - |b|))
  {
    ExponentTextParses(x);
    LeadPointParses(c, b, "e" + ExponentText(x), x);
  }

  /** Scientific notation with more than one digit: `c.bbbe±xx`. */
  lemma {:induction false} ScientificPointCase(D: string, e: int, c: char, b: string)
    requires D == [c] + b && b != [] && IsDigit(c) && AllDigits(b)
    requires |D| + e <= -4 || |D| + e > 16
    ensures LiteralEnds(AbsRepr(D, e))
    ensures ParseUnsigned(AbsRepr(D, e)) == Some(Decimal(DigitsValue(D), e))
  {
    var x := |D| + e - 1;
    var xt := ExponentText(x);
    ScientificLayout(D, e, c, b);
    ScientificPointParses(c, b, x);
    assert Mantissa([c], b) == DigitsValue(D) by {
      DigitsValueAppend([c], b);
    }
    ExponentTextParses(x);
    var u := [c] + ("." + (b + ("e" + xt)));
    assert u[|u| - 1] == xt[|xt| - 1];
  }

  lemma {:induction false} ScientificLayout(D: string, e: int, c: char, b: string)
    requires D == [c] + b && b != []
    requires |D| + e <= -4 || |D| + e > 16
    ensures AbsRepr(D, e) == [c] + ("." + (b + ("e" + ExponentText(|D| + e - 1))))
  {
    var xt := ExponentText(|D| + e - 1);
    assert D[0] == c;
    assert D[1..] == b;
    assert AbsRepr(D, e) == [c] + "." + b + "e" + xt;
    Regroup([c], ".", b, "e", xt);
  }

  /** Scientific notation with one digit: `ce±xx`. */
  lemma {:induction false} ScientificDigitCase(D: string, e: int)
    requires |D| == 1 && AllDigits(D)
    requires |D| + e <= -4 || |D| + e > 16
    ensures LiteralEnds(AbsRepr(D, e))
    ensures ParseUnsigned(AbsRepr(D, e)) == Some(Decimal(DigitsValue(D), e))
  {
    var x := |D| + e - 1;
    var xe := "e" + ExponentText(x);
    assert [D[0]] == D;
    assert AbsRepr(D, e) == D + xe;
    ExponentTextParses(x);
    UnsignedNoPoint(D, xe, x);
  }

  /** A whole number written out: the digits, `e` zeros, then `.0`. */
  lemma {:induction false} WholeCase(D: string, e: int) returns (p: Decimal)
    requires D != [] && AllDigits(D)
    requires !(|D| + e <= -4 || |D| + e > 16) && e >= 0
    ensures LiteralEnds(AbsRepr(D, e))
    ensures ParseUnsigned(AbsRepr(D, e)) == Some(p)
    ensures Value(p) == Value(Decimal(DigitsValue(D), e))
  {
    var a := D + Zeros(e);
    WholeParses(a);
    assert AbsRepr(D, e) == a + ("." + ("0" + ""));
    p := Decimal(Mantissa(a, "0"), -1);
    WholeValue(D, e);
  }

  lemma {:induction false} WholeParses(a: string)
    requires AllDigits(a) && a != []
    ensures LiteralEnds(a + ("." + ("0" + "")))
    ensures ParseUnsigned(a + ("." + ("0" + ""))) == Some(Decimal(Mantissa(a, "0"), -1))
  {
    NoExponent();
    UnsignedPoint(a, "0", "", 0);
  }

  lemma {:induction false} WholeValue(D: string, e: nat)
    requires AllDigits(D)
    ensures Value(Decimal(Mantissa(D + Zeros(e), "0"), -1)) == Value(Decimal(DigitsValue(D), e))
  {
    var m := DigitsValue(D);
    var p := Pow10(e);
    DigitsValueAppend(D, Zeros(e));
    assert DigitsValue(D + Zeros(e)) == m * p + 0;
    assert DigitsValue("0") == 0;
    assert Pow10(|"0"|) == 10;
    assert Mantissa(D + Zeros(e), "0") == m * p * 10 + 0;
    assert Pow10(e + 1) == 10 * p;
    Assoc10(m, p);
    ValueShift(m, -1, e + 1);
  }

  lemma {:induction false} Assoc10(m: nat, p: nat)
    ensures m * p * 10 == m * (10 * p)
  {
  }

  /** The point inside the digits: `aaa.bbb`. */
  lemma {:induction false} PointInsideCase(D: string, e: int, a: string, b: string)
    requires D == a + b && a != [] && b != [] && AllDigits(a) && AllDigits(b)
    requires |a| == |D| + e && e < 0 && |D| + e <= 16
    ensures LiteralEnds(AbsRepr(D, e))
    ensures ParseUnsigned(AbsRepr(D, e)) == Some(Decimal(DigitsValue(D), e))
  {
    var decpt := |D| + e;
    assert D[..decpt] == a;
    assert D[decpt..] == b;
    assert AbsRepr(D, e) == a + ("." + (b + ""));
    NoExponent();
    UnsignedPoint(a, b, "", 0);
    DigitsValueAppend(a, b);
  }

  /** A value below one: `0.`, zeros, then the digits. */
  lemma {:induction false} LeadingZerosCase(D: string, e: int)
    requires D != [] && AllDigits(D)
    requires !(|D| + e <= -4 || |D| + e > 16) && e < 0 && |D| + e <= 0
    ensures LiteralEnds(AbsRepr(D, e))
    ensures ParseUnsigned(AbsRepr(D, e)) == Some(Decimal(DigitsValue(D), e))
  {
    var z := Zeros(-(|D| + e));
    var b := z + D;
    assert AbsRepr(D, e) == "0." + z + D;
    assert "0." + z + D == "0" + ("." + (b + ""));
    LeadingZerosParses(b);
    DigitsValueAppend(z, D);
    assert DigitsValue(b) == DigitsValue(D) by {
      ZeroTimes(Pow10(|D|));
    }
    assert -|b| == e;
  }

  lemma {:induction false} LeadingZerosParses(b: string)
    requires AllDigits(b) && b != []
    ensures ParseUnsigned("0" + ("." + (b + ""))) == Some(Decimal(DigitsValue(b), -|b|))
  {
    NoExponent();
    UnsignedPoint("0", b, "", 0);
    MantissaZero(b);
  }
  lemma {:induction false} ZeroDigits()
    ensures AllDigits("0") && DigitsValue("0") == 0
  {
    assert "0"[..0] == [];
  }
  lemma {:induction false} MantissaZero(b: string)
    requires AllDigits(b)
    ensures AllDigits("0") && Mantissa("0", b) == DigitsValue(b)
  {
    ZeroDigits();
    var p := Pow10(|b|);
    assert 0 * p == 0;
  }




  lemma {:induction false} ZeroTimes(p: nat)
    ensures 0 * p == 0
  {
  }

  // ---------------------------------------------------------------------------
  // format(n, ","): three-digit groups separated by commas.
  // ---------------------------------------------------------------------------

  function GroupNat(n: nat): (s: string)
    ensures s != [] && IsDigit(s[0])
    ensures IsDigit(s[|s| - 1])
  {
    if n < 1000 then NatToString(n)
    else GroupNat(n / 1000) + "," + ZeroPad(n % 1000, 3)
  }

  /** Python's `f"{n:,}"` of an int (a bool is formatted as the int it is). */
  function GroupThousands(i: int): string {
    if i < 0 then "-" + GroupNat(-i) else GroupNat(i)
  }

  lemma {:induction false} RemoveCharAppend(a: string, b: string, c: char)
    ensures RemoveChar(a + b, c) == RemoveChar(a, c) + RemoveChar(b, c)
  {
    if a != [] {
      assert (a + b)[0] == a[0];
      assert (a + b)[1..] == a[1..] + b;
      RemoveCharAppend(a[1..], b, c);
    } else {
      assert a + b == b;
    }
  }

  /** Removing the separators leaves the plain digits of the number. */
  lemma {:induction false} GroupNatDigits(n: nat)
    ensures AllDigits(RemoveChar(GroupNat(n), ','))
    ensures DigitsValue(RemoveChar(GroupNat(n), ',')) == n
  {
    if n < 1000 {
      assert ',' !in NatToString(n) by {
        assert AllDigits(NatToString(n));
      }
    } else {
      var q, m := n / 1000, n % 1000;
      GroupNatDigits(q);
      var hi := GroupNat(q);
      var lo := ZeroPad(m, 3);
      var plain := RemoveChar(hi, ',');
      assert GroupNat(n) == hi + "," + lo;
      assert AllDigits(lo);
      RemoveGroupComma(hi, lo);
      assert |lo| == 3 by { NatToStringLength(m, 3); }
      DigitsValueAppend(plain, lo);
      DivMod1000(n);
    }
  }

  lemma {:induction false} RemoveGroupComma(hi: string, lo: string)
    requires AllDigits(lo)
    ensures RemoveChar(hi + "," + lo, ',') == RemoveChar(hi, ',') + lo
  {
    RemoveCharAppend(hi + ",", lo, ',');
    RemoveCharAppend(hi, ",", ',');
    assert RemoveChar(",", ',') == "";
    assert ',' !in lo by { assert AllDigits(lo); }
  }

  lemma {:induction false} DivMod1000(n: nat)
    ensures (n / 1000) * Pow10(3) + n % 1000 == n
  {
    assert Pow10(3) == 1000;
  }

  /** `float()` reads full-width digits as the digits they stand for. */
  lemma {:induction false} WideDigitsParse()
    ensures ParseFloat("１２３").Some? && Value(ParseFloat("１２３").value) == 123.0
  {
  }
}
