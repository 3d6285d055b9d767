/** Shifts, powers of ten, and division. */
module Powers {
  /** `x * 2^k` */
  function Shl(x: nat, k: nat): (r: nat)
    ensures r >= x
  {
    if k == 0 then x else 2 * Shl(x, k - 1)
  }

  /** `x / 2^k`, rounded down. */
  function Shr(x: nat, k: nat): nat {
    if k == 0 then x else Shr(x / 2, k - 1)
  }

  /** `x < 2^k` */
  predicate Below(x: nat, k: nat) {
    if k == 0 then x == 0 else Below(x / 2, k - 1)
  }

  lemma {:induction false} BelowExact(x: nat, k: nat)
    ensures Below(x, k) <==> x < Shl(1, k)
  {
    if k > 0 {
      BelowExact(x / 2, k - 1);
    }
  }

  lemma {:induction false} BelowMore(x: nat, k: nat, more: nat)
    requires Below(x, k) && k <= more
    ensures Below(x, more)
    decreases more
  {
    if k < more {
      BelowExact(x, k);
      BelowExact(x, more - 1);
      ShlGrows(1, k, more - 1);
      BelowMore(x, k, more - 1);
      BelowExact(x, more);
    }
  }

  function Pow10(k: nat): (p: nat)
    ensures p > 0
  {
    if k == 0 then 1 else 10 * Pow10(k - 1)
  }

  lemma {:induction false} ShlAdd(x: nat, a: nat, b: nat)
    ensures Shl(Shl(x, a), b) == Shl(x, a + b)
  {
    if b > 0 {
      ShlAdd(x, a, b - 1);
    }
  }

  lemma {:induction false} ShlLess(x: nat, y: nat, k: nat)
    ensures x < y <==> Shl(x, k) < Shl(y, k)
  {
    if k > 0 {
      ShlLess(x, y, k - 1);
    }
  }

  lemma ShlEqual(x: nat, y: nat, k: nat)
    ensures x == y <==> Shl(x, k) == Shl(y, k)
  {
    ShlLess(x, y, k);
    ShlLess(y, x, k);
  }

  lemma {:induction false} ShlGrows(x: nat, a: nat, b: nat)
    requires a <= b
    ensures Shl(x, a) <= Shl(x, b)
    decreases b
  {
    if a < b {
      ShlGrows(x, a, b - 1);
    }
  }

  lemma {:induction false} ShlShr(x: nat, k: nat)
    ensures Shr(Shl(x, k), k) == x
  {
    if k > 0 {
      ShlShr(x, k - 1);
    }
  }

  lemma Successor(q: nat, b: nat)
    ensures (q + 1) * b == q * b + b
  {
  }

  lemma {:induction false} ShlIsTimes(x: nat, k: nat)
    ensures Shl(x, k) == x * Shl(1, k)
  {
    if k > 0 {
      ShlIsTimes(x, k - 1);
      Doubled(x, Shl(1, k - 1));
    }
  }

  lemma Doubled(x: nat, b: nat)
    ensures x * (2 * b) == 2 * (x * b)
  {
  }

  lemma MulAtMost(a: nat, b: nat, c: nat)
    requires a <= b
    ensures a * c <= b * c
  {
  }

  lemma DivMod(a: nat, b: nat)
    requires b > 0
    ensures a == (a / b) * b + a % b && 0 <= a % b < b && a / b >= 0
  {
  }

  /** Quotient and remainder are what they should be. */
  lemma DivUnique(q: nat, r: nat, b: nat)
    requires r < b
    ensures (q * b + r) / b == q && (q * b + r) % b == r
  {
    var a := q * b + r;
    DivMod(a, b);
    var q' := a / b;
    Successor(q, b);
    Successor(q', b);
    if q < q' { MulAtMost(q + 1, q', b); }
    if q' < q { MulAtMost(q' + 1, q, b); }
  }
}

/** Floating point as far as reading a decimal number and scaling it by a power of two needs it. */
module Floats {
  import opened Powers

  /** `mant * 2^exp` */
  datatype Float = Float(mant: nat, exp: int)

  /** a / b rounded to a whole number, ties to even. */
  function HalfEven(a: nat, b: nat): nat
    requires b > 0
  {
    var q, r := a / b, a % b;
    DivMod(a, b);
    if 2 * r < b || (2 * r == b && q % 2 == 0) then q else q + 1
  }

  /** Scaling a / b down until `bits` bits hold its whole part. */
  function RoundLarge(bits: nat, a: nat, b: nat, exp: int): Float
    requires b > 0
    decreases a - b
  {
    if a >= Shl(b, bits) then RoundLarge(bits, a, 2 * b, exp + 1) else Float(HalfEven(a, b), exp)
  }

  /** Scaling a / b up until its whole part has `bits` bits, or the smallest exponent is reached. */
  function RoundSmall(bits: nat, a: nat, b: nat, left: nat, exp: int): Float
    requires b > 0 && bits > 0
    decreases left
  {
    if a < Shl(b, bits - 1) && left > 0 then RoundSmall(bits, 2 * a, b, left - 1, exp - 1)
    else Float(HalfEven(a, b), exp)
  }

  /** The number of precision `bits` nearest to a / b, with no largest one; `down` is how far below
      zero exponents go. */
  function Round(bits: nat, down: nat, a: nat, b: nat): Float
    requires b > 0 && bits > 0
  {
    if a >= Shl(b, bits) then RoundLarge(bits, a, b, 0) else RoundSmall(bits, a, b, down, 0)
  }

  /** `q` is the whole number nearest to a / b, the even one of two equally near. */
  predicate Nearest(q: nat, a: nat, b: nat) {
    var whole := 2 * (q * b);
    && whole <= 2 * a + b && 2 * a <= whole + b
    && (whole == 2 * a + b || 2 * a == whole + b ==> q % 2 == 0)
  }

  lemma HalfEvenNearest(a: nat, b: nat)
    requires b > 0
    ensures Nearest(HalfEven(a, b), a, b)
  {
    DivMod(a, b);
    Successor(a / b, b);
  }

  /** `d` is the best approximation of a / b among the multiples of its unit in the last place. */
  predicate Approximates(d: Float, a: nat, b: nat) {
    if d.exp >= 0 then Nearest(d.mant, a, Shl(b, d.exp)) else Nearest(d.mant, Shl(a, -d.exp), b)
  }

  /** a / b, in units of the last place of `d`, uses all the bits there are, unless no smaller unit exists. */
  predicate FullPrecision(bits: nat, down: nat, d: Float, a: nat, b: nat)
    requires bits > 0
  {
    if d.exp >= 0 then Shl(Shl(b, d.exp), bits - 1) <= a < Shl(Shl(b, d.exp), bits) || (down == 0 && a < Shl(b, bits))
    else Shl(a, -d.exp) < Shl(b, bits) && (Shl(b, bits - 1) <= Shl(a, -d.exp) || d.exp + down == 0)
  }

  lemma {:induction false} RoundLargeNearest(bits: nat, down: nat, a: nat, b: nat, j: nat)
    requires bits > 0 && b > 0 && a >= Shl(Shl(b, j), bits - 1)
    ensures var d := RoundLarge(bits, a, Shl(b, j), j);
            d.exp >= j && Approximates(d, a, b) && FullPrecision(bits, down, d, a, b)
    decreases a - Shl(b, j)
  {
    if a >= Shl(Shl(b, j), bits) {
      DoubledShl(b, j, bits);
      RoundLargeNearest(bits, down, a, b, j + 1);
    } else {
      HalfEvenNearest(a, Shl(b, j));
    }
  }

  lemma DoubledShl(b: nat, j: nat, bits: nat)
    requires bits > 0
    ensures Shl(Shl(b, j + 1), bits - 1) == Shl(Shl(b, j), bits) && Shl(b, j + 1) == 2 * Shl(b, j)
  {
    ShlAdd(b, j + 1, bits - 1);
    ShlAdd(b, j, bits);
  }

  lemma {:induction false} RoundSmallNearest(bits: nat, down: nat, a: nat, b: nat, j: nat)
    requires bits > 0 && b > 0 && j <= down && Shl(a, j) < Shl(b, bits)
    ensures var d := RoundSmall(bits, Shl(a, j), b, down - j, -(j as int));
            d.exp <= -(j as int) && Approximates(d, a, b) && FullPrecision(bits, down, d, a, b)
    decreases down - j
  {
    if Shl(a, j) < Shl(b, bits - 1) && j < down {
      RoundSmallNearest(bits, down, a, b, j + 1);
    } else {
      HalfEvenNearest(Shl(a, j), b);
    }
  }

  /** Rounding is to nearest, ties to even, at full precision. */
  lemma RoundIsNearest(bits: nat, down: nat, a: nat, b: nat)
    requires bits > 0 && b > 0
    ensures Approximates(Round(bits, down, a, b), a, b) && FullPrecision(bits, down, Round(bits, down, a, b), a, b)
  {
    assert Shl(b, 0) == b && Shl(a, 0) == a;
    if a >= Shl(b, bits) {
      ShlGrows(b, bits - 1, bits);
      RoundLargeNearest(bits, down, a, b, 0);
    } else {
      RoundSmallNearest(bits, down, a, b, 0);
    }
  }

  /** Multiplying by a power of two changes the exponent only. */
  function Scaled(d: Float, k: nat): Float {
    Float(d.mant, d.exp + k)
  }

  /** Truncation to a whole number. */
  function Truncated(d: Float): nat {
    if d.exp >= 0 then Shl(d.mant, d.exp) else Shr(d.mant, -d.exp)
  }

  predicate Fits(bits: nat, n: nat, m: nat, k: nat) {
    Below(m, bits) && n == Shl(m, k)
  }

  /** `bits` bits hold `n` up to a power of two. */
  ghost predicate Representable(bits: nat, n: nat) {
    exists m: nat, k: nat :: Fits(bits, n, m, k)
  }

  lemma HalfEvenWhole(a: nat)
    ensures HalfEven(a, 1) == a
  {
  }

  lemma {:induction false} SmallIsExact(bits: nat, n: nat, j: nat, left: nat)
    requires bits > 0
    ensures var d := RoundSmall(bits, Shl(n, j), 1, left, -(j as int));
            d.exp <= 0 && d.mant == Shl(n, -d.exp)
    decreases left
  {
    HalfEvenWhole(Shl(n, j));
    if Shl(n, j) < Shl(1, bits - 1) && left > 0 {
      SmallIsExact(bits, n, j + 1, left - 1);
    }
  }

  lemma HalfEvenOfMultiple(a: nat, b: nat)
    requires b > 0
    ensures HalfEven(a, b) * b == a <==> a % b == 0
  {
    DivMod(a, b);
    Successor(a / b, b);
  }

  /** Where the rounding of a large number stops: its top bit is at place `bits - 1 + e`. */
  lemma {:induction false} LargeStopsAt(bits: nat, n: nat, j: nat) returns (e: nat)
    requires bits > 0 && n >= Shl(1, bits - 1 + j)
    ensures RoundLarge(bits, n, Shl(1, j), j) == Float(HalfEven(n, Shl(1, e)), e)
    ensures Shl(1, bits - 1 + e) <= n < Shl(1, bits + e)
    decreases n - Shl(1, j)
  {
    ShlAdd(1, j, bits);
    if n >= Shl(1, bits + j) {
      e := LargeStopsAt(bits, n, j + 1);
    } else {
      e := j;
    }
  }

  lemma DividedFits(bits: nat, n: nat, e: nat)
    requires n < Shl(1, bits + e) && n % Shl(1, e) == 0
    ensures Representable(bits, n)
  {
    var m := n / Shl(1, e);
    DivMod(n, Shl(1, e));
    ShlIsTimes(m, e);
    ShlAdd(1, bits, e);
    ShlLess(m, Shl(1, bits), e);
    BelowExact(m, bits);
    assert Fits(bits, n, m, e);
  }

  lemma ShiftedDivides(x: nat, e: nat)
    ensures Shl(x, e) % Shl(1, e) == 0
  {
    ShlIsTimes(x, e);
    DivUnique(x, 0, Shl(1, e));
  }

  lemma FitsDivided(bits: nat, n: nat, e: nat)
    requires bits > 0 && Shl(1, bits - 1 + e) <= n && Representable(bits, n)
    ensures n % Shl(1, e) == 0
  {
    var m: nat, k: nat :| Fits(bits, n, m, k);
    BelowExact(m, bits);
    if k < e {
      ShlLess(m, Shl(1, bits), k);
      ShlAdd(1, bits, k);
      ShlGrows(1, bits + k, bits - 1 + e);
    } else {
      ShlAdd(m, k - e, e);
      ShiftedDivides(Shl(m, k - e), e);
    }
  }

  /** Rounding away leaves the number as it is exactly when nothing is cut off. */
  lemma CutExact(n: nat, e: nat)
    ensures Shl(HalfEven(n, Shl(1, e)), e) == n <==> n % Shl(1, e) == 0
  {
    ShlIsTimes(HalfEven(n, Shl(1, e)), e);
    HalfEvenOfMultiple(n, Shl(1, e));
  }

  lemma RoundedLarge(bits: nat, n: nat) returns (m: nat, e: nat)
    requires bits > 0 && n >= Shl(1, bits)
    ensures RoundLarge(bits, n, 1, 0) == Float(m, e) && (Shl(m, e) == n <==> Representable(bits, n))
  {
    e := LargeStopsAt(bits, n, 0);
    m := HalfEven(n, Shl(1, e));
    CutExact(n, e);
    if n % Shl(1, e) == 0 { DividedFits(bits, n, e); }
    if Representable(bits, n) { FitsDivided(bits, n, e); }
  }

  /** A float that is a whole number times a power of two, scaled and truncated. */
  lemma TruncatedUp(m: nat, e: nat, k: nat)
    ensures Truncated(Scaled(Float(m, e), k)) == Shl(Shl(m, e), k)
  {
    ShlAdd(m, e, k);
  }

  lemma TruncatedDown(n: nat, s: nat, k: nat)
    ensures Truncated(Scaled(Float(Shl(n, s), -(s as int)), k)) == Shl(n, k)
  {
    if k >= s {
      ShlAdd(n, s, k - s);
    } else {
      ShlAdd(n, k, s - k);
      ShlShr(Shl(n, k), s - k);
    }
  }

  /** Too many bits: exact only when nothing is rounded away. */
  lemma LargeRoundTrip(bits: nat, n: nat, k: nat)
    requires bits > 0 && n >= Shl(1, bits)
    ensures Truncated(Scaled(RoundLarge(bits, n, 1, 0), k)) == Shl(n, k) <==> Representable(bits, n)
  {
    var m, e := RoundedLarge(bits, n);
    TruncatedUp(m, e, k);
    ShlEqual(Shl(m, e), n, k);
  }

  lemma SmallRoundTrip(bits: nat, down: nat, n: nat, k: nat)
    requires bits > 0 && n < Shl(1, bits)
    ensures Truncated(Scaled(RoundSmall(bits, n, 1, down, 0), k)) == Shl(n, k) && Representable(bits, n)
  {
    assert n == Shl(n, 0);
    SmallIsExact(bits, n, 0, down);
    BelowExact(n, bits);
    assert Fits(bits, n, n, 0);
    TruncatedDown(n, -RoundSmall(bits, n, 1, down, 0).exp, k);
  }

  /** Reading a whole number, scaling it and truncating gives the exact product exactly when the
      number is representable. */
  lemma RoundTripExact(bits: nat, down: nat, n: nat, k: nat)
    requires bits > 0
    ensures Truncated(Scaled(Round(bits, down, n, 1), k)) == Shl(n, k) <==> Representable(bits, n)
  {
    if n >= Shl(1, bits) { LargeRoundTrip(bits, n, k); } else { SmallRoundTrip(bits, down, n, k); }
  }

  lemma RepresentableUp(bits: nat, c: nat, k: nat)
    requires Representable(bits, c)
    ensures Representable(bits, Shl(c, k))
  {
    var m: nat, j: nat :| Fits(bits, c, m, j);
    ShlAdd(m, j, k);
    assert Fits(bits, Shl(c, k), m, j + k);
  }

  lemma FitsDown(bits: nat, c: nat, k: nat, m: nat, j: nat)
    requires Fits(bits, Shl(c, k), m, j)
    ensures j >= k ==> Fits(bits, c, m, j - k)
    ensures j < k ==> Fits(bits, c, c, 0)
  {
    if j >= k {
      ShlAdd(m, j - k, k);
      ShlEqual(c, Shl(m, j - k), k);
    } else {
      ShlAdd(c, k - j, j);
      ShlEqual(Shl(c, k - j), m, j);
      BelowExact(m, bits);
      BelowExact(c, bits);
    }
  }

  lemma RepresentableDown(bits: nat, c: nat, k: nat)
    requires Representable(bits, Shl(c, k))
    ensures Representable(bits, c)
  {
    var m: nat, j: nat :| Fits(bits, Shl(c, k), m, j);
    FitsDown(bits, c, k, m, j);
  }

  lemma SmallFits(bits: nat, n: nat)
    requires Below(n, bits)
    ensures Representable(bits, n)
  {
    assert n == Shl(n, 0);
    assert Fits(bits, n, n, 0);
  }

  /** One more than a power of two that needs a bit too many. */
  lemma FirstLost(bits: nat, n: nat)
    requires bits > 0 && n == Shl(1, bits) + 1
    ensures !Representable(bits, n)
  {
    var b := Shl(1, 1);
    assert b == 2 * Shl(1, 0) && Shl(1, bits) == 2 * Shl(1, bits - 1);
    assert n % b == 1 && Shl(1, bits - 1 + 1) <= n;
    if Representable(bits, n) {
      FitsDivided(bits, n, b - 1);
    }
  }
}

/** Text forms of the command line client: memory sizes. */
module MemorySize {
  import opened Common
  import opened Powers
  import opened Floats

  /** Double precision. */
  const Bits: nat := 53
  const Down: nat := 1074
  const MaxBits: nat := 1024

  // ---------------------------------------------------------------------------- decimals

  predicate IsDigit(c: char) { '0' <= c <= '9' }

  predicate AllDigits(s: string) { forall i :: 0 <= i < |s| ==> IsDigit(s[i]) }

  function ToNat(s: string): nat
    requires AllDigits(s)
  {
    if s == [] then 0 else ToNat(s[..|s|-1]) * 10 + (s[|s|-1] as int - '0' as int)
  }

  function Decimal(n: nat): (s: string)
    ensures s != [] && AllDigits(s)
  {
    (if n < 10 then [] else Decimal(n / 10)) + [('0' as int + n % 10) as char]
  }

  lemma {:induction false} DecimalRoundTrip(n: nat)
    ensures ToNat(Decimal(n)) == n
  {
    var s := Decimal(n);
    if n < 10 {
      assert s[..|s|-1] == [];
    } else {
      assert s[..|s|-1] == Decimal(n / 10);
      DecimalRoundTrip(n / 10);
    }
  }

  // ---------------------------------------------------------------------------- sizes as text

  const Units := ['k', 'm', 'g', 't', 'p']

  predicate IsSpace(c: char) { 9 <= c as int <= 13 || 28 <= c as int <= 32 }

  function Lower(c: char): char { if 'A' <= c <= 'Z' then (c as int + 32) as char else c }

  function StripLeft(s: string): string {
    if s != [] && IsSpace(s[0]) then StripLeft(s[1..]) else s
  }

  function StripRight(s: string): string {
    if s != [] && IsSpace(s[|s|-1]) then StripRight(s[..|s|-1]) else s
  }

  function Strip(s: string): string { StripRight(StripLeft(s)) }

  function DigitSpan(s: string, k: nat): (r: nat)
    requires k <= |s|
    ensures k <= r <= |s| && AllDigits(s[k..r])
    decreases |s| - k
  {
    if k < |s| && IsDigit(s[k]) then
      var r := DigitSpan(s, k + 1);
      assert s[k..r] == [s[k]] + s[k+1..r];
      r
    else k
  }

  /** The exponent a unit stands for; None when it is no unit. A unit is a letter, optionally
      followed by b or ib, or just b, in any case. */
  function UnitExponent(u: string): Option<nat> {
    if u == [] || (|u| == 1 && Lower(u[0]) == 'b') then Some(0)
    else if !(|u| == 1 || (|u| == 2 && Lower(u[1]) == 'b') ||
              (|u| == 3 && Lower(u[1]) == 'i' && Lower(u[2]) == 'b')) then None
    else
      match Lower(u[0])
      case 'k' => Some(10)
      case 'm' => Some(20)
      case 'g' => Some(30)
      case 't' => Some(40)
      case 'p' => Some(50)
      case _ => None
  }

  /** A number: its digits read as a whole, how many of them are decimals, and the unit. */
  datatype Size = Size(digits: nat, decimals: nat, exponent: nat)

  function ParseSize(entry: string): Option<Size> { ParseText(Strip(entry)) }

  function ParseText(text: string): Option<Size> {
    var i := DigitSpan(text, 0);
    if i == 0 then None
    else if i < |text| && text[i] == '.' then AfterPoint(text, i)
    else WithUnit(text[..i], [], text[i..])
  }

  function AfterPoint(text: string, i: nat): Option<Size>
    requires i < |text| && AllDigits(text[..i])
  {
    var j := DigitSpan(text, i + 1);
    if j == i + 1 then None else WithUnit(text[..i], text[i+1..j], text[j..])
  }

  function WithUnit(d: string, e: string, rest: string): Option<Size>
    requires AllDigits(d) && AllDigits(e)
  {
    var unit := UnitExponent(StripLeft(rest));
    if unit.None? then None else Some(Size(ToNat(d + e), |e|, unit.value))
  }

  function LowerAll(s: string): (r: string)
    ensures |r| == |s|
  {
    seq(|s|, i requires 0 <= i < |s| => Lower(s[i]))
  }

  /** The ways to write a unit, in lower case. */
  function Spellings(exponent: nat): set<string> {
    match exponent
    case 0 => {"", "b"}
    case 10 => {"k", "kb", "kib"}
    case 20 => {"m", "mb", "mib"}
    case 30 => {"g", "gb", "gib"}
    case 40 => {"t", "tb", "tib"}
    case 50 => {"p", "pb", "pib"}
    case _ => {}
  }

  lemma LowerOne(s: string)
    ensures |s| == 1 ==> LowerAll(s) == [Lower(s[0])]
    ensures |s| == 2 ==> LowerAll(s) == [Lower(s[0]), Lower(s[1])]
    ensures |s| == 3 ==> LowerAll(s) == [Lower(s[0]), Lower(s[1]), Lower(s[2])]
  {
  }

  /** A unit is read exactly when it is one of the spellings, in any case. */
  lemma UnitExact(u: string, exponent: nat)
    ensures UnitExponent(u) == Some(exponent) <==> LowerAll(u) in Spellings(exponent)
  {
    LowerOne(u);
    var l := LowerAll(u);
    assert l == "" <==> u == "";
    assert |l| == 1 ==> l == [l[0]];
    assert |l| == 2 ==> l == [l[0], l[1]];
    assert |l| == 3 ==> l == [l[0], l[1], l[2]];
  }

  /** The grammar: digits, perhaps a point and more digits, blanks, a unit. */
  predicate Written(text: string, d: string, dot: bool, e: string, blanks: string, u: string, size: Size) {
    && text == d + (if dot then ['.'] + e else []) + blanks + u
    && d != [] && AllDigits(d) && AllDigits(e) && (dot <==> e != [])
    && (forall c :: c in blanks ==> IsSpace(c))
    && UnitExponent(u) == Some(size.exponent)
    && size.decimals == |e| && size.digits == ToNat(d + e)
  }

  lemma {:induction false} SpanTo(s: string, k: nat, r: nat)
    requires k <= r <= |s| && AllDigits(s[k..r]) && (r < |s| ==> !IsDigit(s[r]))
    ensures DigitSpan(s, k) == r
    decreases r - k
  {
    if k < r {
      assert s[k..r][0] == s[k] && s[k..r][1..] == s[k+1..r];
      SpanTo(s, k + 1, r);
    }
  }

  lemma {:induction false} StripBlanks(blanks: string, u: string)
    requires (forall c :: c in blanks ==> IsSpace(c)) && (u != [] ==> !IsSpace(u[0]))
    ensures StripLeft(blanks + u) == u
  {
    if blanks == [] {
      assert blanks + u == u;
    } else {
      assert (blanks + u)[1..] == blanks[1..] + u;
      StripBlanks(blanks[1..], u);
    }
  }

  lemma {:induction false} StripLeftParts(s: string) returns (blanks: string)
    ensures s == blanks + StripLeft(s) && forall c :: c in blanks ==> IsSpace(c)
  {
    if s != [] && IsSpace(s[0]) {
      var more := StripLeftParts(s[1..]);
      blanks := [s[0]] + more;
    } else {
      blanks := [];
    }
  }

  lemma UnitStartsWithLetter(u: string)
    requires UnitExponent(u).Some? && u != []
    ensures !IsSpace(u[0]) && !IsDigit(u[0]) && u[0] != '.'
  {
  }

  lemma RestStarts(blanks: string, u: string)
    requires (forall c :: c in blanks ==> IsSpace(c)) && UnitExponent(u).Some?
    ensures var rest := blanks + u;
            (rest != [] ==> !IsDigit(rest[0]) && rest[0] != '.') && StripLeft(rest) == u
  {
    if u != [] { UnitStartsWithLetter(u); }
    StripBlanks(blanks, u);
    assert blanks == [] ==> blanks + u == u;
    assert blanks != [] ==> blanks[0] in blanks;
  }

  lemma PlainParses(text: string, d: string, rest: string, exponent: nat)
    requires text == d + rest && d != [] && AllDigits(d) && (rest != [] ==> !IsDigit(rest[0]) && rest[0] != '.')
    requires UnitExponent(StripLeft(rest)) == Some(exponent)
    ensures ParseText(text) == Some(Size(ToNat(d), 0, exponent))
  {
    assert text[0..|d|] == d && text[..|d|] == d && text[|d|..] == rest && d + [] == d;
    SpanTo(text, 0, |d|);
  }

  lemma PointParses(text: string, d: string, e: string, rest: string, exponent: nat)
    requires text == d + (['.'] + e) + rest && d != [] && AllDigits(d) && e != [] && AllDigits(e)
    requires rest != [] ==> !IsDigit(rest[0])
    requires UnitExponent(StripLeft(rest)) == Some(exponent)
    ensures ParseText(text) == Some(Size(ToNat(d + e), |e|, exponent))
  {
    PointSlices(text, d, e, rest);
    SpanTo(text, 0, |d|);
    AfterPointParses(text, d, e, rest);
  }

  lemma AfterPointParses(text: string, d: string, e: string, rest: string)
    requires text == d + (['.'] + e) + rest && AllDigits(d) && e != [] && AllDigits(e)
    requires rest != [] ==> !IsDigit(rest[0])
    ensures |d| < |text| && text[..|d|] == d && AfterPoint(text, |d|) == WithUnit(d, e, rest)
  {
    PointSlices(text, d, e, rest);
    SpanTo(text, |d| + 1, |d| + 1 + |e|);
  }

  lemma PointSlices(text: string, d: string, e: string, rest: string)
    requires text == d + (['.'] + e) + rest
    ensures var i, j := |d|, |d| + 1 + |e|;
            && text[0..i] == d && text[..i] == d && text[i] == '.' && text[i+1..j] == e && text[j..] == rest
            && (rest != [] ==> j < |text| && text[j] == rest[0])
  {
  }

  lemma WrittenParses(text: string, d: string, dot: bool, e: string, blanks: string, u: string, size: Size)
    requires Written(text, d, dot, e, blanks, u, size)
    ensures ParseText(text) == Some(size)
  {
    RestStarts(blanks, u);
    if dot {
      assert text == d + (['.'] + e) + (blanks + u);
      PointParses(text, d, e, blanks + u, size.exponent);
    } else {
      assert text == d + (blanks + u) && d + [] == d;
      PlainParses(text, d, blanks + u, size.exponent);
    }
  }

  lemma ParsedIsWritten(text: string) returns (d: string, dot: bool, e: string, blanks: string, u: string)
    requires ParseText(text).Some?
    ensures Written(text, d, dot, e, blanks, u, ParseText(text).value)
  {
    var i := DigitSpan(text, 0);
    dot := i < |text| && text[i] == '.';
    d := text[..i];
    assert text[0..i] == d && d + [] == d;
    if dot {
      var j := DigitSpan(text, i + 1);
      e, u := text[i+1..j], StripLeft(text[j..]);
      blanks := StripLeftParts(text[j..]);
      SplitAtPoint(text, i, j);
      Regroup4(d, ['.'] + e, blanks, u, text);
    } else {
      e, u := [], StripLeft(text[i..]);
      blanks := StripLeftParts(text[i..]);
      assert text == d + text[i..];
      Regroup4(d, [], blanks, u, text);
    }
  }

  lemma SplitAtPoint(text: string, i: nat, j: nat)
    requires i < j <= |text| && text[i] == '.'
    ensures text == text[..i] + (['.'] + text[i+1..j]) + text[j..]
  {
  }

  lemma Regroup4(d: string, e: string, blanks: string, u: string, text: string)
    requires text == d + e + (blanks + u)
    ensures text == d + e + blanks + u
  {
  }

  /** A size is read exactly when it is written by the grammar, with the value the grammar gives it. */
  lemma ParseTextExact(text: string, size: Size)
    ensures ParseText(text) == Some(size) <==> exists d, dot, e, blanks, u :: Written(text, d, dot, e, blanks, u, size)
  {
    if ParseText(text) == Some(size) {
      var d, dot, e, blanks, u := ParsedIsWritten(text);
    }
    forall d, dot, e, blanks, u | Written(text, d, dot, e, blanks, u, size) ensures ParseText(text) == Some(size) {
      WrittenParses(text, d, dot, e, blanks, u, size);
    }
  }

  datatype SizeError = Malformed | TooLarge

  function MemoryToBytes(entry: string): Result<nat, SizeError> {
    match ParseSize(entry)
    case None => Err(Malformed)
    case Some(size) =>
      var product := Scaled(Round(Bits, Down, size.digits, Pow10(size.decimals)), size.exponent);
      if Below(Truncated(product), MaxBits) then Ok(Truncated(product)) else Err(TooLarge)
  }

  /** Powers of 1024. */
  function UnitSize(u: nat): (m: nat)
    ensures m > 0
  {
    match u
    case 1 => 1024
    case 2 => 1048576
    case 3 => 1073741824
    case 4 => 1099511627776
    case 5 => 1125899906842624
    case _ => 1
  }

  lemma Shl10(x: nat)
    ensures Shl(x, 10) == 1024 * x
  {
    assert Shl(x, 2) == 2 * Shl(x, 1) == 4 * Shl(x, 0);
    assert Shl(x, 4) == 2 * Shl(x, 3) == 4 * Shl(x, 2);
    assert Shl(x, 6) == 2 * Shl(x, 5) == 4 * Shl(x, 4);
    assert Shl(x, 8) == 2 * Shl(x, 7) == 4 * Shl(x, 6);
    assert Shl(x, 10) == 2 * Shl(x, 9) == 4 * Shl(x, 8);
  }

  lemma {:induction false} UnitIsShift(x: nat, u: nat)
    requires u <= 5
    ensures Shl(x, 10 * u) == UnitSize(u) * x
  {
    if u > 0 {
      UnitIsShift(x, u - 1);
      ShlAdd(x, 10 * (u - 1), 10);
      Shl10(UnitSize(u - 1) * x);
      assert UnitSize(u) == 1024 * UnitSize(u - 1);
      Regroup(UnitSize(u - 1), x);
    }
  }

  lemma Regroup(a: nat, x: nat)
    ensures 1024 * (a * x) == (1024 * a) * x
  {
  }

  /** The largest unit that divides `count`, 0 when none does. */
  function UnitFor(count: nat, u: nat): (r: nat)
    requires u <= 5
    ensures r <= u && (r > 0 ==> count >= UnitSize(r) && count % UnitSize(r) == 0)
  {
    if u == 0 then 0
    else if count >= UnitSize(u) && count % UnitSize(u) == 0 then u
    else UnitFor(count, u - 1)
  }

  /** ... and how often. */
  function HowMany(count: nat): (c: nat) {
    var u := UnitFor(count, 5);
    if u == 0 then count else count / UnitSize(u)
  }

  function FormatBytes(count: nat): string {
    var u := UnitFor(count, 5);
    Decimal(HowMany(count)) + (if u == 0 then [] else [Units[u - 1]])
  }

  lemma UnitTimesHowMany(count: nat)
    ensures count == UnitSize(UnitFor(count, 5)) * HowMany(count)
  {
    var u := UnitFor(count, 5);
    assert u <= 5;
  }

  lemma NoSpaces(s: string)
    requires forall i :: 0 <= i < |s| ==> !IsSpace(s[i])
    ensures Strip(s) == s && StripLeft(s) == s
  {
  }

  lemma ParseDigits(d: string)
    requires d != [] && AllDigits(d)
    ensures ParseSize(d) == Some(Size(ToNat(d), 0, 0))
  {
    NoSpaces(d);
    assert d == d + [];
    PlainParses(d, d, [], 0);
  }

  lemma ParseUnit(d: string, u: nat)
    requires d != [] && AllDigits(d) && 1 <= u <= 5
    ensures ParseSize(d + [Units[u - 1]]) == Some(Size(ToNat(d), 0, 10 * u))
  {
    var unit := [Units[u - 1]];
    NoSpaces(d + unit);
    NoSpaces(unit);
    UnitLetter(u);
    PlainParses(d + unit, d, unit, 10 * u);
  }

  lemma UnitLetter(u: nat)
    requires 1 <= u <= 5
    ensures UnitExponent([Units[u - 1]]) == Some(10 * u)
  {
  }

  lemma ParseFormatted(count: nat)
    ensures ParseSize(FormatBytes(count)) == Some(Size(HowMany(count), 0, 10 * UnitFor(count, 5)))
  {
    var u, c := UnitFor(count, 5), HowMany(count);
    if u == 0 { ParseDigits(Decimal(c)); } else { ParseUnit(Decimal(c), u); }
    assert Decimal(c) + [] == Decimal(c);
    DecimalRoundTrip(c);
  }

  /** A byte count survives being formatted and read back exactly when it is below 2^1024 and 53
      bits hold it up to a power of two. */
  lemma FormatRoundTripExact(count: nat)
    ensures MemoryToBytes(FormatBytes(count)) == Ok(count) <==> Representable(Bits, count) && Below(count, MaxBits)
  {
    var u, c := UnitFor(count, 5), HowMany(count);
    ParseFormatted(count);
    UnitTimesHowMany(count);
    UnitIsShift(c, u);
    RoundTripExact(Bits, Down, c, 10 * u);
    if Representable(Bits, c) { RepresentableUp(Bits, c, 10 * u); }
    if Representable(Bits, Shl(c, 10 * u)) { RepresentableDown(Bits, c, 10 * u); }
    assert Pow10(0) == 1;
  }

  /** ... in particular every count below 2^53 does. */
  lemma SmallCountsRoundTrip(count: nat)
    requires Below(count, Bits)
    ensures MemoryToBytes(FormatBytes(count)) == Ok(count)
  {
    SmallFits(Bits, count);
    BelowMore(count, Bits, MaxBits);
    FormatRoundTripExact(count);
  }

  /** The first count that does not: 2^53 + 1. */
  lemma FirstThatDoesNot(count: nat)
    requires count == Shl(1, Bits) + 1
    ensures MemoryToBytes(FormatBytes(count)) != Ok(count)
  {
    FirstLost(Bits, count);
    FormatRoundTripExact(count);
  }
}
