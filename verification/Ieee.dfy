/** Double-precision bit patterns as the comparer looks at them: classifiers, the exponent, and
    the rescaling of denormals by the underflow adjustment of the PowerPC.
 */
module Ieee {
  import opened Powers

  const P52 := 0x10_0000_0000_0000
  const P63 := 0x8000_0000_0000_0000
  const P64 := 0x1_0000_0000_0000_0000

  /** The 64 bits of a register. */
  type Double = n: int | 0 <= n < P64

  // ---------------------------------------------------------------- fields and classes

  function Sign(n: Double): int { n / P63 }

  function ExpField(n: Double): (e: nat)
    ensures e < 2048
  {
    (n / P52) % 2048
  }

  function Frac(n: Double): (f: nat)
    ensures f < P52
  {
    n % P52
  }

  /** Everything but the sign; ordered like the magnitude of the number. */
  function Magnitude(n: Double): nat { n % P63 }

  const INFINITY := 0x7FF0_0000_0000_0000
  const QUIET := 0x7FF8_0000_0000_0000

  predicate Zero(n: Double) { Magnitude(n) == 0 }
  predicate Denormal(n: Double) { ExpField(n) == 0 && Magnitude(n) != 0 }
  predicate Negative(n: Double) { n >= P63 }
  predicate Infinite(n: Double) { Magnitude(n) == INFINITY }
  predicate IsNan(n: Double) { Magnitude(n) > INFINITY }
  predicate IsQNan(n: Double) { Magnitude(n) == QUIET }
  predicate AnyQNan(n: Double) { Magnitude(n) >= QUIET }
  predicate NegAnyQNan(n: Double) { n >= P63 + QUIET }
  function SignedZero(n: Double): Double { if Negative(n) then P63 else 0 }
  function SignedInfinity(n: Double): Double { if Negative(n) then P63 + INFINITY else INFINITY }

  /** `mantissa`: the fraction, with a leading bit added to numbers that have none. */
  function Mantissa(n: Double): nat { Frac(n) + if ExpField(n) == 0 then P52 else 0 }

  /** A difference of patterns as a signed 64-bit number. */
  function SignedDiff(a: int, b: int): int {
    var d := (a - b) % P64;
    if d >= P63 then d - P64 else d
  }

  /** `ABS`, which wraps on the smallest number. */
  function Abs64(d: int): int { if d < 0 && d != -P63 then -d else d }

  /** The two tests of a distance against a tolerance, signed and unsigned. */
  predicate Near(a: int, b: int, k: nat) { Abs64(SignedDiff(a, b)) <= k }
  predicate NearUnsigned(a: int, b: int, k: nat) { Abs64(SignedDiff(a, b)) % P64 <= k }

  /** The signed test lets two numbers pass that differ in nothing but the sign, whatever the
      tolerance, because their difference has no absolute value; the unsigned test does not. */
  lemma NearMeans(a: Double, b: Double, k: nat)
    requires k < P63
    ensures Near(a, b, k) <==> 0 - k <= SignedDiff(a, b) <= k || (a != b && Magnitude(a) == Magnitude(b))
    ensures NearUnsigned(a, b, k) <==> 0 - k <= SignedDiff(a, b) <= k
  {
  }

  /** The three fields make up the pattern. */
  lemma FieldsOf(n: Double)
    ensures n == Sign(n) * P63 + ExpField(n) * P52 + Frac(n)
    ensures Sign(n) == 0 || Sign(n) == 1
    ensures Magnitude(n) == ExpField(n) * P52 + Frac(n)
    ensures Negative(n) <==> Sign(n) == 1
  {
    var q := n / P52;
    assert n == q * P52 + Frac(n);
    assert q == Sign(n) * 2048 + ExpField(n);
  }

  /** The pattern with the given fields. */
  function Pack(s: nat, e: nat, f: nat): (n: Double)
    requires s <= 1 && e < 2048 && f < P52
    ensures Sign(n) == s && ExpField(n) == e && Frac(n) == f
  {
    var n := s * P63 + e * P52 + f;
    assert n / P52 == s * 2048 + e;
    assert n % P52 == f;
    n
  }

  // ---------------------------------------------------------------- powers of two

  lemma Pow2At52()
    ensures Pow2(52) == P52
    ensures Pow2(53) == 2 * P52
  {
    hide Pow2;
    Pow2At26();
    Pow2Sum(26, 26);
    Pow2Sum(52, 1);
    Pow2Small();
  }

  // ---------------------------------------------------------------- exponent

  /** What `exponent` returns. */
  function ExponentOf(n: Double): int {
    if Zero(n) then -4096
    else if ExpField(n) == 2047 then 4096
    else if ExpField(n) == 0 then (FieldsOf(n); Log2(Frac(n)) - 1075)
    else ExpField(n) - 1023
  }

  lemma DoubledOnce(f: nat, x: nat, shifts: nat)
    requires x > 0 && x == f * Pow2(shifts)
    ensures 2 * x == f * Pow2(shifts + 1)
    ensures Log2(2 * x) == Log2(x) + 1
  {
    assert (2 * x) / 2 == x;
    Assoc(2, f, Pow2(shifts));
    Assoc(f, 2, Pow2(shifts));
  }

  /** The shift loop shared by `exponent` and `normalize`: the number of doublings that bring a
      fraction up to 2^52, and the result. */
  method ShiftUp(f: nat) returns (x: nat, shifts: nat)
    requires 0 < f < P52
    ensures P52 <= x < 2 * P52
    ensures x == f * Pow2(shifts)
    ensures shifts + Log2(f) == 52
  {
    hide Log2;
    x, shifts := f, 0;
    while x < P52
      invariant 0 < x < 2 * P52
      invariant x == f * Pow2(shifts)
      invariant Log2(x) == Log2(f) + shifts
      decreases P52 - x
    {
      hide Pow2;
      DoubledOnce(f, x, shifts);
      x, shifts := 2 * x, shifts + 1;
    }
    Pow2At52();
    Log2Unique(x, 52);
  }

  method Exponent(n: Double) returns (e: int)
    ensures e == ExponentOf(n)
  {
    if Zero(n) {
      return -4096;
    }
    e := ExpField(n);
    if e == 2047 {
      return 4096;
    }
    if e == 0 {
      FieldsOf(n);
      var x, shifts := ShiftUp(Frac(n));
      e := e - shifts;
    }
    return e - 1023;
  }

  lemma Log2Below52(f: nat)
    requires 0 < f < P52
    ensures Log2(f) <= 51
  {
    Pow2At52();
    Log2Bounds(f);
    if Log2(f) >= 52 {
      Pow2Grows(52, Log2(f));
    }
  }

  /** Below the smallest normal exponent are exactly the zeros and the denormals. */
  lemma TinyExponent(n: Double)
    ensures ExponentOf(n) < -1022 <==> Zero(n) || Denormal(n)
    ensures Denormal(n) ==> -1075 <= ExponentOf(n) <= -1024
  {
    FieldsOf(n);
    if Denormal(n) {
      Log2Below52(Frac(n));
    }
  }

  /** A larger magnitude never has a smaller exponent, over all bit patterns. */
  lemma ExponentMonotone(a: Double, b: Double)
    requires Magnitude(a) <= Magnitude(b)
    ensures ExponentOf(a) <= ExponentOf(b)
  {
    FieldsOf(a);
    FieldsOf(b);
    TinyExponent(a);
    TinyExponent(b);
    if !Zero(a) {
      if ExpField(b) == 0 {
        assert ExpField(a) == 0;
        Log2Grows(Frac(a), Frac(b));
      } else {
        assert ExpField(a) <= ExpField(b);
      }
    }
  }

  // ---------------------------------------------------------------- numeric value

  /** The absolute value of a finite double in units of 2^-1074. */
  function Units(n: Double): nat {
    if ExpField(n) == 0 then Frac(n) else (P52 + Frac(n)) * Pow2(ExpField(n) - 1)
  }

  /** What the returned exponent says about the value: exact for normal numbers, one too small for
      denormals. */
  lemma ExponentMeaning(n: Double)
    requires !Zero(n) && ExpField(n) < 2047
    ensures var e := ExponentOf(n) + 1074 + (if Denormal(n) then 1 else 0);
      e >= 0 && Pow2(e) <= Units(n) < Pow2(e + 1)
  {
    FieldsOf(n);
    if Denormal(n) {
      Log2Bounds(Frac(n));
    } else {
      var k := ExpField(n) - 1;
      Pow2At52();
      Pow2Sum(52, k);
      Pow2Sum(53, k);
      Scale(P52, P52 + Frac(n), 2 * P52, Pow2(k));
    }
  }

  lemma Scale(a: nat, x: nat, b: nat, p: nat)
    requires a <= x < b && p > 0
    ensures a * p <= x * p < b * p
  {
    assert (x - a) * p >= 0 && (b - x) * p > 0;
  }

  // ---------------------------------------------------------------- normalize

  /** The exponent adjustment of a double underflow. */
  const UNDERFLOW_ADJUST := 1536

  lemma NormalizedFrac(f: nat)
    requires 0 < f < P52
    ensures Log2(f) <= 51
    ensures P52 <= f * Pow2(52 - Log2(f)) < 2 * P52
  {
    Log2Below52(f);
    Log2Bounds(f);
    var k := Log2(f);
    Pow2Sum(k, 52 - k);
    Pow2Sum(k + 1, 52 - k);
    Pow2At52();
    Scale(Pow2(k), f, Pow2(k + 1), Pow2(52 - k));
  }

  /** What `normalize` returns: a denormal's fraction shifted up until it has a leading one, with
      the adjusted exponent. */
  function NormalizeOf(n: Double): (r: Double)
    ensures Denormal(n) ==> Sign(r) == Sign(n)
  {
    if !Denormal(n) then n
    else
      FieldsOf(n);
      NormalizedFrac(Frac(n));
      var k := Log2(Frac(n));
      Pack(Sign(n), UNDERFLOW_ADJUST + 1 - (52 - k), Frac(n) * Pow2(52 - k) - P52)
  }

  method Normalize(n: Double) returns (r: Double)
    ensures r == NormalizeOf(n)
  {
    hide Pow2, Log2, Sign, Frac, Pack;
    if !Denormal(n) {
      return n;
    }
    FieldsOf(n);
    NormalizedFrac(Frac(n));
    var x, shifts := ShiftUp(Frac(n));
    assert shifts == 52 - Log2(Frac(n));
    LeadingOneGone(x);
    r := Pack(Sign(n), UNDERFLOW_ADJUST + 1 - shifts, x % P52);
  }

  lemma LeadingOneGone(x: nat)
    requires P52 <= x < 2 * P52
    ensures x % P52 == x - P52
  {
  }

  /** The rescaled denormal is a normal number of the same sign worth exactly 2^1536 times as
      much; every other pattern is left alone. */
  lemma NormalizeExact(n: Double)
    ensures !Denormal(n) ==> NormalizeOf(n) == n
    ensures Denormal(n) ==>
      && Sign(NormalizeOf(n)) == Sign(n)
      && 0 < ExpField(NormalizeOf(n)) < 2047
      && Units(NormalizeOf(n)) == Units(n) * Pow2(UNDERFLOW_ADJUST)
  {
    if Denormal(n) {
      FieldsOf(n);
      var f := Frac(n);
      NormalizedFrac(f);
      var k := 52 - Log2(f);
      NormalizedFields(n, k);
      Regroup(f, k, UNDERFLOW_ADJUST);
    }
  }

  lemma NormalizedFields(n: Double, k: nat)
    requires Denormal(n) && Frac(n) > 0 && Log2(Frac(n)) <= 51 && k == 52 - Log2(Frac(n))
    ensures ExpField(NormalizeOf(n)) == UNDERFLOW_ADJUST + 1 - k
    ensures P52 + Frac(NormalizeOf(n)) == Frac(n) * Pow2(k)
  {
    hide Log2, Pow2;
    FieldsOf(n);
    NormalizedFrac(Frac(n));
  }

  lemma Regroup(f: nat, k: nat, n: nat)
    requires k <= n
    ensures (f * Pow2(k)) * Pow2(n - k) == f * Pow2(n)
  {
    Pow2Sum(k, n - k);
    Assoc(f, Pow2(k), Pow2(n - k));
  }

  lemma Assoc(a: nat, b: nat, c: nat)
    ensures (a * b) * c == a * (b * c)
  {
  }
}
