/** Powers of two and binary logarithms. */
module Powers {
  function Pow2(n: nat): (r: nat)
    ensures r > 0
  {
    if n == 0 then 1 else 2 * Pow2(n - 1)
  }

  function Log2(f: nat): nat
    requires f > 0
  {
    if f == 1 then 0 else 1 + Log2(f / 2)
  }

  lemma {:induction false} Log2Bounds(f: nat)
    requires f > 0
    ensures Pow2(Log2(f)) <= f < Pow2(Log2(f) + 1)
  {
    if f > 1 {
      Log2Bounds(f / 2);
    }
  }

  lemma {:induction false} Pow2Grows(a: nat, b: nat)
    requires a <= b
    ensures Pow2(a) <= Pow2(b)
  {
    if a < b {
      Pow2Grows(a, b - 1);
    }
  }

  lemma {:induction false} Pow2Sum(a: nat, b: nat)
    ensures Pow2(a + b) == Pow2(a) * Pow2(b)
  {
    if b > 0 {
      Pow2Sum(a, b - 1);
      assert Pow2(a + b) == 2 * Pow2(a + (b - 1));
    }
  }

  lemma Log2Unique(f: nat, k: nat)
    requires f > 0 && Pow2(k) <= f < Pow2(k + 1)
    ensures Log2(f) == k
  {
    Log2Bounds(f);
    if Log2(f) < k {
      Pow2Grows(Log2(f) + 1, k);
    } else if Log2(f) > k {
      Pow2Grows(k + 1, Log2(f));
    }
  }

  lemma {:induction false} Log2Grows(a: nat, b: nat)
    requires 0 < a <= b
    ensures Log2(a) <= Log2(b)
  {
    Log2Bounds(a);
    Log2Bounds(b);
    if Log2(b) < Log2(a) {
      Pow2Grows(Log2(b) + 1, Log2(a));
    }
  }

  lemma Pow2Small()
    ensures Pow2(1) == 2 && Pow2(2) == 4 && Pow2(8) == 256
  {
  }

  lemma Pow2At26()
    ensures Pow2(26) == 0x400_0000
  {
    hide Pow2;
    Pow2Small();
    Pow2Sum(8, 8);
    Pow2Sum(16, 8);
    Pow2Sum(24, 2);
  }

  lemma Pow2At32()
    ensures Pow2(32) == 0x1_0000_0000
  {
    hide Pow2;
    Pow2Small();
    Pow2Sum(8, 8);
    Pow2Sum(16, 16);
  }

  // ---------------------------------------------------------------- bit tests

  /** `&` on natural numbers. */
  function And(x: nat, y: nat): nat {
    if x == 0 || y == 0 then 0 else 2 * And(x / 2, y / 2) + if x % 2 == 1 && y % 2 == 1 then 1 else 0
  }

  lemma {:induction false} AndSelf(x: nat)
    ensures And(x, x) == x
  {
    if x > 0 {
      AndSelf(x / 2);
    }
  }

  /** `is_pow_of_2` */
  predicate IsPowOf2(x: int) { x > 0 && And(x, x - 1) == 0 }

  /** The bit test finds exactly the powers of two. */
  lemma {:induction false} PowOf2Test(x: int)
    ensures IsPowOf2(x) <==> x > 0 && x == Pow2(Log2(x))
    decreases if x > 0 then x else 0
  {
    if x > 1 {
      var y := x / 2;
      LogUnfold(x);
      hide Pow2, Log2;
      if x % 2 == 0 {
        assert (x - 1) / 2 == y - 1 && (x - 1) % 2 == 1;
        PowOf2Test(y);
      } else {
        assert (x - 1) / 2 == y;
        AndSelf(y);
      }
    }
  }

  lemma LogUnfold(x: nat)
    requires x > 1
    ensures Log2(x) == 1 + Log2(x / 2) && Pow2(Log2(x)) == 2 * Pow2(Log2(x / 2))
  {
  }

  /** The number of zero bits below the lowest one bit. */
  function TrailingZeros(x: nat): nat
    requires x > 0
  {
    if x % 2 == 1 then 0 else 1 + TrailingZeros(x / 2)
  }

  /** `ctz`: the loop shifts until one bit is left. */
  method Ctz(x: nat) returns (imm: nat)
    requires x > 0
    ensures imm == Log2(x)
    ensures imm == TrailingZeros(x) <==> IsPowOf2(x)
  {
    imm := 0;
    var cnt := x;
    while cnt > 1
      invariant cnt > 0 && Log2(x) == imm + Log2(cnt)
    {
      imm := imm + 1;
      cnt := cnt / 2;
    }
    CtzExact(x);
  }

  /** It counts trailing zeros exactly for powers of two; for other numbers it counts too many. */
  lemma {:induction false} CtzExact(x: nat)
    requires x > 0
    ensures TrailingZeros(x) <= Log2(x)
    ensures TrailingZeros(x) == Log2(x) <==> IsPowOf2(x)
  {
    PowOf2Test(x);
    if x % 2 == 0 {
      CtzExact(x / 2);
      PowOf2Test(x / 2);
    } else if x > 1 {
      LogUnfold(x);
    }
  }
}
