/** Arithmetic modulo a fixed number. */
module Modular {
  lemma NoSmallMultiple(m: nat, e: int)
    requires 0 <= m * e < m
    ensures m * e == 0
  {
    if e > 0 {
      assert m * e == m + m * (e - 1);
    }
  }

  lemma RemainderUnique(x: int, m: nat, q: int, r: nat)
    requires r < m && x == m * q + r
    ensures x % m == r
  {
    var e := q - x / m;
    assert x == m * (x / m) + x % m;
    assert m * e == x % m - r;
    if x % m >= r {
      NoSmallMultiple(m, e);
    } else {
      assert m * -e == r - x % m;
      NoSmallMultiple(m, -e);
    }
  }

  lemma MultipleOf(m: nat, q: int)
    requires m > 0
    ensures (m * q) % m == 0
  {
    RemainderUnique(m * q, m, q, 0);
  }

  lemma OddAfterEven(n: nat)
    requires n % 2 == 0
    ensures (n + 1) % 2 == 1
  {
    RemainderUnique(n + 1, 2, n / 2, 1);
  }

  lemma EvenAddress(load: nat, n: nat)
    requires load % 4 == 0
    ensures (load + 2 * n) % 2 == 0
  {
    var q := load / 4;
    assert load == 4 * q;
    RemainderUnique(load + 2 * n, 2, 2 * q + n, 0);
  }

  lemma WordAddress(load: nat, j: nat)
    requires load % 4 == 0 && j % 2 == 0
    ensures (load + 2 * j) % 4 == 0
  {
    var q, r := load / 4, j / 2;
    assert load == 4 * q && j == 2 * r;
    RemainderUnique(load + 2 * j, 4, q + r, 0);
  }

  lemma AddMod(x: int, y: int, m: nat)
    requires m > 0
    ensures (x % m + y) % m == (x + y) % m
  {
    var s := x % m + y;
    assert s == m * (s / m) + s % m;
    assert x == m * (x / m) + x % m;
    assert x + y == m * (x / m + s / m) + s % m;
    RemainderUnique(x + y, m, x / m + s / m, s % m);
  }

  lemma AddMultiple(x: int, m: nat, q: int)
    requires m > 0
    ensures (x + m * q) % m == x % m
  {
    MultipleOf(m, q);
    AddMod(m * q, x, m);
  }

  lemma ShiftMod(x: int, y: int, z: int, m: nat)
    requires m > 0 && x % m == y % m
    ensures (x + z) % m == (y + z) % m
  {
    AddMod(x, z, m);
    AddMod(y, z, m);
  }

  lemma CancelMod(x: int, y: int, z: int, m: nat)
    requires m > 0
    ensures (x + z) % m == (y + z) % m <==> x % m == y % m
  {
    if x % m == y % m {
      ShiftMod(x, y, z, m);
    } else if (x + z) % m == (y + z) % m {
      ShiftMod(x + z, y + z, -z, m);
    }
  }

  lemma BelowOne(m: nat, e: int)
    requires m * e < m
    ensures e <= 0
  {
    assert m * e == m + m * (e - 1);
  }

  /** Rounding down stays above any lower multiple. */
  lemma RoundDown(x: nat, align: nat, k: nat)
    requires align > 0 && k * align <= x
    ensures k * align <= x - x % align && (x - x % align) % align == 0
  {
    var q := x / align;
    assert x - x % align == align * q;
    assert align * (k - q) <= x % align;
    BelowOne(align, k - q);
    assert align * k <= align * q;
    MultipleOf(align, q);
  }
}
