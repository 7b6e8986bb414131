/** Residues modulo a positive integer, and powers. */
module ModArith {

  /** Quotient and remainder are unique. */
  lemma DivModUnique(a: int, m: int, q: int, r: int)
    requires m > 0 && a == m * q + r && 0 <= r < m
    ensures a / m == q && a % m == r
  {
    var q', r' := a / m, a % m;
    assert a == m * q' + r';
    assert m * (q - q') == r' - r;
    assert m * (q' - q) == r - r';
    if q > q' {
      MulAtLeast(m, q - q');
    } else if q < q' {
      MulAtLeast(m, q' - q);
    }
  }

  lemma DivNonnegative(x: int, m: int)
    requires x >= 0 && m > 0
    ensures 0 <= x / m <= x
  {
    var q, r := x / m, x % m;
    assert x == m * q + r && 0 <= r < m;
    if q < 0 { MulAtLeast(m, -q); } else if q > 0 { MulAtLeast(q, m); }
  }

  lemma MulAtLeast(m: int, k: int)
    requires m > 0 && k >= 1
    ensures m * k >= m
  {
    assert m * k == m * (k - 1) + m;
    assert m * (k - 1) >= 0;
  }

  /** Adding a multiple of the modulus keeps the residue. */
  lemma ModShift(a: int, k: int, m: int)
    requires m > 0
    ensures (a + m * k) % m == a % m
  {
    assert a + m * k == m * (a / m + k) + a % m by {
      assert a == m * (a / m) + a % m;
      assert m * (a / m + k) == m * (a / m) + m * k;
    }
    DivModUnique(a + m * k, m, a / m + k, a % m);
  }

  lemma DivDiv(a: int, b: int, c: int)
    requires b > 0 && c > 0
    ensures b * c > 0 && a / (b * c) == (a / b) / c
  {
    var q, r := a / b, a % b;
    var q', r' := q / c, q % c;
    assert a == b * q + r && q == c * q' + r';
    Distribute(c * q', r', b);
    Rotate(b, c, q');
    assert a == (b * c) * q' + (b * r' + r);
    assert b * r' + b <= b * c by { Distribute(r' + 1, c - r' - 1, b); }
    DivModUnique(a, b * c, q', b * r' + r);
  }

  lemma ModIdem(a: int, m: int)
    requires m > 0
    ensures (a % m) % m == a % m
  {
    DivModUnique(a % m, m, 0, a % m);
  }

  lemma ModAdd(a: int, b: int, m: int)
    requires m > 0
    ensures (a + b) % m == (a % m + b % m) % m
  {
    assert a + b == (a % m + b % m) + m * (a / m + b / m) by {
      assert a == m * (a / m) + a % m && b == m * (b / m) + b % m;
      assert m * (a / m + b / m) == m * (a / m) + m * (b / m);
    }
    ModShift(a % m + b % m, a / m + b / m, m);
  }

  lemma ModSub(a: int, b: int, m: int)
    requires m > 0
    ensures (a - b) % m == (a % m - b % m) % m
  {
    assert a - b == (a % m - b % m) + m * (a / m - b / m) by {
      assert a == m * (a / m) + a % m && b == m * (b / m) + b % m;
      assert m * (a / m - b / m) == m * (a / m) - m * (b / m);
    }
    ModShift(a % m - b % m, a / m - b / m, m);
  }

  lemma ModMulLeft(a: int, b: int, m: int)
    requires m > 0
    ensures (a * b) % m == ((a % m) * b) % m
  {
    var q, r := a / m, a % m;
    assert a * b == r * b + m * (q * b) by {
      assert a == m * q + r;
      assert (m * q + r) * b == m * q * b + r * b;
      assert m * q * b == m * (q * b);
    }
    ModShift(r * b, q * b, m);
  }

  lemma ModMul(a: int, b: int, m: int)
    requires m > 0
    ensures (a * b) % m == ((a % m) * (b % m)) % m
  {
    ModMulLeft(a, b, m);
    assert (a % m) * b == b * (a % m);
    ModMulLeft(b, a % m, m);
    assert (b % m) * (a % m) == (a % m) * (b % m);
  }

  /** Equal residues differ by a multiple of the modulus. */
  lemma ModEqualMultiple(a: int, b: int, m: int) returns (k: int)
    requires m > 0 && a % m == b % m
    ensures a == b + m * k
  {
    k := a / m - b / m;
    assert a == m * (a / m) + a % m && b == m * (b / m) + b % m;
    assert m * (a / m - b / m) == m * (a / m) - m * (b / m);
  }

  // distributivity, one instance at a time
  lemma Distribute(x: int, y: int, z: int)
    ensures (x + y) * z == x * z + y * z
    ensures z * (x + y) == z * x + z * y
  { }

  lemma Rotate(x: int, y: int, z: int)
    ensures x * (y * z) == y * (x * z) == (x * y) * z
  { }

  lemma MulExchange(a: int, b: int, x: int, y: int)
    ensures (a * b) * (x * y) == (a * x) * (b * y)
  {
    calc {
      (a * b) * (x * y);
      a * (b * (x * y));
      { assert b * (x * y) == x * (b * y); }
      a * (x * (b * y));
      (a * x) * (b * y);
    }
  }

  function Pow(b: int, e: nat): int
    decreases e
  {
    if e == 0 then 1 else b * Pow(b, e - 1)
  }

  lemma {:induction false} PowAdd(b: int, m: nat, n: nat)
    ensures Pow(b, m + n) == Pow(b, m) * Pow(b, n)
    decreases m
  {
    if m == 0 {
    } else {
      PowAdd(b, m - 1, n);
      assert Pow(b, m + n) == b * Pow(b, m - 1 + n);
      assert b * (Pow(b, m - 1) * Pow(b, n)) == (b * Pow(b, m - 1)) * Pow(b, n);
    }
  }

  lemma {:induction false} PowMul(b: int, m: nat, n: nat)
    ensures m * n >= 0 && Pow(b, m * n) == Pow(Pow(b, m), n)
    decreases n
  {
    if n == 0 {
    } else {
      PowMul(b, m, n - 1);
      assert m * n == m + m * (n - 1);
      PowAdd(b, m, m * (n - 1));
    }
  }

  lemma {:induction false} PowProduct(a: int, b: int, n: nat)
    ensures Pow(a * b, n) == Pow(a, n) * Pow(b, n)
    decreases n
  {
    if n != 0 {
      PowProduct(a, b, n - 1);
      MulExchange(a, b, Pow(a, n - 1), Pow(b, n - 1));
    }
  }

  /** The base of a power may be reduced first. */
  lemma {:induction false} PowMod(b: int, n: nat, m: int)
    requires m > 0
    ensures Pow(b % m, n) % m == Pow(b, n) % m
    decreases n
  {
    if n != 0 {
      PowMod(b, n - 1, m);
      ModMul(b, Pow(b, n - 1), m);
      ModMul(b % m, Pow(b % m, n - 1), m);
      ModIdem(b, m);
    }
  }
}
