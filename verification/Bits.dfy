/** Powers of two and C's bitwise operators on non-negative integers, defined bit by bit. */
module Bits {

  function Exp2(n: nat): (r: nat)
    ensures r >= 1
  {
    if n == 0 then 1 else 2 * Exp2(n - 1)
  }

  lemma {:induction false} Exp2Add(m: nat, n: nat)
    ensures Exp2(m + n) == Exp2(m) * Exp2(n)
  {
    if m == 0 {
    } else {
      Exp2Add(m - 1, n);
      assert Exp2(m + n) == 2 * Exp2(m - 1 + n) && Exp2(m) == 2 * Exp2(m - 1);
      hide Exp2;
      assert 2 * (Exp2(m - 1) * Exp2(n)) == (2 * Exp2(m - 1)) * Exp2(n);
    }
  }

  function And(a: nat, b: nat): nat
    decreases a
  {
    if a == 0 || b == 0 then 0
    else 2 * And(a / 2, b / 2) + (if a % 2 == 1 && b % 2 == 1 then 1 else 0)
  }

  function Or(a: nat, b: nat): nat
    decreases a + b
  {
    if a == 0 && b == 0 then 0
    else 2 * Or(a / 2, b / 2) + (if a % 2 == 1 || b % 2 == 1 then 1 else 0)
  }

  function Xor(a: nat, b: nat): nat
    decreases a + b
  {
    if a == 0 && b == 0 then 0
    else 2 * Xor(a / 2, b / 2) + (if a % 2 != b % 2 then 1 else 0)
  }

  /** `a & (2^k - 1)` keeps the low k bits. */
  lemma {:induction false} AndMask(k: nat, low: nat, high: nat)
    requires low < Exp2(k)
    ensures And(low + high * Exp2(k), Exp2(k) - 1) == low
    decreases k
  {
    if k == 0 {
    } else {
      var e := Exp2(k - 1);
      assert high * Exp2(k) == 2 * (high * e);
      AndMask(k - 1, low / 2, high);
      var a := low + high * Exp2(k);
      assert a / 2 == low / 2 + high * e && a % 2 == low % 2;
      assert (Exp2(k) - 1) / 2 == e - 1 && (Exp2(k) - 1) % 2 == 1;
    }
  }

  /** `|` of two numbers that share no bit is their sum. */
  lemma {:induction false} OrDisjoint(k: nat, low: nat, high: nat)
    requires low < Exp2(k)
    ensures Or(low, high * Exp2(k)) == low + high * Exp2(k)
    decreases k
  {
    if k == 0 {
      OrZero(high);
    } else {
      var e := Exp2(k - 1);
      assert high * Exp2(k) == 2 * (high * e);
      OrDisjoint(k - 1, low / 2, high);
      assert (high * Exp2(k)) / 2 == high * e;
    }
  }

  /** The low k bits of the first number, over the or of what lies above them. */
  lemma {:induction false} OrAbove(k: nat, low: nat, high: nat, over: nat)
    requires low < Exp2(k)
    ensures Or(low + high * Exp2(k), over * Exp2(k)) == low + Or(high, over) * Exp2(k)
    decreases k
  {
    if k > 0 {
      var e := Exp2(k - 1);
      assert Exp2(k) == 2 * e;
      hide Exp2, Or;
      OrAbove(k - 1, low / 2, high, over);
      Doubled(high, e);
      Doubled(over, e);
      Doubled(Or(high, over), e);
      OrDoubled(low, high * e, over * e, Or(high, over) * e);
    }
  }

  lemma Doubled(x: nat, e: nat)
    ensures x * (2 * e) == 2 * (x * e) >= 0
  { }

  lemma OrDoubled(low: nat, x: nat, y: nat, r: nat)
    requires Or(low / 2 + x, y) == low / 2 + r
    ensures Or(low + 2 * x, 2 * y) == low + 2 * r
  {
    hide Or;
    OrHalves(low + 2 * x, 2 * y);
    assert (low + 2 * x) / 2 == low / 2 + x && (low + 2 * x) % 2 == low % 2;
  }

  lemma OrHalves(a: nat, b: nat)
    ensures Or(a, b) == 2 * Or(a / 2, b / 2) + (if a % 2 == 1 || b % 2 == 1 then 1 else 0)
  { }

  lemma {:induction false} OrZero(a: nat)
    ensures Or(0, a) == a
  {
    if a != 0 { OrZero(a / 2); }
  }

  lemma {:induction false} AndCommutes(a: nat, b: nat)
    ensures And(a, b) == And(b, a)
    decreases a
  {
    if a != 0 && b != 0 { AndCommutes(a / 2, b / 2); }
  }

  lemma {:induction false} AndBound(k: nat, a: nat, b: nat)
    requires a < Exp2(k)
    ensures And(a, b) < Exp2(k)
    decreases k
  {
    if k != 0 { AndBound(k - 1, a / 2, b / 2); }
  }

  lemma {:induction false} XorZero(a: nat)
    ensures Xor(a, 0) == a
  {
    if a != 0 { XorZero(a / 2); }
  }

  lemma {:induction false} XorXor(a: nat, b: nat)
    ensures Xor(a, Xor(a, b)) == b
    ensures Xor(b, Xor(a, b)) == a
    decreases a + b
  {
    if a == 0 && b == 0 {
    } else {
      XorXor(a / 2, b / 2);
      var x := Xor(a, b);
      assert x / 2 == Xor(a / 2, b / 2);
    }
  }

  lemma {:induction false} XorBound(k: nat, a: nat, b: nat)
    requires a < Exp2(k) && b < Exp2(k)
    ensures Xor(a, b) < Exp2(k)
    decreases k
  {
    if k != 0 { XorBound(k - 1, a / 2, b / 2); }
  }
}
