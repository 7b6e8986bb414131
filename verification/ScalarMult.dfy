/** fmonty, swap_conditional and cmult: scalar multiplication on limb arrays. */
module ScalarMult {
  import opened Bytes
  import opened Bits
  import opened ModArith
  import opened Limbs
  import opened Field25519
  import opened FieldProduct
  import opened FieldReduce
  import opened FieldOps
  import opened Ladder
  import opened Scalar

  /** x becomes x + z and z becomes x - z. */
  method SumAndDifference(x: array<limb>, z: array<limb>)
    requires x.Length == 19 && z.Length == 19 && x != z
    requires PairRoomy(x[..], z[..])
    modifies x, z
    ensures Elem(x[..]) == FAdd(old(Elem(x[..])), old(Elem(z[..])))
    ensures Elem(z[..]) == FSub(old(Elem(x[..])), old(Elem(z[..])))
    ensures Roomy(x[..10]) && Roomy(z[..10])
  {
    hide *;
    var origx := new limb[10];
    CopyTen(origx, x);
    SwappedPair(origx[..], x[..], z[..]);
    FSum(x, z);
    FDifference(z, origx);
  }

  lemma SwappedPair(orig: seq<limb>, x: seq<limb>, z: seq<limb>)
    requires PairRoomy(x, z) && |orig| >= 10 && orig[..10] == x[..10]
    ensures PairRoomy(z, orig)
  {
    assert forall i :: 0 <= i < 10 ==> orig[i] == orig[..10][i] == x[..10][i] == x[i];
  }

  /** The first half of fmonty: x3 and z3 from Q, Q' (as sums and differences) and Q - Q'. */
  method DifferentialAdd(x3: array<limb>, z3: array<limb>, x: array<limb>, z: array<limb>,
                         xprime: array<limb>, zprime: array<limb>, qmqp: array<limb>)
    requires x3.Length == z3.Length == x.Length == z.Length == xprime.Length == zprime.Length == 19
    requires qmqp.Length >= 10
    requires x3 != z3 && {x3, z3} !! {x, z, xprime, zprime, qmqp}
    requires Roomy(x[..10]) && Roomy(z[..10]) && Roomy(xprime[..10]) && Roomy(zprime[..10]) && Roomy(qmqp[..10])
    modifies x3, z3
    ensures NearlyReduced(x3[..]) && NearlyReduced(z3[..])
    ensures var cb := FMul(Elem(xprime[..]), Elem(z[..]));
            var da := FMul(Elem(x[..]), Elem(zprime[..]));
            && Elem(x3[..]) == FSquare(FAdd(cb, da))
            && Elem(z3[..]) == FMul(FSquare(FSub(cb, da)), Elem(qmqp[..]))
  {
    hide *;
    var xxprime, zzprime := new limb[19], new limb[19];
    var xxxprime, zzzprime := new limb[19], new limb[19];
    ProductReduced(xxprime, xprime, z);
    ProductReduced(zzprime, x, zprime);
    ReducedPair(xxprime[..], zzprime[..]);
    SumAndDifference(xxprime, zzprime);
    SquareReduced(xxxprime, xxprime);
    SquareReduced(zzzprime, zzprime);
    ReducedPair(zzzprime[..], zzzprime[..]);
    assert zzzprime[..][..10] == zzzprime[..10];
    ProductReduced(zzprime, zzzprime, qmqp);
    CopyTen(x3, xxxprime);
    CopyTen(z3, zzprime);
  }

  /** memset of the nine limbs above the tenth. */
  method ClearHigh(a: array<limb>)
    requires a.Length == 19
    modifies a
    ensures a[..10] == old(a[..10]) && forall i :: 10 <= i < 19 ==> a[i] == 0
  {
    forall i | 10 <= i < 19 { a[i] := 0; }
  }

  /** The second half of fmonty: x2 and z2 from Q, as sum and difference. */
  method Double(x2: array<limb>, z2: array<limb>, x: array<limb>, z: array<limb>)
    requires x2.Length == z2.Length == x.Length == z.Length == 19
    requires x2 != z2 && {x2, z2} !! {x, z}
    requires Roomy(x[..10]) && Roomy(z[..10])
    modifies x2, z2
    ensures NearlyReduced(x2[..]) && NearlyReduced(z2[..])
    ensures var aa, bb := FSquare(Elem(x[..])), FSquare(Elem(z[..]));
            var e := FSub(aa, bb);
            && Elem(x2[..]) == FMul(aa, bb)
            && Elem(z2[..]) == FMul(e, FAdd(FMul(121665, e), aa))
  {
    hide *;
    var xx, zz, zzz := new limb[19], new limb[19], new limb[19];
    SquareReduced(xx, x);
    SquareReduced(zz, z);
    ReducedPair(xx[..], zz[..]);
    ReducedPair(zz[..], xx[..]);
    assert xx[..][..10] == xx[..10] && zz[..][..10] == zz[..10];
    ProductReduced(x2, xx, zz);
    FDifference(zz, xx);
    ClearHigh(zzz);
    FScalarProduct(zzz, zz, 121665);
    FReduceCoefficients(zzz);
    ReducedPair(zzz[..], xx[..]);
    FSum(zzz, xx);
    ProductReduced(z2, zz, zzz);
  }

  method FMonty(x2: array<limb>, z2: array<limb>, x3: array<limb>, z3: array<limb>,
                x: array<limb>, z: array<limb>, xprime: array<limb>, zprime: array<limb>, qmqp: array<limb>)
    requires x2.Length == z2.Length == x3.Length == z3.Length == 19
    requires x.Length == z.Length == xprime.Length == zprime.Length == 19 && qmqp.Length >= 10
    requires x2 != z2 && x2 != x3 && x2 != z3 && z2 != x3 && z2 != z3 && x3 != z3
    requires x != z && x != xprime && x != zprime && z != xprime && z != zprime && xprime != zprime
    requires {x2, z2, x3, z3} !! {x, z, xprime, zprime} && qmqp !in {x2, z2, x3, z3, x, z, xprime, zprime}
    requires PairRoomy(x[..], z[..]) && PairRoomy(xprime[..], zprime[..]) && Roomy(qmqp[..10])
    modifies x2, z2, x3, z3, x, z, xprime, zprime
    ensures State(Elem(x2[..]), Elem(z2[..]), Elem(x3[..]), Elem(z3[..])) ==
            Step(Elem(qmqp[..]), old(State(Elem(x[..]), Elem(z[..]), Elem(xprime[..]), Elem(zprime[..]))))
    ensures NearlyReduced(x2[..]) && NearlyReduced(z2[..]) && NearlyReduced(x3[..]) && NearlyReduced(z3[..])
  {
    hide *;
    ghost var s := State(Elem(x[..]), Elem(z[..]), Elem(xprime[..]), Elem(zprime[..]));
    SumAndDifference(x, z);
    SumAndDifference(xprime, zprime);
    DifferentialAdd(x3, z3, x, z, xprime, zprime, qmqp);
    Double(x2, z2, x, z);
    StepCommuted(Elem(qmqp[..]), s);
  }

  /** Step with the operands in the order in which the code multiplies and adds them. */
  lemma StepCommuted(u: elem, s: State)
    ensures
      var a, b := FAdd(s.x2, s.z2), FSub(s.x2, s.z2);
      var c, d := FAdd(s.x3, s.z3), FSub(s.x3, s.z3);
      var aa, bb := FSquare(a), FSquare(b);
      var e := FSub(aa, bb);
      var cb, da := FMul(c, b), FMul(a, d);
      Step(u, s) == State(FMul(aa, bb), FMul(e, FAdd(FMul(121665, e), aa)),
                          FSquare(FAdd(cb, da)), FMul(FSquare(FSub(cb, da)), u))
  {
    var a, b := FAdd(s.x2, s.z2), FSub(s.x2, s.z2);
    var c, d := FAdd(s.x3, s.z3), FSub(s.x3, s.z3);
    var aa := FSquare(a);
    var e := FSub(aa, FSquare(b));
    var cb, da := FMul(c, b), FMul(a, d);
    MulCommutes(a, d);
    AddCommutes(cb, da);
    SquareOfNegated(cb, da);
    AddCommutes(FMul(121665, e), aa);
    MulCommutes(FSquare(FSub(cb, da)), u);
    hide FAdd, FSub, FMul, FSquare;
  }

  // ----- the conditional swap, by masks -----

  lemma Exp2Of32()
    ensures Exp2(32) == 0x1_0000_0000
  {
    assert Exp2(8) == 0x100;
    Exp2Add(8, 8);
    Exp2Add(16, 16);
  }

  /** & and ^ of 32-bit two's complement integers. */
  function AndS32(a: s32, b: s32): s32 {
    Exp2Of32();
    AndBound(32, U32(a as int), U32(b as int));
    ToS32(And(U32(a as int), U32(b as int)))
  }

  function XorS32(a: s32, b: s32): s32 {
    Exp2Of32();
    XorBound(32, U32(a as int), U32(b as int));
    ToS32(Xor(U32(a as int), U32(b as int)))
  }

  lemma ToU32OfToS32(u: nat)
    requires u < 0x1_0000_0000
    ensures U32(ToS32(u) as int) == u
  { }

  lemma AndZero(u: nat)
    ensures And(0, u) == 0
  { }

  lemma AndWithMask(mask: s32, a: s32)
    requires mask == 0 || mask == -1
    ensures AndS32(mask, a) == if mask == 0 then 0 else a
  {
    hide Exp2, And;
    var u := U32(a as int);
    AndZero(u);
    Exp2Of32();
    if mask == -1 {
      AndMask(32, u, 0);
      AndCommutes(u, 0xffff_ffff);
    }
  }

  lemma XorTwice(a: s32, b: s32)
    ensures XorS32(a, XorS32(a, b)) == b && XorS32(b, XorS32(a, b)) == a
    ensures XorS32(a, 0) == a
  {
    hide Exp2, Xor;
    var u, v := U32(a as int), U32(b as int);
    Exp2Of32();
    XorBound(32, u, v);
    ToU32OfToS32(Xor(u, v));
    XorXor(u, v);
    XorZero(u);
  }

  /** The first ten limbs have magnitude below 2^31. */
  ghost predicate Words(s: seq<limb>) {
    |s| >= 10 && forall i :: 0 <= i < 10 ==> -0x8000_0000 < s[i] < 0x8000_0000
  }

  method SwapConditional(a: array<limb>, b: array<limb>, iswap: limb)
    requires a.Length >= 10 && b.Length >= 10 && a != b && (iswap == 0 || iswap == 1)
    requires Words(a[..]) && Words(b[..])
    modifies a, b
    ensures a[..10] == if iswap == 1 then old(b[..10]) else old(a[..10])
    ensures b[..10] == if iswap == 1 then old(a[..10]) else old(b[..10])
    ensures a[10..] == old(a[10..]) && b[10..] == old(b[10..])
  {
    hide AndS32, XorS32;
    var swap := (-iswap) as s32;
    var i := 0;
    while i < 10
      invariant 0 <= i <= 10
      invariant forall j :: 0 <= j < i ==> a[j] == if iswap == 1 then old(b[j]) else old(a[j])
      invariant forall j :: 0 <= j < i ==> b[j] == if iswap == 1 then old(a[j]) else old(b[j])
      invariant forall j :: i <= j < a.Length ==> a[j] == old(a[j])
      invariant forall j :: i <= j < b.Length ==> b[j] == old(b[j])
    {
      assert a[i] == old(a[..])[i] && b[i] == old(b[..])[i];
      var p, r := a[i] as s32, b[i] as s32;
      AndWithMask(swap, XorS32(p, r));
      XorTwice(p, r);
      XorTwice(r, p);
      var x := AndS32(swap, XorS32(p, r));
      a[i] := XorS32(p, x) as limb;
      b[i] := XorS32(r, x) as limb;
      i := i + 1;
    }
  }

  // ----- the ladder -----

  lemma PairWords(s: seq<limb>, t: seq<limb>)
    requires PairRoomy(s, t)
    ensures Words(s) && Words(t)
  {
    forall i | 0 <= i < 10
      ensures -0x8000_0000 < s[i] < 0x8000_0000 && -0x8000_0000 < t[i] < 0x8000_0000
    {
      RoomBound(s, t, i);
    }
  }

  lemma ReducedWords(s: seq<limb>)
    requires NearlyReduced(s)
    ensures Words(s)
  {
    ReducedPair(s, s);
    PairWords(s, s);
  }

  /** Swapping x with xprime and z with zprime. */
  method SwapPoints(x: array<limb>, z: array<limb>, xprime: array<limb>, zprime: array<limb>, bit: limb)
    requires x.Length == z.Length == xprime.Length == zprime.Length == 19 && (bit == 0 || bit == 1)
    requires x != z && x != xprime && x != zprime && z != xprime && z != zprime && xprime != zprime
    requires Words(x[..]) && Words(z[..]) && Words(xprime[..]) && Words(zprime[..])
    modifies x, z, xprime, zprime
    ensures State(Elem(x[..]), Elem(z[..]), Elem(xprime[..]), Elem(zprime[..])) ==
            CSwap(bit == 1, old(State(Elem(x[..]), Elem(z[..]), Elem(xprime[..]), Elem(zprime[..]))))
    ensures x[..10] == old(if bit == 1 then xprime[..10] else x[..10])
    ensures z[..10] == old(if bit == 1 then zprime[..10] else z[..10])
    ensures xprime[..10] == old(if bit == 1 then x[..10] else xprime[..10])
    ensures zprime[..10] == old(if bit == 1 then z[..10] else zprime[..10])
  {
    hide Elem, Words;
    ghost var a, b, c, d := x[..], z[..], xprime[..], zprime[..];
    SwapConditional(x, xprime, bit);
    SwapConditional(z, zprime, bit);
    ElemOfTen(x[..], if bit == 1 then c else a);
    ElemOfTen(z[..], if bit == 1 then d else b);
    ElemOfTen(xprime[..], if bit == 1 then a else c);
    ElemOfTen(zprime[..], if bit == 1 then b else d);
  }

  lemma ElemOfTen(s: seq<limb>, t: seq<limb>)
    requires |s| >= 10 && |t| >= 10 && s[..10] == t[..10]
    ensures Elem(s) == Elem(t)
  { }

  lemma SwappedReady(swap: bool, a: seq<limb>, b: seq<limb>, c: seq<limb>, d: seq<limb>,
                     a': seq<limb>, b': seq<limb>, c': seq<limb>, d': seq<limb>)
    requires PairRoomy(a, b) && PairRoomy(c, d) && |a'| >= 10 && |b'| >= 10 && |c'| >= 10 && |d'| >= 10
    requires a'[..10] == if swap then c[..10] else a[..10]
    requires b'[..10] == if swap then d[..10] else b[..10]
    requires c'[..10] == if swap then a[..10] else c[..10]
    requires d'[..10] == if swap then b[..10] else d[..10]
    ensures PairRoomy(a', b') && PairRoomy(c', d')
  {
    if swap {
      SamePair(c, d, a', b');
      SamePair(a, b, c', d');
    } else {
      SamePair(a, b, a', b');
      SamePair(c, d, c', d');
    }
  }

  lemma SamePair(s: seq<limb>, t: seq<limb>, s': seq<limb>, t': seq<limb>)
    requires PairRoomy(s, t) && |s'| >= 10 && |t'| >= 10 && s'[..10] == s[..10] && t'[..10] == t[..10]
    ensures PairRoomy(s', t')
  {
    assert forall i :: 0 <= i < 10 ==> s'[i] == s'[..10][i] == s[..10][i] == s[i];
    assert forall i :: 0 <= i < 10 ==> t'[i] == t'[..10][i] == t[..10][i] == t[i];
  }

  lemma SwappedReduced(swap: bool, a: seq<limb>, c: seq<limb>, a': seq<limb>)
    requires NearlyReduced(a) && NearlyReduced(c) && |a'| >= 10
    requires a'[..10] == if swap then c[..10] else a[..10]
    ensures NearlyReduced(a')
  {
    var s := if swap then c else a;
    assert forall i :: 0 <= i < 10 ==> a'[i] == a'[..10][i] == s[..10][i] == s[i];
    SameTen(s, a');
  }

  /** The two point pairs of the ladder are eight different arrays of nineteen limbs. */
  predicate Apart(x: array<limb>, z: array<limb>, xprime: array<limb>, zprime: array<limb>,
                  x2: array<limb>, z2: array<limb>, x3: array<limb>, z3: array<limb>)
  {
    && x.Length == z.Length == xprime.Length == zprime.Length == 19
    && x2.Length == z2.Length == x3.Length == z3.Length == 19
    && x2 != z2 && x2 != x3 && x2 != z3 && z2 != x3 && z2 != z3 && x3 != z3
    && x != z && x != xprime && x != zprime && z != xprime && z != zprime && xprime != zprime
    && {x2, z2, x3, z3} !! {x, z, xprime, zprime}
  }

  /** One bit of the scalar: swap, step, swap back; the new points are left in the second set of arrays. */
  method LadderBit(nqx: array<limb>, nqz: array<limb>, nqpqx: array<limb>, nqpqz: array<limb>,
                   nqx2: array<limb>, nqz2: array<limb>, nqpqx2: array<limb>, nqpqz2: array<limb>,
                   q: array<limb>, bit: limb)
    requires Apart(nqx, nqz, nqpqx, nqpqz, nqx2, nqz2, nqpqx2, nqpqz2) && (bit == 0 || bit == 1)
    requires q.Length >= 10 && Roomy(q[..10])
    requires q !in {nqx, nqz, nqpqx, nqpqz, nqx2, nqz2, nqpqx2, nqpqz2}
    requires PairRoomy(nqx[..], nqz[..]) && PairRoomy(nqpqx[..], nqpqz[..])
    modifies nqx, nqz, nqpqx, nqpqz, nqx2, nqz2, nqpqx2, nqpqz2
    ensures State(Elem(nqx2[..]), Elem(nqz2[..]), Elem(nqpqx2[..]), Elem(nqpqz2[..])) ==
            EagerStep(Elem(q[..]), bit == 1,
                      old(State(Elem(nqx[..]), Elem(nqz[..]), Elem(nqpqx[..]), Elem(nqpqz[..]))))
    ensures NearlyReduced(nqx2[..]) && NearlyReduced(nqz2[..])
    ensures NearlyReduced(nqpqx2[..]) && NearlyReduced(nqpqz2[..])
  {
    hide Elem, Step, Words, PairRoomy, NearlyReduced, Roomy;
    PairWords(nqx[..], nqz[..]);
    PairWords(nqpqx[..], nqpqz[..]);
    ghost var a, b, c, d := nqx[..], nqz[..], nqpqx[..], nqpqz[..];
    SwapPoints(nqx, nqz, nqpqx, nqpqz, bit);
    SwappedReady(bit == 1, a, b, c, d, nqx[..], nqz[..], nqpqx[..], nqpqz[..]);
    FMonty(nqx2, nqz2, nqpqx2, nqpqz2, nqx, nqz, nqpqx, nqpqz, q);
    a, b, c, d := nqx2[..], nqz2[..], nqpqx2[..], nqpqz2[..];
    ReducedWords(a);
    ReducedWords(b);
    ReducedWords(c);
    ReducedWords(d);
    SwapPoints(nqx2, nqz2, nqpqx2, nqpqz2, bit);
    SwappedReduced(bit == 1, a, c, nqx2[..]);
    SwappedReduced(bit == 1, b, d, nqz2[..]);
    SwappedReduced(bit == 1, c, a, nqpqx2[..]);
    SwappedReduced(bit == 1, d, b, nqpqz2[..]);
  }

  /** The array {1}, as C initialises it. */
  const ONE: seq<limb> := [1, 0, 0, 0, 0, 0, 0, 0, 0, 0]

  lemma {:induction false} ElemSmall(s: seq<limb>)
    requires |s| >= 10 && 0 <= s[0] && forall i :: 1 <= i < 10 ==> s[i] == 0
    ensures Elem(s) == s[0] as int
  {
    var zeros := s[..10][0 := 0];
    ValueZeros(zeros);
    ValueUpdate(zeros, 0, s[0]);
    assert zeros[0 := s[0]] == s[..10];
    assert Weight(0) == 1;
    hide Value;
    DivModUnique(s[0] as int, P, 0, s[0] as int);
  }

  lemma StartRoomy(q: seq<limb>, a: seq<limb>, b: seq<limb>, c: seq<limb>, d: seq<limb>)
    requires PairRoomy(q, ONE) && |a| == |b| == |c| == |d| == 19 && a[..10] == q[..10]
    requires forall i :: 0 <= i < 19 ==> d[i] == 0 && b[i] == c[i] == if i == 0 then 1 else 0
    ensures PairRoomy(c, d) && PairRoomy(a, b)
    ensures State(Elem(c), Elem(d), Elem(a), Elem(b)) == Start(Elem(q))
  {
    ElemSmall(b);
    ElemSmall(c);
    ElemSmall(d);
    hide Value;
    assert b[..10] == ONE;
    SamePair(q, ONE, a, b);
  }

  /** The four arrays hold a ladder state from which the given bits lead to the goal. */
  ghost predicate Holding(x: array<limb>, z: array<limb>, xprime: array<limb>, zprime: array<limb>,
                          u: elem, bits: seq<bool>, goal: State, started: bool)
    reads x, z, xprime, zprime
  {
    && x.Length == z.Length == xprime.Length == zprime.Length == 19
    && PairRoomy(x[..], z[..]) && PairRoomy(xprime[..], zprime[..])
    && (started ==> NearlyReduced(x[..]) && NearlyReduced(z[..]))
    && goal == EagerLadder(u, bits, State(Elem(x[..]), Elem(z[..]), Elem(xprime[..]), Elem(zprime[..])))
  }

  /** One bit moves the ladder from the first set of arrays into the second. */
  method Advance(nqx: array<limb>, nqz: array<limb>, nqpqx: array<limb>, nqpqz: array<limb>,
                 nqx2: array<limb>, nqz2: array<limb>, nqpqx2: array<limb>, nqpqz2: array<limb>,
                 q: array<limb>, bit: limb, ghost bits: seq<bool>, ghost goal: State, ghost started: bool)
    requires Apart(nqx, nqz, nqpqx, nqpqz, nqx2, nqz2, nqpqx2, nqpqz2)
    requires q !in {nqx, nqz, nqpqx, nqpqz, nqx2, nqz2, nqpqx2, nqpqz2}
    requires q.Length >= 10 && Roomy(q[..10])
    requires (bit == 0 || bit == 1) && bits != [] && bits[0] == (bit == 1)
    requires Holding(nqx, nqz, nqpqx, nqpqz, Elem(q[..]), bits, goal, started)
    modifies nqx, nqz, nqpqx, nqpqz, nqx2, nqz2, nqpqx2, nqpqz2
    ensures Holding(nqx2, nqz2, nqpqx2, nqpqz2, Elem(q[..]), bits[1..], goal, true)
  {
    hide Elem, EagerStep, PairRoomy, NearlyReduced, Roomy;
    LadderBit(nqx, nqz, nqpqx, nqpqz, nqx2, nqz2, nqpqx2, nqpqz2, q, bit);
    ReducedPair(nqx2[..], nqz2[..]);
    ReducedPair(nqpqx2[..], nqpqz2[..]);
  }

  /** The eight rounds for one byte; the pointers exchange roles each round, so they end where they began. */
  method LadderByte(x: array<limb>, z: array<limb>, xprime: array<limb>, zprime: array<limb>,
                    x2: array<limb>, z2: array<limb>, x3: array<limb>, z3: array<limb>,
                    q: array<limb>, n: array<byte>, i: nat, ghost goal: State)
    requires n.Length == 32 && i < 32
    requires Apart(x, z, xprime, zprime, x2, z2, x3, z3)
    requires q !in {x, z, xprime, zprime, x2, z2, x3, z3} && q.Length >= 10 && Roomy(q[..10])
    requires Holding(x, z, xprime, zprime, Elem(q[..]), BitsOf(LittleEndian(n[..]), 8 * (32 - i)), goal, i > 0)
    modifies x, z, xprime, zprime, x2, z2, x3, z3
    ensures Holding(x, z, xprime, zprime, Elem(q[..]), BitsOf(LittleEndian(n[..]), 8 * (31 - i)), goal, true)
  {
    hide PairRoomy, Roomy, NearlyReduced, Elem, Holding, EagerLadder, BitsOf, LittleEndian, Shifted;
    ghost var u, k := Elem(q[..]), LittleEndian(n[..]);
    var nqx, nqz, nqpqx, nqpqz := x, z, xprime, zprime;
    var nqx2, nqz2, nqpqx2, nqpqz2 := x2, z2, x3, z3;
    var shifted := n[31 - i];
    ShiftedStart(shifted);
    var j := 0;
    while j < 8
      invariant 0 <= j <= 8
      invariant if j % 2 == 0
                then (nqx, nqz, nqpqx, nqpqz, nqx2, nqz2, nqpqx2, nqpqz2) == (x, z, xprime, zprime, x2, z2, x3, z3)
                else (nqx, nqz, nqpqx, nqpqz, nqx2, nqz2, nqpqx2, nqpqz2) == (x2, z2, x3, z3, x, z, xprime, zprime)
      invariant n[..] == old(n[..]) && q[..] == old(q[..])
      invariant shifted == Shifted(n[31 - i], j)
      invariant Holding(nqx, nqz, nqpqx, nqpqz, u, BitsOf(k, 8 * (32 - i) - j), goal, i > 0 || j > 0)
    {
      var bit := (shifted / 0x80) as limb;
      NextBit(n[..], i, j);
      Advance(nqx, nqz, nqpqx, nqpqz, nqx2, nqz2, nqpqx2, nqpqz2, q, bit,
              BitsOf(k, 8 * (32 - i) - j), goal, i > 0 || j > 0);
      nqx, nqx2 := nqx2, nqx;
      nqz, nqz2 := nqz2, nqz;
      nqpqx, nqpqx2 := nqpqx2, nqpqx;
      nqpqz, nqpqz2 := nqpqz2, nqpqz;
      ShiftedNext(n[31 - i], j);
      shifted := (shifted as int * 2 % 0x100) as byte;
      j := j + 1;
    }
  }

  method LadderBytes(x: array<limb>, z: array<limb>, xprime: array<limb>, zprime: array<limb>,
                     x2: array<limb>, z2: array<limb>, x3: array<limb>, z3: array<limb>,
                     q: array<limb>, n: array<byte>, ghost goal: State)
    requires n.Length == 32
    requires Apart(x, z, xprime, zprime, x2, z2, x3, z3)
    requires q !in {x, z, xprime, zprime, x2, z2, x3, z3} && q.Length >= 10 && Roomy(q[..10])
    requires Holding(x, z, xprime, zprime, Elem(q[..]), BitsOf(LittleEndian(n[..]), 256), goal, false)
    modifies x, z, xprime, zprime, x2, z2, x3, z3
    ensures Holding(x, z, xprime, zprime, Elem(q[..]), BitsOf(LittleEndian(n[..]), 0), goal, true)
  {
    hide PairRoomy, Roomy, NearlyReduced, Elem, Holding, EagerLadder, BitsOf, LittleEndian;
    var i := 0;
    while i < 32
      invariant 0 <= i <= 32
      invariant n[..] == old(n[..]) && q[..] == old(q[..])
      invariant Holding(x, z, xprime, zprime, Elem(q[..]), BitsOf(LittleEndian(n[..]), 8 * (32 - i)), goal, i > 0)
    {
      LadderByte(x, z, xprime, zprime, x2, z2, x3, z3, q, n, i, goal);
      i := i + 1;
    }
  }

  /** A local array {first}: the remaining limbs are zero. */
  method NewLimbs(first: limb) returns (a: array<limb>)
    ensures fresh(a) && a.Length == 19
    ensures forall i :: 0 <= i < 19 ==> a[i] == if i == 0 then first else 0
  {
    a := new limb[19](i => if i == 0 then first else 0);
  }

  method CMult(resultx: array<limb>, resultz: array<limb>, n: array<byte>, q: array<limb>)
    requires resultx.Length >= 10 && resultz.Length >= 10 && resultx != resultz
    requires n.Length == 32 && q.Length >= 10 && q != resultx && q != resultz
    requires Roomy(q[..10]) && PairRoomy(q[..], ONE)
    modifies resultx, resultz
    ensures NearlyReduced(resultx[..]) && NearlyReduced(resultz[..])
    ensures var u := Elem(q[..]);
            var s := RfcLadder(u, BitsOf(LittleEndian(n[..]), 256), Start(u), false);
            Elem(resultx[..]) == s.x2 && Elem(resultz[..]) == s.z2
  {
    hide PairRoomy, Roomy, NearlyReduced, Elem, Holding, EagerLadder, RfcLadder, BitsOf, LittleEndian, Start, ONE;
    var a := NewLimbs(0);
    CopyTen(a, q);
    var b := NewLimbs(1);
    var c := NewLimbs(1);
    var d := NewLimbs(0);
    ghost var u, k := Elem(q[..]), LittleEndian(n[..]);
    ghost var goal := EagerLadder(u, BitsOf(k, 256), Start(u));
    HoldingStart(q, a, b, c, d, k);
    LadderWithSpares(c, d, a, b, q, n, goal);
    HoldingEnd(c, d, a, b, u, k, goal);
    CopyTen(resultx, c);
    CopyTen(resultz, d);
    EagerIsRfc(u, BitsOf(k, 256), Start(u), false);
  }

  /** The rounds, with the second set of local arrays. */
  method LadderWithSpares(x: array<limb>, z: array<limb>, xprime: array<limb>, zprime: array<limb>,
                          q: array<limb>, n: array<byte>, ghost goal: State)
    requires n.Length == 32 && x.Length == z.Length == xprime.Length == zprime.Length == 19
    requires x != z && x != xprime && x != zprime && z != xprime && z != zprime && xprime != zprime
    requires q !in {x, z, xprime, zprime} && q.Length >= 10 && Roomy(q[..10])
    requires Holding(x, z, xprime, zprime, Elem(q[..]), BitsOf(LittleEndian(n[..]), 256), goal, false)
    modifies x, z, xprime, zprime
    ensures Holding(x, z, xprime, zprime, Elem(q[..]), BitsOf(LittleEndian(n[..]), 0), goal, true)
  {
    hide PairRoomy, Roomy, NearlyReduced, Elem, Holding, EagerLadder, BitsOf, LittleEndian;
    var e := NewLimbs(0);
    var f := NewLimbs(1);
    var g := NewLimbs(0);
    var h := NewLimbs(1);
    LadderBytes(x, z, xprime, zprime, g, h, e, f, q, n, goal);
  }

  lemma HoldingStart(q: array<limb>, a: array<limb>, b: array<limb>, c: array<limb>, d: array<limb>, k: nat)
    requires q.Length >= 10 && a.Length == b.Length == c.Length == d.Length == 19
    requires PairRoomy(q[..], ONE) && a[..10] == q[..10]
    requires forall i :: 0 <= i < 19 ==> d[i] == 0 && b[i] == c[i] == if i == 0 then 1 else 0
    ensures var u := Elem(q[..]);
            Holding(c, d, a, b, u, BitsOf(k, 256), EagerLadder(u, BitsOf(k, 256), Start(u)), false)
  {
    hide Elem, PairRoomy, EagerLadder, BitsOf;
    assert a[..][..10] == a[..10] && q[..][..10] == q[..10];
    StartRoomy(q[..], a[..], b[..], c[..], d[..]);
  }

  lemma HoldingEnd(x: array<limb>, z: array<limb>, xprime: array<limb>, zprime: array<limb>,
                   u: elem, k: nat, goal: State)
    requires Holding(x, z, xprime, zprime, u, BitsOf(k, 0), goal, true)
    ensures x.Length >= 10 && z.Length >= 10 && NearlyReduced(x[..]) && NearlyReduced(z[..])
    ensures Elem(x[..]) == goal.x2 && Elem(z[..]) == goal.z2
  {
    hide Elem, PairRoomy, NearlyReduced;
  }
}
