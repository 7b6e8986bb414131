/** The Montgomery ladder of section 5 of RFC 7748, over integers modulo 2^255 - 19. */
module Ladder {
  import opened ModArith
  import opened Field25519

  datatype State = State(x2: elem, z2: elem, x3: elem, z3: elem)

  function Start(u: elem): State {
    State(1, 0, u, 1)
  }

  /** One doubling and one differential addition. */
  function Step(u: elem, s: State): State {
    var a, b := FAdd(s.x2, s.z2), FSub(s.x2, s.z2);
    var aa, bb := FSquare(a), FSquare(b);
    var e := FSub(aa, bb);
    var c, d := FAdd(s.x3, s.z3), FSub(s.x3, s.z3);
    var da, cb := FMul(d, a), FMul(c, b);
    State(FMul(aa, bb), FMul(e, FAdd(aa, FMul(121665, e))),
          FSquare(FAdd(da, cb)), FMul(u, FSquare(FSub(da, cb))))
  }

  function CSwap(swap: bool, s: State): State {
    if swap then State(s.x3, s.z3, s.x2, s.z2) else s
  }

  /** Bits are consumed from the front, most significant first; swaps are put off as in the RFC. */
  function RfcLadder(u: elem, bits: seq<bool>, s: State, swap: bool): State
    decreases |bits|
  {
    if bits == [] then CSwap(swap, s)
    else RfcLadder(u, bits[1..], Step(u, CSwap(swap != bits[0], s)), bits[0])
  }

  /** The X25519 function on a string of scalar bits. */
  function X25519(u: elem, bits: seq<bool>): elem {
    var s := RfcLadder(u, bits, Start(u), false);
    FMul(s.x2, FPow(s.z2, P - 2))
  }

  /** A ladder that swaps before each step and swaps back right after it. */
  function EagerStep(u: elem, bit: bool, s: State): State {
    CSwap(bit, Step(u, CSwap(bit, s)))
  }

  function EagerLadder(u: elem, bits: seq<bool>, s: State): State
    decreases |bits|
  {
    if bits == [] then s
    else EagerLadder(u, bits[1..], EagerStep(u, bits[0], s))
  }

  /** Eager swaps compute what deferred swaps compute. */
  lemma {:induction false} EagerIsRfc(u: elem, bits: seq<bool>, s: State, swap: bool)
    ensures RfcLadder(u, bits, s, swap) == EagerLadder(u, bits, CSwap(swap, s))
    decreases |bits|
  {
    hide Step;
    if bits != [] {
      assert CSwap(swap != bits[0], s) == CSwap(bits[0], CSwap(swap, s));
      EagerIsRfc(u, bits[1..], Step(u, CSwap(swap != bits[0], s)), bits[0]);
    }
  }

  lemma SquareOfNegated(a: elem, b: elem)
    ensures FSquare(FSub(a, b)) == FSquare(FSub(b, a))
  {
    ModMul(a - b, a - b, P);
    ModMul(b - a, b - a, P);
    assert (a - b) * (a - b) == (b - a) * (b - a);
  }

  lemma MulCommutes(a: elem, b: elem)
    ensures FMul(a, b) == FMul(b, a)
  { }

  lemma AddCommutes(a: elem, b: elem)
    ensures FAdd(a, b) == FAdd(b, a)
  { }
}
