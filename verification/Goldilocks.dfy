/** The Goldilocks field the circuits are built over, as the integers 0..P-1. */
module Goldilocks {
  import Arith

  const P: int := 0xffff_ffff_0000_0001
  const TWO_32: int := 0x1_0000_0000

  type Felt = x: int | 0 <= x < P

  const NEG_ONE: Felt := P - 1

  function Add(a: Felt, b: Felt): Felt {
    (a + b) % P
  }

  function Sub(a: Felt, b: Felt): Felt {
    (a - b) % P
  }

  /** The field element an integer stands for. */
  function Encode(i: int): Felt {
    i % P
  }

  lemma EncodeSmall(i: int)
    ensures 0 <= i < P ==> Encode(i) == i
    ensures Encode(-1) == NEG_ONE
  {
  }

  /** Two integers of one window of P consecutive values are told apart by their encodings. */
  lemma EncodeInjective(lo: int, a: int, b: int)
    requires lo <= a < lo + P && lo <= b < lo + P
    ensures Encode(a) == Encode(b) <==> a == b
  {
    if Encode(a) == Encode(b) {
      assert (a - b) % P == 0;
    }
  }

  lemma EncodeAdd(a: int, b: int)
    ensures Add(Encode(a), Encode(b)) == Encode(a + b)
    ensures Sub(Encode(a), Encode(b)) == Encode(a - b)
  {
    Arith.DivMod(a, P);
    Arith.DivMod(b, P);
    SameRemainder(Encode(a) + Encode(b), a + b, a / P + b / P);
    SameRemainder(Encode(a) - Encode(b), a - b, a / P - b / P);
  }

  lemma SameRemainder(a: int, b: int, turns: int)
    requires b == a + P * turns
    ensures a % P == b % P
  {
    Arith.DivMod(a, P);
    Arith.DivModUnique(b, P, a / P + turns, a % P);
  }
}
