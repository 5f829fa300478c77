/** Bytes, their exclusive or, and sequences of them. */
module Bytes {

  /** An 8-bit byte.  It wraps its bits so that most proofs can treat bytes as opaque values. */
  datatype Byte = Byte(bits: bv8)

  const ZERO := Byte(0)
  const ONE := Byte(1)

  function Xor(a: Byte, b: Byte): Byte {
    Byte(a.bits ^ b.bits)
  }

  lemma XorComm(a: Byte, b: Byte)
    ensures Xor(a, b) == Xor(b, a)
  {
  }

  lemma XorAssoc(a: Byte, b: Byte, c: Byte)
    ensures Xor(Xor(a, b), c) == Xor(a, Xor(b, c))
  {
  }

  lemma XorZero(a: Byte)
    ensures Xor(a, ZERO) == a && Xor(ZERO, a) == a
  {
  }

  lemma XorSelf(a: Byte)
    ensures Xor(a, a) == ZERO
  {
  }

  lemma XorCancel(a: Byte, b: Byte)
    ensures Xor(Xor(a, b), b) == a && Xor(b, Xor(b, a)) == a && Xor(Xor(b, a), b) == a
  {
  }

  lemma XorEqual(a: Byte, b: Byte)
    ensures Xor(a, b) == ZERO <==> a == b
  {
  }

  lemma XorInterchange(a: Byte, b: Byte, c: Byte, d: Byte)
    ensures Xor(Xor(a, b), Xor(c, d)) == Xor(Xor(a, c), Xor(b, d))
  {
    hide Xor;
    XorAssoc(a, b, Xor(c, d));
    XorAssoc(b, c, d);
    XorComm(b, c);
    XorAssoc(c, b, d);
    XorAssoc(a, c, Xor(b, d));
  }

  lemma Associate(a: seq<Byte>, b: seq<Byte>, c: seq<Byte>)
    ensures (a + b) + c == a + (b + c)
  {
  }
}
