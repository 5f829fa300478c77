/** rs.c in its own form: loops over a sector array, scratch polynomials updated in place.  Every
    method is proved against the functions of RsString and RsDecoder.
 */
module RsCodec {
  import opened Bytes
  import opened GaloisField
  import opened RsString
  import opened RsDecoder

  /** The 36 bytes at off, off + step, ..., off + 35 * step. */
  function Strand(s: seq<Byte>, off: nat, step: nat): (c: seq<Byte>)
    requires step == 1 || step == 36
    requires off + 35 * step < |s|
    ensures |c| == 36
  {
    seq(36, i requires 0 <= i < 36 => s[off + step * i])
  }

  predicate OnStrand(k: int, off: nat, step: nat) {
    exists i :: 0 <= i < 36 && k == off + step * i
  }

  /** Nothing but the strand has changed. */
  ghost predicate OnlyStrand(s: seq<Byte>, t: seq<Byte>, off: nat, step: nat) {
    |s| == |t| && forall k :: 0 <= k < |s| && !OnStrand(k, off, step) ==> s[k] == t[k]
  }

  lemma ProductLookup(a: Byte, b: Byte)
    requires a != ZERO && b != ZERO
    ensures TExp(Log(a) + Log(b)) == Mul(a, b)
  {
    hide Exp;
  }

  // ----- ecc_block and rs_encode_string

  method EccBlock(s: array<Byte>, off: nat, step: nat) returns (r: Word4)
    requires step == 1 || step == 36
    requires off + 35 * step < s.Length
    ensures r == Ecc(Strand(s[..], off, step))
  {
    hide Feed;
    ghost var c := Strand(s[..], off, step);
    r := Word4(s[off], s[off + step], s[off + 2 * step], s[off + 3 * step]);
    for i := 4 to 36
      invariant r == Register(c, i)
    {
      if i < 32 {
        r := Feed(r, s[off + step * i]);
      } else {
        r := Feed(r, ZERO);
      }
    }
  }

  method EncodeStrand(s: array<Byte>, off: nat, step: nat)
    requires step == 1 || step == 36
    requires off + 35 * step < s.Length
    modifies s
    ensures Strand(s[..], off, step) == EncodeString(old(Strand(s[..], off, step)))
    ensures OnlyStrand(old(s[..]), s[..], off, step)
  {
    hide Ecc;
    var e := EccBlock(s, off, step);
    s[off + 32 * step] := e.b3;
    s[off + 33 * step] := e.b2;
    s[off + 34 * step] := e.b1;
    s[off + 35 * step] := e.b0;
    assert OnStrand(off + step * 32, off, step) && OnStrand(off + step * 33, off, step);
    assert OnStrand(off + step * 34, off, step) && OnStrand(off + step * 35, off, step);
  }

  // ----- rs_decode_string: syndromes

  /** The contribution of the last i bytes to the value at alpha^k. */
  function Tail(c: seq<Byte>, k: nat, i: nat): Byte
    requires |c| == 36 && i <= 36
  {
    if i == 0 then ZERO else Xor(Tail(c, k, i - 1), Times(c[36 - i], Power(k, i - 1)))
  }

  lemma {:induction false} TailIsHorner(c: seq<Byte>, k: nat, i: nat)
    requires |c| == 36 && i <= 36
    ensures Xor(Times(Horner(c, k, 36 - i), Power(k, i)), Tail(c, k, i)) == Syndrome(c, k)
  {
    hide Xor, Times, Power;
    if i == 0 {
      PowerZero(k);
      TimesIdentity(Horner(c, k, 36));
      XorZero(Horner(c, k, 36));
    } else {
      TailIsHorner(c, k, i - 1);
      var h, n := Horner(c, k, 36 - i), Power(k, i - 1);
      TimesLinear(Times(h, k), c[36 - i], n);
      TimesAdd(h, k, n);
      PowerStep(k, i - 1);
      XorAssoc(Times(h, n + k), Times(c[36 - i], n), Tail(c, k, i - 1));
      XorComm(Times(c[36 - i], n), Tail(c, k, i - 1));
    }
  }

  lemma TailIsSyndrome(c: seq<Byte>, k: nat)
    requires |c| == 36
    ensures Tail(c, k, 36) == Syndrome(c, k)
  {
    hide Xor, Times, Power, Tail;
    TailIsHorner(c, k, 36);
    TimesKernel(ZERO, Power(k, 36));
    XorZero(Tail(c, k, 36));
  }

  lemma TailStep(c: seq<Byte>, i: nat, v: Byte)
    requires |c| == 36 && i < 36 && v == c[35 - i]
    ensures v == ZERO ==> forall k: nat :: Tail(c, k, i + 1) == Tail(c, k, i)
    ensures Tail(c, 0, i + 1) == Xor(Tail(c, 0, i), v)
    ensures v != ZERO ==> Tail(c, 1, i + 1) == Xor(Tail(c, 1, i), TExp(Log(v) + i))
    ensures v != ZERO ==> Tail(c, 2, i + 1) == Xor(Tail(c, 2, i), TExp(Log(v) + 2 * i))
    ensures v != ZERO ==> Tail(c, 3, i + 1) == Xor(Tail(c, 3, i), TExp(Log(v) + 3 * i))
  {
    hide Xor, Times, Exp;
    if v == ZERO {
      forall k: nat
        ensures Tail(c, k, i + 1) == Tail(c, k, i)
      {
        TimesKernel(ZERO, Power(k, i));
        XorZero(Tail(c, k, i));
      }
    } else {
      ExpAdd(Log(v), i); ExpAdd(Log(v), 2 * i); ExpAdd(Log(v), 3 * i);
    }
    TimesIdentity(v);
  }

  method ComputeSyndromes(s: array<Byte>, off: nat, step: nat) returns (syn: seq<Byte>)
    requires step == 1 || step == 36
    requires off + 35 * step < s.Length
    ensures syn == Syndromes(Strand(s[..], off, step))
  {
    hide Xor, Times, Exp, Tail, Syndrome, TExp;
    ghost var c := Strand(s[..], off, step);
    syn := [ONE, ZERO, ZERO, ZERO, ZERO];
    TailZero(c);
    for i := 0 to 36
      invariant syn == [ONE, Tail(c, 0, i), Tail(c, 1, i), Tail(c, 2, i), Tail(c, 3, i)]
    {
      var v := s[off + step * (35 - i)];
      assert v == c[35 - i];
      TailStep(c, i, v);
      if v != ZERO {
        var lv := Log(v);
        syn := syn[1 := Xor(syn[1], v)];
        syn := syn[2 := Xor(syn[2], TExp(lv + i))];
        syn := syn[3 := Xor(syn[3], TExp(lv + 2 * i))];
        syn := syn[4 := Xor(syn[4], TExp(lv + 3 * i))];
      }
    }
    TailIsSyndrome(c, 0); TailIsSyndrome(c, 1); TailIsSyndrome(c, 2); TailIsSyndrome(c, 3);
  }

  lemma TailZero(c: seq<Byte>)
    requires |c| == 36
    ensures forall k: nat :: Tail(c, k, 0) == ZERO
  {
  }

  // ----- rs_decode_string: Berlekamp-Massey

  method ComputeDiscrepancy(sigma: seq<Byte>, syn: seq<Byte>, l: nat) returns (delta: Byte)
    requires |sigma| == 5 && |syn| == 5 && 1 <= l < 5
    ensures delta == Discrepancy(sigma, syn, l, l + 1)
  {
    hide Xor, Mul, TExp;
    delta := ZERO;
    for i := 0 to l + 1
      invariant delta == Discrepancy(sigma, syn, l, i)
    {
      if sigma[i] != ZERO && syn[l - i] != ZERO {
        ProductLookup(sigma[i], syn[l - i]);
        delta := Xor(delta, TExp(Log(sigma[i]) + Log(syn[l - i])));
      } else {
        MulZero(sigma[i]); MulZero(syn[l - i]);
        XorZero(delta);
      }
    }
  }

  /** tau and gamma multiplied by x. */
  method MultiplyByX(p: seq<Byte>, l: nat) returns (q: seq<Byte>)
    requires |p| == 5 && 1 <= l < 5
    ensures q == Shift(p, l)
  {
    q := p;
    for i := 0 to l
      invariant |q| == 5
      invariant forall j :: 0 <= j <= l - i || l < j < 5 ==> q[j] == p[j]
      invariant forall j :: l - i < j <= l ==> q[j] == p[j - 1]
    {
      q := q[l - i := q[l - i - 1]];
    }
    q := q[0 := ZERO];
  }

  method MethodALoop(p: seq<Byte>, q: seq<Byte>, delta: Byte, l: nat) returns (r: seq<Byte>)
    requires |p| == 5 && |q| == 5 && 1 <= l < 5
    ensures r == AddScaled(p, q, delta, l)
  {
    hide Xor, Mul, TExp;
    r := p;
    AddScaledZero(p, q, l);
    if delta != ZERO {
      var ldelta := Log(delta);
      for i := 1 to l + 1
        invariant |r| == 5
        invariant forall j :: 0 <= j < 5 ==> r[j] == if 1 <= j < i then Xor(p[j], Mul(q[j], delta)) else p[j]
      {
        if q[i] != ZERO {
          ProductLookup(q[i], delta);
          r := r[i := Xor(r[i], TExp(Log(q[i]) + ldelta))];
        } else {
          MulZero(delta);
          XorZero(p[i]);
        }
      }
    }
  }

  lemma QuotientLookup(a: Byte, delta: Byte)
    requires a != ZERO && delta != ZERO
    ensures TExp(Log(a) + (255 - Log(delta))) == Mul(a, Inv(delta))
  {
    hide Exp, Mul;
    Divide(a, delta);
  }

  /** The descending loop of method b for one pair of polynomials: p takes delta * x * q, and q
      takes the old p / delta. */
  method MethodBLoop(p: seq<Byte>, q: seq<Byte>, delta: Byte, l: nat) returns (r: seq<Byte>, t: seq<Byte>)
    requires |p| == 5 && |q| == 5 && 1 <= l < 5 && delta != ZERO
    ensures r == AddScaled(p, Shift(q, l), delta, l)
    ensures t == Divided(p, q, delta, l)
  {
    hide Xor, Mul, TExp, Inv;
    r, t := p, q;
    var ldelta := Log(delta);
    var ildelta := 255 - ldelta;
    var i := l;
    while i > 0
      invariant 0 <= i <= l && |r| == 5 && |t| == 5
      invariant forall j :: 0 <= j < 5 ==> r[j] == if i < j <= l then Xor(p[j], Mul(q[j - 1], delta)) else p[j]
      invariant forall j :: 0 <= j < 5 ==> t[j] == if i <= j < l then Mul(p[j], Inv(delta)) else q[j]
    {
      if t[i - 1] != ZERO {
        ProductLookup(t[i - 1], delta);
        r := r[i := Xor(r[i], TExp(Log(t[i - 1]) + ldelta))];
      } else {
        MulZero(delta);
        XorZero(p[i]);
      }
      if r[i - 1] != ZERO {
        QuotientLookup(r[i - 1], delta);
        t := t[i - 1 := TExp(Log(r[i - 1]) + ildelta)];
      } else {
        MulZero(Inv(delta));
        t := t[i - 1 := ZERO];
      }
      i := i - 1;
    }
  }

  method BerlekampMassey(syn: seq<Byte>) returns (s: State)
    requires |syn| == 5
    ensures s == Iterate(syn, 4)
  {
    hide Discrepancy, Shift, AddScaled, Divided;
    var sigma, omega, tau, gamma := UNIT, UNIT, UNIT, NULL;
    var d, b := 0, false;
    for l := 1 to 5
      invariant State(sigma, omega, tau, gamma, d, b) == Iterate(syn, l - 1)
    {
      var delta := ComputeDiscrepancy(sigma, syn, l);
      var limit, exact := (l + 1) / 2, l % 2 == 1;
      if delta == ZERO || d > limit || (d == limit && exact && !b) {
        tau := MultiplyByX(tau, l);
        gamma := MultiplyByX(gamma, l);
        sigma := MethodALoop(sigma, tau, delta, l);
        omega := MethodALoop(omega, gamma, delta, l);
      } else {
        d, b := l - d, !b;
        sigma, tau := MethodBLoop(sigma, tau, delta, l);
        omega, gamma := MethodBLoop(omega, gamma, delta, l);
      }
    }
    s := State(sigma, omega, tau, gamma, d, b);
  }

  // ----- rs_decode_string: positions and values

  method SearchRoot(sigma: seq<Byte>) returns (e: nat)
    requires |sigma| == 5 && sigma[2] != ZERO
    ensures e == FirstRoot(sigma, 0)
  {
    hide Xor, TExp;
    var ls1, ls2 := Log(sigma[1]), Log(sigma[2]);
    e := 0;
    while e < 256
      invariant e <= 256 && FirstRoot(sigma, 0) == FirstRoot(sigma, e)
    {
      var res := sigma[0];
      if sigma[1] != ZERO {
        res := Xor(res, TExp(255 - e + ls1));
      }
      res := Xor(res, TExp(2 * (255 - e) + ls2));
      ValueLookup(sigma, e);
      if res == ZERO {
        break;
      }
      e := e + 1;
    }
  }

  /** How a quadratic is evaluated by table look-up. */
  lemma ValueLookup(p: seq<Byte>, e: nat)
    requires |p| == 5 && e <= 255
    ensures ValueAt(p, e) ==
            Xor(Xor(p[0], if p[1] != ZERO then TExp(255 - e + Log(p[1])) else ZERO),
                if p[2] != ZERO then TExp(2 * (255 - e) + Log(p[2])) else ZERO)
    ensures Xor(p[0], ZERO) == p[0]
    ensures var a := Xor(p[0], if p[1] != ZERO then TExp(255 - e + Log(p[1])) else ZERO); Xor(a, ZERO) == a
  {
    hide Xor, Times, Exp;
    ExpAdd(Log(p[1]), 255 - e); ExpAdd(Log(p[2]), 2 * (255 - e));
    TimesKernel(p[1], 255 - e); TimesKernel(p[2], 2 * (255 - e));
    XorZero(p[0]);
    XorZero(Xor(p[0], if p[1] != ZERO then TExp(255 - e + Log(p[1])) else ZERO));
  }

  method ComputeErrorValue(omega: seq<Byte>, e: nat, f: nat) returns (v: Byte)
    requires |omega| == 5 && e <= 35 && f <= 35
    ensures v == ErrorValue(omega, e, f)
  {
    hide Xor, TExp, ValueAt;
    v := omega[0];
    if omega[1] != ZERO {
      v := Xor(v, TExp(Log(omega[1]) + 255 - e));
    }
    if omega[2] != ZERO {
      v := Xor(v, TExp(Log(omega[2]) + 2 * (255 - e)));
    }
    ValueLookup(omega, e);
    var log := (Log(v) + e) % 256;
    var div := Log(Xor(ONE, TExp(255 + f - e)));
    v := TExp(255 + log - div);
  }

  /** XOR one byte of the strand. */
  method FlipStrand(s: array<Byte>, off: nat, step: nat, j: nat, v: Byte)
    requires step == 1 || step == 36
    requires off + 35 * step < s.Length && j < 36
    modifies s
    ensures Strand(s[..], off, step) == Flip(old(Strand(s[..], off, step)), j, v)
    ensures OnlyStrand(old(s[..]), s[..], off, step)
  {
    hide Xor;
    s[off + step * j] := Xor(s[off + step * j], v);
    assert OnStrand(off + step * j, off, step);
  }

  method DecodeStrand(s: array<Byte>, off: nat, step: nat) returns (r: int)
    requires step == 1 || step == 36
    requires off + 35 * step < s.Length
    modifies s
    ensures (Strand(s[..], off, step), r) == DecodeString(old(Strand(s[..], off, step)))
    ensures OnlyStrand(old(s[..]), s[..], off, step)
    ensures r <= 0 ==> s[..] == old(s[..])
  {
    hide Ecc, Syndromes, Iterate, FirstRoot, Flip, ErrorValue, Xor, OnlyStrand, Strand;
    ghost var s0, c := s[..], Strand(s[..], off, step);
    OnlyStrandSame(s0, off, step);
    var ecc := EccBlock(s, off, step);
    var ref := ParityOf(s, off, step);
    if ref == ecc {
      return 0;
    }
    var syn := ComputeSyndromes(s, off, step);
    var bm := BerlekampMassey(syn);
    var sigma, omega := bm.sigma, bm.omega;
    if sigma[3] != ZERO || sigma[4] != ZERO {
      return -1;
    }
    if sigma[2] != ZERO && sigma[0] != ZERO {
      var e := SearchRoot(sigma);
      if e > 35 {
        return -1;
      }
      LogOne();
      var f := Log(sigma[2]) - e - Log(sigma[0]);
      if f < 0 {
        f := f + 255;
      }
      if f > 35 {
        return -1;
      }
      var err1 := ComputeErrorValue(omega, e, f);
      var err2 := ComputeErrorValue(omega, f, e);
      FlipStrand(s, off, step, 35 - e, err1);
      ghost var s1 := s[..];
      FlipStrand(s, off, step, 35 - f, err2);
      OnlyStrandTransitive(s0, s1, s[..], off, step);
      return 2;
    } else if sigma[1] != ZERO && sigma[0] != ZERO {
      LogOne();
      var e := Log(sigma[1]) - Log(sigma[0]);
      if e > 35 {
        return -1;
      }
      FlipStrand(s, off, step, 35 - e, Xor(sigma[1], omega[1]));
      return 1;
    } else {
      return -1;
    }
  }

  method ParityOf(s: array<Byte>, off: nat, step: nat) returns (r: Word4)
    requires step == 1 || step == 36
    requires off + 35 * step < s.Length
    ensures r == Parity(Strand(s[..], off, step))
  {
    r := Word4(s[off + 32 * step], s[off + 33 * step], s[off + 34 * step], s[off + 35 * step]);
  }

  lemma OnlyStrandSame(s: seq<Byte>, off: nat, step: nat)
    ensures OnlyStrand(s, s, off, step)
  {
  }

  lemma OnlyStrandTransitive(s: seq<Byte>, t: seq<Byte>, u: seq<Byte>, off: nat, step: nat)
    requires OnlyStrand(s, t, off, step) && OnlyStrand(t, u, off, step)
    ensures OnlyStrand(s, u, off, step)
  {
  }
}
