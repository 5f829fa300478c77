/** rs_decode_string as a function of one 36-byte string: syndromes, the Berlekamp-Massey
    iteration in its two update methods, root search and error values.
 */
module RsDecoder {
  import opened Bytes
  import opened GaloisField
  import opened RsString

  /** sigma and omega are the locator and evaluator polynomials, tau and gamma their previous
      versions; every polynomial is kept in five coefficients, lowest first. */
  datatype State = State(sigma: seq<Byte>, omega: seq<Byte>, tau: seq<Byte>, gamma: seq<Byte>, d: int, b: bool)
  {
    predicate Valid() {
      && |sigma| == 5 && |omega| == 5 && |tau| == 5 && |gamma| == 5
      && sigma[0] == ONE
    }
  }

  const UNIT := [ONE, ZERO, ZERO, ZERO, ZERO]
  const NULL := [ZERO, ZERO, ZERO, ZERO, ZERO]

  function Start(): (s: State)
    ensures s.Valid()
  {
    State(UNIT, UNIT, UNIT, NULL, 0, false)
  }

  /** Coefficient l of the product syn * sigma, summed over its first n terms. */
  function Discrepancy(sigma: seq<Byte>, syn: seq<Byte>, l: nat, n: nat): Byte
    requires |sigma| == 5 && |syn| == 5 && n <= l + 1 <= 5
  {
    if n == 0 then ZERO
    else Xor(Discrepancy(sigma, syn, l, n - 1), Mul(sigma[n - 1], syn[l - (n - 1)]))
  }

  /** p multiplied by x, within the coefficients 0 .. l. */
  function Shift(p: seq<Byte>, l: nat): (q: seq<Byte>)
    requires |p| == 5 && l < 5
    ensures |q| == 5
  {
    seq(5, i requires 0 <= i < 5 => if i == 0 then ZERO else if i <= l then p[i - 1] else p[i])
  }

  /** p + delta * q on the coefficients 1 .. l. */
  function AddScaled(p: seq<Byte>, q: seq<Byte>, delta: Byte, l: nat): (r: seq<Byte>)
    requires |p| == 5 && |q| == 5 && l < 5
    ensures |r| == 5
  {
    seq(5, i requires 0 <= i < 5 => if 1 <= i <= l then Xor(p[i], Mul(q[i], delta)) else p[i])
  }

  /** p / delta on the coefficients 0 .. l - 1, the others taken from q. */
  function Divided(p: seq<Byte>, q: seq<Byte>, delta: Byte, l: nat): (r: seq<Byte>)
    requires |p| == 5 && |q| == 5 && l < 5
    ensures |r| == 5
  {
    seq(5, i requires 0 <= i < 5 => if i < l then Mul(p[i], Inv(delta)) else q[i])
  }

  predicate UseMethodA(delta: Byte, d: int, b: bool, l: nat) {
    delta == ZERO || d > (l + 1) / 2 || (d == (l + 1) / 2 && l % 2 == 1 && !b)
  }

  function Step(s: State, syn: seq<Byte>, l: nat): (t: State)
    requires s.Valid() && |syn| == 5 && 1 <= l < 5
    ensures t.Valid()
  {
    var delta := Discrepancy(s.sigma, syn, l, l + 1);
    var tau, gamma := Shift(s.tau, l), Shift(s.gamma, l);
    var sigma, omega := AddScaled(s.sigma, tau, delta, l), AddScaled(s.omega, gamma, delta, l);
    if UseMethodA(delta, s.d, s.b, l) then
      State(sigma, omega, tau, gamma, s.d, s.b)
    else
      State(sigma, omega, Divided(s.sigma, s.tau, delta, l), Divided(s.omega, s.gamma, delta, l), l - s.d, !s.b)
  }

  function Iterate(syn: seq<Byte>, l: nat): (s: State)
    requires |syn| == 5 && l < 5
    ensures s.Valid()
  {
    if l == 0 then Start() else Step(Iterate(syn, l - 1), syn, l)
  }

  function Syndromes(c: seq<Byte>): (syn: seq<Byte>)
    ensures |syn| == 5
  {
    [ONE, Syndrome(c, 0), Syndrome(c, 1), Syndrome(c, 2), Syndrome(c, 3)]
  }

  /** p at alpha^(-e), as the source evaluates it: 255 - e stands for -e. */
  function ValueAt(p: seq<Byte>, e: nat): Byte
    requires |p| == 5 && e <= 255
  {
    Xor(Xor(p[0], Times(p[1], 255 - e)), Times(p[2], 2 * (255 - e)))
  }

  /** The first root position from e on, 256 if there is none. */
  function FirstRoot(sigma: seq<Byte>, e: nat): (r: nat)
    requires |sigma| == 5 && e <= 256
    ensures e <= r <= 256
    decreases 256 - e
  {
    if e == 256 || ValueAt(sigma, e) == ZERO then e else FirstRoot(sigma, e + 1)
  }

  /** The value of the error at position e when the other one is at f.  The logarithm and the
      position are added in an 8-bit variable, which wraps at 256. */
  function ErrorValue(omega: seq<Byte>, e: nat, f: nat): Byte
    requires |omega| == 5 && e <= 35 && f <= 35
  {
    var log := (Log(ValueAt(omega, e)) + e) % 256;
    TExp(255 + log - Log(Xor(ONE, TExp(255 + f - e))))
  }

  function SecondPosition(sigma: seq<Byte>, e: nat): (f: nat)
    requires |sigma| == 5 && sigma[0] == ONE && e <= 35
  {
    LogOne();
    var f := Log(sigma[2]) - e - Log(sigma[0]);
    if f < 0 then f + 255 else f
  }

  function Correct(c: seq<Byte>, s: State): (r: (seq<Byte>, int))
    requires |c| == 36 && s.Valid()
    ensures |r.0| == 36
  {
    var sigma := s.sigma;
    if sigma[3] != ZERO || sigma[4] != ZERO then
      (c, -1)
    else if sigma[2] != ZERO && sigma[0] != ZERO then
      var e := FirstRoot(sigma, 0);
      if e > 35 then (c, -1) else
      var f := SecondPosition(sigma, e);
      if f > 35 then (c, -1) else
        (Flip(Flip(c, 35 - e, ErrorValue(s.omega, e, f)), 35 - f, ErrorValue(s.omega, f, e)), 2)
    else if sigma[1] != ZERO && sigma[0] != ZERO then
      LogOne();
      var e := Log(sigma[1]) - Log(sigma[0]);
      if e > 35 then (c, -1)
      else (Flip(c, 35 - e, Xor(sigma[1], s.omega[1])), 1)
    else
      (c, -1)
  }

  lemma LogOne()
    ensures Log(ONE) == 0
  {
    assert Exp(0) == ONE;
    LogExp(0);
  }

  function DecodeString(c: seq<Byte>): (r: (seq<Byte>, int))
    requires |c| == 36
    ensures |r.0| == 36
  {
    if Parity(c) == Ecc(c) then (c, 0) else Correct(c, Iterate(Syndromes(c), 4))
  }

  // ----- one damaged byte

  lemma DiscrepancyIs(sigma: seq<Byte>, syn: seq<Byte>, l: nat)
    requires |sigma| == 5 && |syn| == 5 && 1 <= l < 5
    requires sigma[0] == ONE && syn[0] == ONE && forall i :: l <= i < 5 ==> sigma[i] == ZERO
    ensures l == 1 ==> Discrepancy(sigma, syn, l, l + 1) == syn[1]
    ensures l == 2 ==> Discrepancy(sigma, syn, l, l + 1) == Xor(syn[2], Mul(sigma[1], syn[1]))
    ensures l == 3 ==>
              Discrepancy(sigma, syn, l, l + 1) == Xor(Xor(syn[3], Mul(sigma[1], syn[2])), Mul(sigma[2], syn[1]))
    ensures l == 4 ==>
      Discrepancy(sigma, syn, l, l + 1) ==
          Xor(Xor(Xor(syn[4], Mul(sigma[1], syn[3])), Mul(sigma[2], syn[2])), Mul(sigma[3], syn[1]))
  {
    hide Mul, Xor;
    MulOne(syn[l]); XorZero(syn[l]);
    MulZero(ONE);
    assert Discrepancy(sigma, syn, l, 0) == ZERO;
    assert Discrepancy(sigma, syn, l, 1) == syn[l];
    assert Discrepancy(sigma, syn, l, 2) == Xor(syn[l], Mul(sigma[1], syn[l - 1]));
    if l >= 2 {
      assert Discrepancy(sigma, syn, l, 3) == Xor(Xor(syn[l], Mul(sigma[1], syn[l - 1])), Mul(sigma[2], syn[l - 2]));
    }
    if l >= 3 {
      assert Discrepancy(sigma, syn, l, 4) ==
             Xor(Xor(Xor(syn[l], Mul(sigma[1], syn[l - 1])), Mul(sigma[2], syn[l - 2])), Mul(sigma[3], syn[l - 3]));
    }
    XorZero(Discrepancy(sigma, syn, l, l));
  }

  lemma AddScaledZero(p: seq<Byte>, q: seq<Byte>, l: nat)
    requires |p| == 5 && |q| == 5 && l < 5
    ensures AddScaled(p, q, ZERO, l) == p
  {
    hide Mul, Xor;
    forall i | 0 <= i < 5
      ensures AddScaled(p, q, ZERO, l)[i] == p[i]
    {
      MulZero(q[i]);
      XorZero(p[i]);
    }
  }

  /** A step with discrepancy zero leaves both polynomials alone. */
  lemma IdleStep(s: State, syn: seq<Byte>, l: nat)
    requires s.Valid() && |syn| == 5 && 1 <= l < 5 && Discrepancy(s.sigma, syn, l, l + 1) == ZERO
    ensures Step(s, syn, l) == s.(tau := Shift(s.tau, l), gamma := Shift(s.gamma, l))
  {
    hide Mul, Xor, Discrepancy, AddScaled, Shift, Divided;
    AddScaledZero(s.sigma, Shift(s.tau, l), l);
    AddScaledZero(s.omega, Shift(s.gamma, l), l);
  }

  /** The three coefficient-wise operations, written out. */
  lemma Unfold(p: seq<Byte>, q: seq<Byte>, delta: Byte, l: nat)
    requires |p| == 5 && |q| == 5 && 1 <= l < 5
    ensures Shift(p, l) ==
                [ZERO, p[0], if l >= 2 then p[1] else p[2], if l >= 3 then p[2] else p[3],
                 if l >= 4 then p[3] else p[4]]
    ensures AddScaled(p, q, delta, l) ==
            [p[0], Xor(p[1], Mul(q[1], delta)), if l >= 2 then Xor(p[2], Mul(q[2], delta)) else p[2],
             if l >= 3 then Xor(p[3], Mul(q[3], delta)) else p[3], if l >= 4 then Xor(p[4], Mul(q[4], delta)) else p[4]]
    ensures Divided(p, q, delta, l) ==
            [Mul(p[0], Inv(delta)), if l >= 2 then Mul(p[1], Inv(delta)) else q[1],
             if l >= 3 then Mul(p[2], Inv(delta)) else q[2],
             if l >= 4 then Mul(p[3], Inv(delta)) else q[3], q[4]]
  {
    hide Mul, Xor, Inv;
  }

  /** p + delta * x * q on the coefficients 1 .. l. */
  function Advance(p: seq<Byte>, q: seq<Byte>, delta: Byte, l: nat): (r: seq<Byte>)
    requires |p| == 5 && |q| == 5 && 1 <= l < 5
    ensures |r| == 5
  {
    [p[0], Xor(p[1], Mul(q[0], delta)), if l >= 2 then Xor(p[2], Mul(q[1], delta)) else p[2],
     if l >= 3 then Xor(p[3], Mul(q[2], delta)) else p[3], if l >= 4 then Xor(p[4], Mul(q[3], delta)) else p[4]]
  }

  function Quotient(p: seq<Byte>, q: seq<Byte>, delta: Byte, l: nat): (r: seq<Byte>)
    requires |p| == 5 && |q| == 5 && 1 <= l < 5
    ensures |r| == 5
  {
    var i := Inv(delta);
    [Mul(p[0], i), if l >= 2 then Mul(p[1], i) else q[1], if l >= 3 then Mul(p[2], i) else q[2],
     if l >= 4 then Mul(p[3], i) else q[3], q[4]]
  }

  /** Method b in closed form. */
  lemma MethodB(s: State, syn: seq<Byte>, l: nat, delta: Byte)
    requires s.Valid() && |syn| == 5 && 1 <= l < 5 && delta == Discrepancy(s.sigma, syn, l, l + 1)
    requires !UseMethodA(delta, s.d, s.b, l)
    ensures Step(s, syn, l) ==
            State(Advance(s.sigma, s.tau, delta, l), Advance(s.omega, s.gamma, delta, l),
                  Quotient(s.sigma, s.tau, delta, l), Quotient(s.omega, s.gamma, delta, l), l - s.d, !s.b)
  {
    hide Mul, Xor, Discrepancy, Inv, Shift, AddScaled, Divided;
    Unfold(s.tau, s.tau, delta, l); Unfold(s.gamma, s.gamma, delta, l);
    Unfold(s.sigma, Shift(s.tau, l), delta, l); Unfold(s.omega, Shift(s.gamma, l), delta, l);
    Unfold(s.sigma, s.tau, delta, l); Unfold(s.omega, s.gamma, delta, l);
  }

  lemma AfterOne(syn: seq<Byte>)
    requires |syn| == 5 && syn[0] == ONE && syn[1] != ZERO
    ensures var r := Inv(syn[1]);
            Iterate(syn, 1) ==
                State([ONE, syn[1], ZERO, ZERO, ZERO], UNIT, [r, ZERO, ZERO, ZERO, ZERO], [r, ZERO, ZERO, ZERO, ZERO],
                      1, true)
  {
    hide Mul, Xor, Discrepancy, Inv, Step;
    var s, delta := Start(), syn[1];
    IterateStep(syn, 1);
    DiscrepancyIs(s.sigma, syn, 1);
    MethodB(s, syn, 1, delta);
    MulOne(syn[1]); XorZero(syn[1]); MulZero(syn[1]); XorZero(ZERO); MulOne(Inv(syn[1]));
  }

  lemma AfterTwoIdle(syn: seq<Byte>)
    requires |syn| == 5 && syn[0] == ONE && syn[1] != ZERO && Xor(syn[2], Mul(syn[1], syn[1])) == ZERO
    ensures var r := Inv(syn[1]);
            Iterate(syn, 2) ==
                State([ONE, syn[1], ZERO, ZERO, ZERO], UNIT, [ZERO, r, ZERO, ZERO, ZERO], [ZERO, r, ZERO, ZERO, ZERO],
                      1, true)
  {
    hide Mul, Xor, Discrepancy, Inv, Iterate, Step, Shift, AddScaled, Divided;
    AfterOne(syn);
    var s := Iterate(syn, 1);
    IterateStep(syn, 2);
    DiscrepancyIs(s.sigma, syn, 2);
    IdleStep(s, syn, 2);
    Unfold(s.tau, s.tau, ZERO, 2); Unfold(s.gamma, s.gamma, ZERO, 2);
  }

  lemma AfterTwo(syn: seq<Byte>, delta: Byte)
    requires |syn| == 5 && syn[0] == ONE && syn[1] != ZERO && delta == Xor(syn[2], Mul(syn[1], syn[1])) && delta != ZERO
    ensures var q, r := Mul(Inv(syn[1]), delta), Inv(delta);
            Iterate(syn, 2) == State([ONE, Xor(syn[1], q), ZERO, ZERO, ZERO], [ONE, q, ZERO, ZERO, ZERO],
                                     [r, Mul(syn[1], r), ZERO, ZERO, ZERO], [r, ZERO, ZERO, ZERO, ZERO], 1, false)
  {
    hide Mul, Xor, Discrepancy, Inv, Iterate, Step;
    AfterOne(syn);
    var s := Iterate(syn, 1);
    IterateStep(syn, 2);
    DiscrepancyIs(s.sigma, syn, 2);
    MethodB(s, syn, 2, delta);
    var q, r := Mul(Inv(syn[1]), delta), Inv(delta);
    MulZero(delta); XorZero(ZERO); XorZero(q); MulOne(r); MulZero(r);
  }

  lemma IterateStep(syn: seq<Byte>, l: nat)
    requires |syn| == 5 && 1 <= l < 5
    ensures Iterate(syn, l) == Step(Iterate(syn, l - 1), syn, l)
  {
  }

  /** The syndromes of an error e at the position whose locator is x. */
  function OneError(e: Byte, x: Byte): seq<Byte> {
    [ONE, e, Mul(e, x), Mul(Mul(e, x), x), Mul(Mul(Mul(e, x), x), x)]
  }

  lemma OneErrorAfterTwo(e: Byte, x: Byte)
    requires e != ZERO
    ensures var s := Iterate(OneError(e, x), 2);
            s.sigma == [ONE, x, ZERO, ZERO, ZERO] && s.omega == [ONE, Xor(x, e), ZERO, ZERO, ZERO]
  {
    hide Mul, Xor, Inv, Iterate;
    var syn := OneError(e, x);
    var delta := Xor(Mul(e, x), Mul(e, e));
    MulDistrib(x, e, e);
    MulNonzero(e, Xor(x, e));
    XorEqual(x, e);
    if delta == ZERO {
      AfterTwoIdle(syn);
    } else {
      AfterTwo(syn, delta);
      MulAssoc(Inv(e), e, Xor(x, e)); MulInv(e); MulOne(Xor(x, e));
      XorComm(x, e); XorCancel(x, e);
    }
  }

  lemma OneErrorPolynomials(e: Byte, x: Byte)
    requires e != ZERO
    ensures var s := Iterate(OneError(e, x), 4);
            s.sigma == [ONE, x, ZERO, ZERO, ZERO] && s.omega == [ONE, Xor(x, e), ZERO, ZERO, ZERO]
  {
    hide Mul, Xor, Inv, Iterate, Step, Discrepancy, Shift;
    var syn := OneError(e, x);
    OneErrorAfterTwo(e, x);
    var s2, s3 := Iterate(syn, 2), Iterate(syn, 3);
    IterateStep(syn, 3); IterateStep(syn, 4);
    MulZero(syn[1]); MulZero(syn[2]); XorZero(ZERO);
    MulComm(x, syn[2]); MulComm(x, syn[3]); XorSelf(syn[3]); XorSelf(syn[4]);
    DiscrepancyIs(s2.sigma, syn, 3);
    IdleStep(s2, syn, 3);
    DiscrepancyIs(s3.sigma, syn, 4);
    IdleStep(s3, syn, 4);
  }

  /** The syndromes seen by the decoder after one byte of a codeword was damaged. */
  lemma SyndromesOfFlip(c: seq<Byte>, j: nat, e: Byte)
    requires IsCodeword(c) && j < 36
    ensures Syndromes(Flip(c, j, e)) == OneError(e, Exp(35 - j))
  {
    hide Syndrome, Times, Xor, Exp, Mul;
    var p, x := 35 - j, Exp(35 - j);
    assert Syndrome(c, 0) == ZERO && Syndrome(c, 1) == ZERO && Syndrome(c, 2) == ZERO && Syndrome(c, 3) == ZERO;
    SyndromeFlip(c, j, e, 0); SyndromeFlip(c, j, e, 1); SyndromeFlip(c, j, e, 2); SyndromeFlip(c, j, e, 3);
    XorZero(Times(e, 0)); XorZero(Times(e, p)); XorZero(Times(e, 2 * p)); XorZero(Times(e, 3 * p));
    TimesIdentity(e);
    MulExp(e, p); MulExp(Times(e, p), p); MulExp(Times(e, 2 * p), p);
    TimesAdd(e, p, p); TimesAdd(e, 2 * p, p);
  }

  /** Every single-byte error in a codeword - any position, any non-zero value - is found and
      repaired. */
  lemma SingleErrorCorrected(c: seq<Byte>, j: nat, e: Byte)
    requires IsCodeword(c) && j < 36 && e != ZERO
    ensures DecodeString(Flip(c, j, e)) == (c, 1)
  {
    hide Syndrome, Iterate, Exp, Xor, Ecc;
    var d, x := Flip(c, j, e), Exp(35 - j);
    SyndromesOfFlip(c, j, e);
    CodewordIff(d);
    assert Syndrome(d, 0) == Syndromes(d)[1] == e;
    OneErrorPolynomials(e, x);
    ExpNonzero(35 - j); LogExp(35 - j); LogOne();
    XorComm(x, Xor(x, e)); XorCancel(e, x);
    XorCancel(c[j], e);
    assert Flip(d, j, e) == c;
  }
}
