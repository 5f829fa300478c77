/** What rs_decode_string does with two damaged bytes of one codeword.  The iteration finds the
    right locator unless the two error values are equal (and one coincidence is missed), and the
    error values come out right unless a logarithm plus a position overflows eight bits.
 */
module RsTwoErrors {
  import opened Bytes
  import opened GaloisField
  import opened RsString
  import opened RsDecoder

  /** Coefficients 1 .. 4 of syn * sigma == omega for a quadratic locator. */
  predicate KeyEquation(s: State, syn: seq<Byte>)
    requires |syn| == 5
  {
    && s.Valid()
    && s.sigma[3] == ZERO && s.sigma[4] == ZERO
    && s.omega[0] == ONE
    && s.omega[1] == Xor(s.sigma[1], syn[1])
    && s.omega[2] == Xor(Xor(s.sigma[2], Mul(s.sigma[1], syn[1])), syn[2])
    && Xor(Xor(syn[3], Mul(s.sigma[1], syn[2])), Mul(s.sigma[2], syn[1])) == ZERO
  }

  predicate LastEquation(s: State, syn: seq<Byte>)
    requires |syn| == 5
  {
    s.Valid() && Xor(Xor(syn[4], Mul(s.sigma[1], syn[3])), Mul(s.sigma[2], syn[2])) == ZERO
  }

  /** The shape of the auxiliary polynomials after step 3: tau = (1 + a x) / d and
      gamma = (1 + (a + S1) x) / d, where a = S2 / S1 and d is the discrepancy of step 3. */
  predicate Auxiliary(s: State, syn: seq<Byte>, a: Byte, d: Byte)
    requires |syn| == 5
  {
    && s.Valid() && d != ZERO && s.d == 2
    && Mul(a, syn[1]) == syn[2] && Xor(syn[3], Mul(a, syn[2])) == d
    && s.tau == [Inv(d), Mul(a, Inv(d)), ZERO, ZERO, ZERO]
    && s.gamma == [Inv(d), Mul(Xor(a, syn[1]), Inv(d)), ZERO, ZERO, ZERO]
  }

  // ----- step 3

  /** (x + p) + q y + (z p) w  regrouped:  (x + q y) + p (y + z w). */
  lemma Regroup(x: Byte, q: Byte, y: Byte, p: Byte, z: Byte, w: Byte)
    ensures Xor(Xor(x, Mul(Xor(q, p), y)), Mul(Mul(z, p), w)) == Xor(Xor(x, Mul(q, y)), Mul(p, Xor(y, Mul(z, w))))
  {
    hide Mul, Xor;
    MulDistrib(q, p, y);
    XorAssoc(x, Mul(q, y), Mul(p, y));
    XorAssoc(Xor(x, Mul(q, y)), Mul(p, y), Mul(Mul(z, p), w));
    MulComm(z, p); MulAssoc(p, z, w);
    MulDistrib(y, Mul(z, w), p);
  }

  lemma AfterThreeA(syn: seq<Byte>, a: Byte, delta: Byte, d: Byte)
    requires |syn| == 5 && syn[0] == ONE && syn[1] != ZERO
    requires delta == Xor(syn[2], Mul(syn[1], syn[1])) && delta != ZERO
    requires a == Xor(syn[1], Mul(Inv(syn[1]), delta)) && d == Xor(syn[3], Mul(a, syn[2])) && d != ZERO
    ensures var s := Iterate(syn, 3); var p, q := Mul(Inv(delta), d), Mul(Inv(syn[1]), delta);
            && s.sigma == [ONE, Xor(a, p), Mul(Mul(syn[1], Inv(delta)), d), ZERO, ZERO]
            && s.omega == [ONE, Xor(q, p), ZERO, ZERO, ZERO]
            && s.tau == [Inv(d), Mul(a, Inv(d)), ZERO, ZERO, ZERO]
            && s.gamma == [Inv(d), Mul(q, Inv(d)), ZERO, ZERO, ZERO]
            && s.d == 2
  {
    hide Mul, Xor, Discrepancy, Inv, Iterate, Step;
    AfterTwo(syn, delta);
    var s := Iterate(syn, 2);
    IterateStep(syn, 3);
    DiscrepancyIs(s.sigma, syn, 3);
    MulZero(syn[1]); XorZero(d);
    MethodB(s, syn, 3, d);
    MulZero(d); XorZero(ZERO); MulOne(Inv(d)); MulZero(Inv(d));
    XorZero(Mul(Mul(syn[1], Inv(delta)), d));
  }

  lemma AfterThreeB(syn: seq<Byte>, d: Byte)
    requires |syn| == 5 && syn[0] == ONE && syn[1] != ZERO && Xor(syn[2], Mul(syn[1], syn[1])) == ZERO
    requires d == Xor(syn[3], Mul(syn[1], syn[2])) && d != ZERO
    ensures var s := Iterate(syn, 3); var p := Mul(Inv(syn[1]), d);
            && s.sigma == [ONE, syn[1], p, ZERO, ZERO] && s.omega == [ONE, ZERO, p, ZERO, ZERO]
            && s.tau == [Inv(d), Mul(syn[1], Inv(d)), ZERO, ZERO, ZERO] && s.gamma == [Inv(d), ZERO, ZERO, ZERO, ZERO]
            && s.d == 2
  {
    hide Mul, Xor, Discrepancy, Inv, Iterate, Step;
    AfterTwoIdle(syn);
    var s := Iterate(syn, 2);
    IterateStep(syn, 3);
    DiscrepancyIs(s.sigma, syn, 3);
    MulZero(syn[1]); XorZero(d);
    MethodB(s, syn, 3, d);
    MulZero(d); XorZero(ZERO); XorZero(syn[1]); MulOne(Inv(d)); MulZero(Inv(d));
    XorZero(Mul(Inv(syn[1]), d));
  }

  /** S2 / S1 and its two relations to the discrepancy S2 + S1 S1 of step 2. */
  lemma Ratio(s1: Byte, s2: Byte)
    requires s1 != ZERO
    ensures var a, q := Mul(Inv(s1), s2), Mul(Inv(s1), Xor(s2, Mul(s1, s1)));
            Mul(a, s1) == s2 && Xor(s1, q) == a && Xor(a, s1) == q
  {
    hide Mul, Xor, Inv;
    var a, q := Mul(Inv(s1), s2), Mul(Inv(s1), Xor(s2, Mul(s1, s1)));
    MulInv(s1); MulOne(s1); MulOne(s2);
    MulAssoc(Inv(s1), s2, s1); MulComm(s2, s1); MulAssoc(Inv(s1), s1, s2);
    MulDistrib(s2, Mul(s1, s1), Inv(s1));
    MulAssoc(Inv(s1), s1, s1);
    assert q == Xor(a, s1);
    XorComm(a, s1); XorCancel(a, s1);
  }

  lemma StepThreeA(syn: seq<Byte>, a: Byte, d: Byte)
    requires |syn| == 5 && syn[0] == ONE && syn[1] != ZERO && Xor(syn[2], Mul(syn[1], syn[1])) != ZERO
    requires a == Mul(Inv(syn[1]), syn[2]) && d == Xor(syn[3], Mul(a, syn[2])) && d != ZERO
    ensures KeyEquation(Iterate(syn, 3), syn) && Auxiliary(Iterate(syn, 3), syn, a, d)
  {
    hide Mul, Xor, Inv, Iterate;
    var s1, s2, s3, delta := syn[1], syn[2], syn[3], Xor(syn[2], Mul(syn[1], syn[1]));
    Ratio(s1, s2);
    AfterThreeA(syn, a, delta, d);
    var p, q := Mul(Inv(delta), d), Mul(Inv(s1), delta);
    MulAssoc(s1, Inv(delta), d);
    // coefficient 3: d + p delta == d + d
    Regroup(s3, a, s2, p, s1, s1);
    MulComm(p, delta); MulAssoc(delta, Inv(delta), d); MulInv(delta); MulOne(d); XorSelf(d);
    // coefficient 1: q + p == (a + p) + s1
    XorAssoc(a, p, s1); XorComm(p, s1); XorAssoc(a, s1, p);
    // coefficient 2: s1 p + ((a + p) s1 + s2) == s1 p + (s2 + p s1 + s2) == 0
    MulDistrib(a, p, s1); MulComm(p, s1);
    var t := Mul(s1, p);
    XorComm(s2, t); XorCancel(s2, t); XorSelf(s2);
    XorAssoc(t, Xor(s2, t), s2);
    assert Xor(Xor(t, Xor(s2, t)), s2) == ZERO;
  }

  lemma StepThreeB(syn: seq<Byte>, a: Byte, d: Byte)
    requires |syn| == 5 && syn[0] == ONE && syn[1] != ZERO && Xor(syn[2], Mul(syn[1], syn[1])) == ZERO
    requires a == Mul(Inv(syn[1]), syn[2]) && d == Xor(syn[3], Mul(a, syn[2])) && d != ZERO
    ensures KeyEquation(Iterate(syn, 3), syn) && Auxiliary(Iterate(syn, 3), syn, a, d)
  {
    hide Mul, Xor, Inv, Iterate;
    var s1, s2 := syn[1], syn[2];
    Ratio(s1, s2);
    MulZero(Inv(s1)); XorZero(s1);
    assert a == s1;
    AfterThreeB(syn, d);
    var p := Mul(Inv(s1), d);
    MulComm(p, s1); MulAssoc(s1, Inv(s1), d); MulInv(s1); MulOne(d); XorSelf(d);
    XorSelf(s1); MulZero(Inv(d));
    XorEqual(s2, Mul(s1, s1));
    XorCancel(p, s2);
  }

  // ----- step 4

  lemma FourthDiscrepancy(s: State, syn: seq<Byte>)
    requires s.Valid() && |syn| == 5 && syn[0] == ONE && s.sigma[3] == ZERO && s.sigma[4] == ZERO
    ensures Discrepancy(s.sigma, syn, 4, 5) == Xor(Xor(syn[4], Mul(s.sigma[1], syn[3])), Mul(s.sigma[2], syn[2]))
  {
    hide Mul, Xor, Discrepancy;
    DiscrepancyIs(s.sigma, syn, 4);
    MulZero(syn[1]);
    XorZero(Xor(Xor(syn[4], Mul(s.sigma[1], syn[3])), Mul(s.sigma[2], syn[2])));
  }

  lemma FourthStep(s: State, syn: seq<Byte>, a: Byte, b: Byte, i: Byte, delta: Byte)
    requires s.Valid() && |syn| == 5 && delta == Discrepancy(s.sigma, syn, 4, 5) && delta != ZERO && s.d == 2
    requires s.sigma[3] == ZERO && s.sigma[4] == ZERO && s.omega[0] == ONE
    requires s.tau == [i, Mul(a, i), ZERO, ZERO, ZERO] && s.gamma == [i, Mul(b, i), ZERO, ZERO, ZERO]
    ensures var t := Step(s, syn, 4); var u := Mul(i, delta);
            && t.sigma[1] == Xor(s.sigma[1], u) && t.sigma[2] == Xor(s.sigma[2], Mul(a, u))
            && t.sigma[3] == ZERO && t.sigma[4] == ZERO
            && t.omega[0] == ONE
            && t.omega[1] == Xor(s.omega[1], u) && t.omega[2] == Xor(s.omega[2], Mul(b, u))
  {
    hide Mul, Xor, Discrepancy, Step, Quotient;
    MethodB(s, syn, 4, delta);
    MulZero(delta); XorZero(ZERO);
    MulAssoc(a, i, delta); MulAssoc(b, i, delta);
  }

  /** The update of step 4 keeps coefficients 1 to 3 and clears coefficient 4. */
  lemma FourthAlgebra(p: Byte, q: Byte, s1: Byte, s2: Byte, s3: Byte, s4: Byte, a: Byte, d: Byte, delta: Byte)
    requires d != ZERO && Mul(a, s1) == s2 && Xor(s3, Mul(a, s2)) == d
    requires delta == Xor(Xor(s4, Mul(p, s3)), Mul(q, s2))
    requires Xor(Xor(s3, Mul(p, s2)), Mul(q, s1)) == ZERO
    ensures var u := Mul(Inv(d), delta); var p', q' := Xor(p, u), Xor(q, Mul(a, u));
            && Xor(Xor(s3, Mul(p', s2)), Mul(q', s1)) == ZERO
            && Xor(Xor(s4, Mul(p', s3)), Mul(q', s2)) == ZERO
            && Xor(Xor(p, s1), u) == Xor(p', s1)
            && Xor(Xor(Xor(q, Mul(p, s1)), s2), Mul(Xor(a, s1), u)) == Xor(Xor(q', Mul(p', s1)), s2)
  {
    hide Mul, Xor, Inv;
    var u := Mul(Inv(d), delta);
    // coefficient 3 moves by u (s2 + a s1) == 0
    Move(s3, p, s2, q, s1, u, a);
    XorSelf(s2); MulZero(u); XorSelf(ZERO);
    // coefficient 4 moves by u (s3 + a s2) == u d == delta
    Move(s4, p, s3, q, s2, u, a);
    MulComm(u, d); MulAssoc(d, Inv(d), delta); MulInv(d); MulOne(delta); XorSelf(delta);
    // coefficients 1 and 2
    XorAssoc(p, s1, u); XorComm(s1, u); XorAssoc(p, u, s1);
    EvaluatorMoves(q, p, s1, s2, a, u);
  }

  lemma StepFour(s: State, syn: seq<Byte>, a: Byte, d: Byte)
    requires |syn| == 5 && syn[0] == ONE && KeyEquation(s, syn) && Auxiliary(s, syn, a, d)
    ensures KeyEquation(Step(s, syn, 4), syn) && LastEquation(Step(s, syn, 4), syn)
  {
    hide Mul, Xor, Inv, Step, Discrepancy, Shift;
    var p, q := s.sigma[1], s.sigma[2];
    var delta := Discrepancy(s.sigma, syn, 4, 5);
    FourthDiscrepancy(s, syn);
    if delta == ZERO {
      IdleStep(s, syn, 4);
    } else {
      FourthStep(s, syn, a, Xor(a, syn[1]), Inv(d), delta);
      FourthAlgebra(p, q, syn[1], syn[2], syn[3], syn[4], a, d, delta);
    }
  }

  /** Adding u (1 + a x) x to the locator moves a coefficient by u (y + a w). */
  lemma Move(x: Byte, p: Byte, y: Byte, q: Byte, w: Byte, u: Byte, a: Byte)
    ensures Xor(Xor(x, Mul(Xor(p, u), y)), Mul(Xor(q, Mul(a, u)), w)) ==
            Xor(Xor(Xor(x, Mul(p, y)), Mul(q, w)), Mul(u, Xor(y, Mul(a, w))))
  {
    hide Mul, Xor;
    MulDistrib(p, u, y); MulDistrib(q, Mul(a, u), w); MulDistrib(y, Mul(a, w), u);
    MulComm(a, u); MulAssoc(u, a, w);
    var b, c, g, h := Mul(p, y), Mul(u, y), Mul(q, w), Mul(u, Mul(a, w));
    XorAssoc(x, b, c);
    XorInterchange(Xor(x, b), c, g, h);
  }

  lemma EvaluatorMoves(q: Byte, p: Byte, s1: Byte, s2: Byte, a: Byte, u: Byte)
    ensures Xor(Xor(Xor(q, Mul(p, s1)), s2), Mul(Xor(a, s1), u)) ==
            Xor(Xor(Xor(q, Mul(a, u)), Mul(Xor(p, u), s1)), s2)
  {
    hide Mul, Xor;
    MulDistrib(a, s1, u); MulDistrib(p, u, s1); MulComm(s1, u);
    var b, c, g := Mul(p, s1), Mul(a, u), Mul(u, s1);
    XorAssoc(Xor(q, b), s2, Xor(c, g)); XorComm(s2, Xor(c, g)); XorAssoc(Xor(q, b), Xor(c, g), s2);
    XorInterchange(q, b, c, g);
  }

  // ----- two errors: e at locator x, f at locator y

  function TwoErrors(e: Byte, x: Byte, f: Byte, y: Byte): seq<Byte> {
    [ONE, Xor(e, f), Xor(Mul(e, x), Mul(f, y)), Xor(Mul(Mul(e, x), x), Mul(Mul(f, y), y)),
     Xor(Mul(Mul(Mul(e, x), x), x), Mul(Mul(Mul(f, y), y), y))]
  }

  /** z z + p z + q. */
  function Quadratic(z: Byte, p: Byte, q: Byte): Byte {
    Xor(Xor(Mul(z, z), Mul(p, z)), q)
  }

  /** The weighted sum of the locator's values at x and y is a coefficient of syn * sigma. */
  lemma WeightedSum(e: Byte, x: Byte, f: Byte, y: Byte, p: Byte, q: Byte)
    ensures Xor(Mul(e, Quadratic(x, p, q)), Mul(f, Quadratic(y, p, q))) ==
            Xor(Xor(Xor(Mul(Mul(e, x), x), Mul(Mul(f, y), y)), Mul(p, Xor(Mul(e, x), Mul(f, y)))), Mul(q, Xor(e, f)))
  {
    hide Mul, Xor;
    Spread(e, x, p, q); Spread(f, y, p, q);
    MulDistrib(Mul(e, x), Mul(f, y), p);
    MulDistrib(e, f, q);
    XorInterchange(Xor(Mul(Mul(e, x), x), Mul(p, Mul(e, x))), Mul(q, e), Xor(Mul(Mul(f, y), y), Mul(p, Mul(f, y))),
                   Mul(q, f));
    XorInterchange(Mul(Mul(e, x), x), Mul(p, Mul(e, x)), Mul(Mul(f, y), y), Mul(p, Mul(f, y)));
  }

  lemma Spread(e: Byte, x: Byte, p: Byte, q: Byte)
    ensures Mul(e, Quadratic(x, p, q)) == Xor(Xor(Mul(Mul(e, x), x), Mul(p, Mul(e, x))), Mul(q, e))
  {
    hide Mul, Xor;
    MulDistrib(Xor(Mul(x, x), Mul(p, x)), q, e);
    MulDistrib(Mul(x, x), Mul(p, x), e);
    MulAssoc(e, x, x);
    MulAssoc(e, p, x); MulComm(e, p); MulAssoc(p, e, x);
    MulComm(e, q);
  }

  lemma MulCancel(a: Byte, b: Byte, c: Byte)
    requires c != ZERO && Mul(a, c) == Mul(b, c)
    ensures a == b
  {
    hide Mul, Xor;
    MulDistrib(a, b, c);
    XorSelf(Mul(a, c));
    MulNonzero(Xor(a, b), c);
    XorEqual(a, b);
  }

  /** Both locators are roots of any quadratic that meets the last two equations. */
  lemma BothRoots(e: Byte, x: Byte, f: Byte, y: Byte, p: Byte, q: Byte)
    requires e != ZERO && f != ZERO && x != y && x != ZERO && y != ZERO
    requires var syn := TwoErrors(e, x, f, y);
             && Xor(Xor(syn[3], Mul(p, syn[2])), Mul(q, syn[1])) == ZERO
             && Xor(Xor(syn[4], Mul(p, syn[3])), Mul(q, syn[2])) == ZERO
    ensures Quadratic(x, p, q) == ZERO && Quadratic(y, p, q) == ZERO
  {
    hide Mul, Xor, Quadratic;
    var g, h := Quadratic(x, p, q), Quadratic(y, p, q);
    WeightedSum(e, x, f, y, p, q);
    WeightedSum(Mul(e, x), x, Mul(f, y), y, p, q);
    var u := Mul(e, g);
    XorEqual(u, Mul(f, h));
    XorEqual(Mul(Mul(e, x), g), Mul(Mul(f, y), h));
    MulComm(e, x); MulAssoc(x, e, g);
    MulComm(f, y); MulAssoc(y, f, h);
    if u != ZERO {
      MulCancel(x, y, u);
    }
    MulNonzero(e, g); MulNonzero(f, h);
  }

  /** A monic quadratic with the two roots x and y is the product of its factors. */
  lemma RootsDetermine(x: Byte, y: Byte, p: Byte, q: Byte)
    requires x != y && Quadratic(x, p, q) == ZERO && Quadratic(y, p, q) == ZERO
    ensures p == Xor(x, y) && q == Mul(x, y)
  {
    hide Mul, Xor;
    XorEqual(Xor(Mul(x, x), Mul(p, x)), q);
    XorEqual(Xor(Mul(y, y), Mul(p, y)), q);
    var w := Xor(x, y);
    XorEqual(x, y);
    // x x + y y == p (x + y)
    XorSelf(q);
    XorInterchange(Mul(x, x), Mul(p, x), Mul(y, y), Mul(p, y));
    MulDistrib(x, y, p);
    XorEqual(Xor(Mul(x, x), Mul(y, y)), Mul(p, w));
    Square(x, y);
    MulCancel(p, w, w);
    // q == x x + (x + y) x
    MulDistrib(x, y, x); MulComm(y, x);
    XorCancel(Mul(x, y), Mul(x, x));
  }

  lemma Square(x: Byte, y: Byte)
    ensures Mul(Xor(x, y), Xor(x, y)) == Xor(Mul(x, x), Mul(y, y))
  {
    hide Mul, Xor;
    var w := Xor(x, y);
    MulDistrib(x, y, w);
    MulDistrib(x, y, x); MulDistrib(x, y, y);
    MulComm(x, y);
    var a, b, c := Mul(x, x), Mul(x, y), Mul(y, y);
    assert Mul(w, w) == Xor(Xor(a, b), Xor(b, c));
    XorAssoc(a, b, Xor(b, c));
    XorCancel(c, b);
  }

  /** No linear locator explains two errors, so step 3 has something to correct. */
  lemma ThirdDiscrepancy(e: Byte, x: Byte, f: Byte, y: Byte, a: Byte)
    requires e != ZERO && f != ZERO && x != y
    requires var syn := TwoErrors(e, x, f, y); Mul(a, syn[1]) == syn[2]
    ensures var syn := TwoErrors(e, x, f, y); Xor(syn[3], Mul(a, syn[2])) != ZERO
  {
    hide Mul, Xor;
    var syn := TwoErrors(e, x, f, y);
    if Xor(syn[3], Mul(a, syn[2])) == ZERO {
      var u, v := Mul(e, Xor(x, a)), Mul(f, Xor(y, a));
      LinearSum(e, x, f, y, a);
      XorSelf(syn[2]); XorEqual(u, v);
      LinearSum(Mul(e, x), x, Mul(f, y), y, a);
      MulComm(e, x); MulAssoc(x, e, Xor(x, a));
      MulComm(f, y); MulAssoc(y, f, Xor(y, a));
      XorEqual(Mul(x, u), Mul(y, v));
      if u != ZERO {
        MulCancel(x, y, u);
      }
      MulNonzero(e, Xor(x, a)); MulNonzero(f, Xor(y, a));
      XorEqual(x, a); XorEqual(y, a);
    }
  }

  lemma LinearSum(e: Byte, x: Byte, f: Byte, y: Byte, a: Byte)
    ensures Xor(Mul(e, Xor(x, a)), Mul(f, Xor(y, a))) == Xor(Xor(Mul(e, x), Mul(f, y)), Mul(a, Xor(e, f)))
  {
    hide Mul, Xor;
    MulDistrib(x, a, e); MulDistrib(y, a, f); MulDistrib(e, f, a);
    MulComm(e, a); MulComm(f, a);
    XorInterchange(Mul(e, x), Mul(a, e), Mul(f, y), Mul(a, f));
  }

  /** Different error values: the iteration solves the key equation. */
  lemma DistinctErrors(e: Byte, x: Byte, f: Byte, y: Byte)
    requires e != ZERO && f != ZERO && x != y && e != f
    ensures var syn := TwoErrors(e, x, f, y); KeyEquation(Iterate(syn, 4), syn) && LastEquation(Iterate(syn, 4), syn)
  {
    hide Mul, Xor, Inv, Iterate, KeyEquation, Auxiliary, LastEquation;
    var syn := TwoErrors(e, x, f, y);
    var a := Mul(Inv(syn[1]), syn[2]);
    var d := Xor(syn[3], Mul(a, syn[2]));
    XorEqual(e, f);
    Ratio(syn[1], syn[2]);
    ThirdDiscrepancy(e, x, f, y, a);
    if Xor(syn[2], Mul(syn[1], syn[1])) == ZERO {
      StepThreeB(syn, a, d);
    } else {
      StepThreeA(syn, a, d);
    }
    IterateStep(syn, 4);
    StepFour(Iterate(syn, 3), syn, a, d);
  }

  // ----- equal error values

  lemma EqualAfterTwo(syn: seq<Byte>)
    requires |syn| == 5 && syn[0] == ONE && syn[1] == ZERO && syn[2] != ZERO
    ensures var r := Inv(syn[2]);
            Iterate(syn, 2) ==
                State([ONE, ZERO, syn[2], ZERO, ZERO], UNIT, [r, ZERO, ZERO, ZERO, ZERO], [r, ZERO, ZERO, ZERO, ZERO],
                      2, true)
  {
    hide Mul, Xor, Discrepancy, Inv, Step, Shift, AddScaled, Divided;
    var s := Start();
    IterateStep(syn, 1); IterateStep(syn, 2);
    DiscrepancyIs(s.sigma, syn, 1);
    IdleStep(s, syn, 1);
    Unfold(s.tau, s.tau, ZERO, 1); Unfold(s.gamma, s.gamma, ZERO, 1);
    var s1 := s.(tau := [ZERO, ONE, ZERO, ZERO, ZERO], gamma := NULL);
    assert Step(s, syn, 1) == s1;
    DiscrepancyIs(s1.sigma, syn, 2);
    MulZero(ZERO); XorZero(syn[2]);
    MethodB(s1, syn, 2, syn[2]);
    MulZero(syn[2]); XorZero(ZERO); MulOne(syn[2]);
    MulOne(Inv(syn[2])); MulZero(Inv(syn[2]));
  }

  lemma EqualThirdStep(s: State, syn: seq<Byte>)
    requires |syn| == 5 && syn[0] == ONE && syn[1] == ZERO && syn[2] != ZERO && syn[3] != ZERO
    requires var r := Inv(syn[2]);
             s == State([ONE, ZERO, syn[2], ZERO, ZERO], UNIT, [r, ZERO, ZERO, ZERO, ZERO], [r, ZERO, ZERO, ZERO, ZERO],
                        2, true)
    ensures var p, i := Mul(Inv(syn[2]), syn[3]), Inv(syn[3]);
            Step(s, syn, 3) == State([ONE, p, syn[2], ZERO, ZERO], [ONE, p, ZERO, ZERO, ZERO],
                                     [i, ZERO, Mul(syn[2], i), ZERO, ZERO], [i, ZERO, ZERO, ZERO, ZERO], 1, false)
  {
    hide Mul, Xor, Discrepancy, Inv, Step;
    DiscrepancyIs(s.sigma, syn, 3);
    MulZero(syn[2]); XorZero(syn[3]);
    MethodB(s, syn, 3, syn[3]);
    MulZero(syn[3]); XorZero(ZERO); XorZero(syn[2]); XorZero(Mul(Inv(syn[2]), syn[3]));
    MulOne(Inv(syn[3])); MulZero(Inv(syn[3]));
  }

  /** The syndromes of two equal errors factor through w = x + y. */
  lemma EqualSyndromes(e: Byte, x: Byte, y: Byte)
    ensures var syn := TwoErrors(e, x, e, y); var w := Xor(x, y);
            syn[1] == ZERO && syn[2] == Mul(e, w) && syn[3] == Mul(syn[2], w)
  {
    hide Mul, Xor;
    var w := Xor(x, y);
    XorSelf(e);
    MulDistrib(x, y, e);
    MulDistrib(Mul(x, x), Mul(y, y), e);
    Square(x, y);
    MulAssoc(e, x, x); MulAssoc(e, y, y); MulAssoc(e, w, w);
  }

  /** With sigma = 1 + w z + s2 z z the discrepancy of step 4 is s2 (x y + s2). */
  lemma EqualFourthDiscrepancy(e: Byte, x: Byte, y: Byte)
    ensures var syn := TwoErrors(e, x, e, y); var w := Xor(x, y);
            Xor(Xor(syn[4], Mul(w, syn[3])), Mul(syn[2], syn[2])) == Mul(syn[2], Xor(Mul(x, y), syn[2]))
  {
    hide Mul, Xor, Quadratic;
    var syn, w := TwoErrors(e, x, e, y), Xor(x, y);
    var m := Xor(Mul(x, y), syn[2]);
    EqualSyndromes(e, x, y);
    WeightedSum(Mul(e, x), x, Mul(e, y), y, w, syn[2]);
    QuadraticOfSum(x, y, syn[2]);
    MulDistrib(Mul(e, x), Mul(e, y), m);
  }

  lemma QuadraticOfSum(x: Byte, y: Byte, q: Byte)
    ensures Quadratic(x, Xor(x, y), q) == Xor(Mul(x, y), q) && Quadratic(y, Xor(x, y), q) == Xor(Mul(x, y), q)
  {
    hide Mul, Xor;
    MulDistrib(x, y, x); MulDistrib(x, y, y); MulComm(x, y);
    XorCancel(Mul(x, y), Mul(x, x));
    XorComm(Mul(x, y), Mul(y, y)); XorCancel(Mul(x, y), Mul(y, y));
  }

  lemma EqualFourthStep(s: State, syn: seq<Byte>, w: Byte, i: Byte, delta: Byte)
    requires |syn| == 5 && syn[0] == ONE && syn[2] != ZERO && i != ZERO
    requires delta == Xor(Xor(syn[4], Mul(w, syn[3])), Mul(syn[2], syn[2])) && delta != ZERO
    requires s == State([ONE, w, syn[2], ZERO, ZERO], [ONE, w, ZERO, ZERO, ZERO],
                        [i, ZERO, Mul(syn[2], i), ZERO, ZERO], [i, ZERO, ZERO, ZERO, ZERO], 1, false)
    ensures Step(s, syn, 4).sigma[3] != ZERO
  {
    hide Mul, Xor, Discrepancy, Step, Quotient;
    FourthDiscrepancy(s, syn);
    MethodB(s, syn, 4, delta);
    var t := Mul(Mul(syn[2], i), delta);
    XorZero(t);
    MulNonzero(Mul(syn[2], i), delta);
    MulNonzero(syn[2], i);
  }

  /** Equal error values: solved when x y == e (x + y), and given up otherwise. */
  lemma EqualErrors(e: Byte, x: Byte, y: Byte)
    requires e != ZERO && x != y
    ensures var syn := TwoErrors(e, x, e, y); var s := Iterate(syn, 4);
            if Mul(x, y) == Mul(e, Xor(x, y)) then KeyEquation(s, syn) && LastEquation(s, syn) else s.sigma[3] != ZERO
  {
    hide Mul, Xor, Inv, Iterate, Step, Discrepancy, Shift;
    var syn, w := TwoErrors(e, x, e, y), Xor(x, y);
    EqualSyndromes(e, x, y);
    XorEqual(x, y);
    MulNonzero(e, w); MulNonzero(syn[2], w);
    EqualAfterTwo(syn);
    var s := Iterate(syn, 2);
    IterateStep(syn, 3); IterateStep(syn, 4);
    EqualThirdStep(s, syn);
    MulAssoc(Inv(syn[2]), syn[2], w); MulInv(syn[2]); MulOne(w);
    var t := Step(s, syn, 3);
    assert t.sigma == [ONE, w, syn[2], ZERO, ZERO];
    EqualFourthDiscrepancy(e, x, y);
    XorEqual(Mul(x, y), syn[2]);
    MulNonzero(syn[2], Xor(Mul(x, y), syn[2]));
    FourthDiscrepancy(t, syn);
    if Mul(x, y) == syn[2] {
      IdleStep(t, syn, 4);
      XorZero(w); MulZero(w); XorZero(syn[2]); XorSelf(syn[2]);
      MulComm(w, syn[2]); XorSelf(syn[3]); MulZero(syn[2]); XorZero(ZERO);
    } else {
      MulInv(syn[3]);
      EqualFourthStep(t, syn, w, Inv(syn[3]), Xor(Xor(syn[4], Mul(w, syn[3])), Mul(syn[2], syn[2])));
    }
  }

  // ----- from the key equation to positions and values

  lemma ValueAtIs(p: seq<Byte>, z: nat)
    requires |p| == 5 && z <= 255
    ensures var w := Exp(255 - z); ValueAt(p, z) == Xor(Xor(p[0], Mul(p[1], w)), Mul(Mul(p[2], w), w))
  {
    hide Mul, Xor, Times, Exp;
    var n := 255 - z;
    MulExp(p[1], n); MulExp(p[2], n); MulExp(Times(p[2], n), n);
    TimesAdd(p[2], n, n);
  }

  /** 1 + (x + y) w + x y w w == (1 + x w)(1 + y w). */
  lemma LocatorFactors(x: Byte, y: Byte, w: Byte)
    ensures Xor(Xor(ONE, Mul(Xor(x, y), w)), Mul(Mul(Mul(x, y), w), w)) == Mul(Xor(ONE, Mul(x, w)), Xor(ONE, Mul(y, w)))
  {
    hide Mul, Xor;
    var a, b := Mul(x, w), Mul(y, w);
    MulDistrib(x, y, w);
    MulAssoc(x, y, w); MulAssoc(x, b, w); MulComm(b, w); MulAssoc(x, w, b);
    MulDistrib(ONE, a, Xor(ONE, b)); MulOne(Xor(ONE, b));
    MulDistrib(ONE, b, a); MulOne(a);
    XorAssoc(ONE, a, b); XorComm(a, b); XorAssoc(ONE, b, a);
    XorAssoc(Xor(ONE, b), a, Mul(a, b));
  }

  lemma PowerIsOne(n: nat)
    requires n < 510
    ensures Exp(n) == ONE <==> n == 0 || n == 255
  {
    hide Exp;
    ExpRow0(); ExpRow15();
    if 0 < n < 255 {
      ExpNotOne(n);
    } else if n > 255 {
      ExpPeriod(n - 255);
      ExpNotOne(n - 255);
    }
  }

  lemma LocatorRoot(sigma: seq<Byte>, p: nat, q: nat, z: nat)
    requires p <= 35 && q <= 35 && z <= 35 && |sigma| == 5
    requires sigma[0] == ONE && sigma[1] == Xor(Exp(p), Exp(q)) && sigma[2] == Mul(Exp(p), Exp(q))
    ensures ValueAt(sigma, z) == ZERO <==> z == p || z == q
  {
    hide Mul, Xor, Times, Exp, ValueAt;
    var x, y, w := Exp(p), Exp(q), Exp(255 - z);
    ValueAtIs(sigma, z);
    LocatorFactors(x, y, w);
    MulNonzero(Xor(ONE, Mul(x, w)), Xor(ONE, Mul(y, w)));
    XorEqual(ONE, Mul(x, w)); XorEqual(ONE, Mul(y, w));
    MulExp(x, 255 - z); ExpAdd(p, 255 - z); PowerIsOne(p + 255 - z);
    MulExp(y, 255 - z); ExpAdd(q, 255 - z); PowerIsOne(q + 255 - z);
  }

  lemma {:induction false} FirstRootIs(sigma: seq<Byte>, z: nat, r: nat)
    requires |sigma| == 5 && z <= r <= 255 && ValueAt(sigma, r) == ZERO
    requires forall i: nat :: z <= i < r ==> ValueAt(sigma, i) != ZERO
    ensures FirstRoot(sigma, z) == r
    decreases r - z
  {
    hide ValueAt;
    if z < r {
      FirstRootIs(sigma, z + 1, r);
    }
  }

  lemma PositionsFound(sigma: seq<Byte>, p: nat, q: nat)
    requires p < q <= 35 && |sigma| == 5
    requires sigma[0] == ONE && sigma[1] == Xor(Exp(p), Exp(q)) && sigma[2] == Mul(Exp(p), Exp(q))
    ensures FirstRoot(sigma, 0) == p && SecondPosition(sigma, p) == q && sigma[2] != ZERO
  {
    hide Mul, Xor, Exp, ValueAt, FirstRoot;
    LocatorRoot(sigma, p, q, p);
    forall i: nat | i < p
      ensures ValueAt(sigma, i) != ZERO
    {
      LocatorRoot(sigma, p, q, i);
    }
    FirstRootIs(sigma, 0, p);
    MulExp(Exp(p), q); ExpAdd(p, q);
    LogExp(p + q); LogOne(); ExpNonzero(p + q);
  }

  lemma EvaluatorAtRoot(e: Byte, x: Byte, f: Byte, y: Byte)
    ensures var s, t, u := Xor(x, y), Xor(e, f), Xor(Mul(e, x), Mul(f, y));
            Quadratic(x, Xor(s, t), Xor(Xor(Mul(x, y), Mul(s, t)), u)) == Mul(e, s)
  {
    hide Mul, Xor;
    var s, t, u := Xor(x, y), Xor(e, f), Xor(Mul(e, x), Mul(f, y));
    var z, a, b, c, d := Mul(x, x), Mul(s, x), Mul(t, x), Mul(x, y), Mul(s, t);
    MulDistrib(s, t, x);
    XorAssoc(z, a, b); XorAssoc(c, d, u);
    XorInterchange(Xor(z, a), b, c, Xor(d, u));
    QuadraticOfSum(x, y, c); XorSelf(c);
    XorZero(Xor(b, Xor(d, u)));
    // t x + t s + u == t y + u == e (x + y)
    XorAssoc(b, d, u);
    MulComm(s, t); MulDistrib(x, s, t); XorCancel(y, x);
    MulDistrib(e, f, y);
    XorInterchange(Mul(e, y), Mul(f, y), Mul(e, x), Mul(f, y));
    XorSelf(Mul(f, y)); XorZero(Xor(Mul(e, y), Mul(e, x)));
    MulDistrib(x, y, e); XorComm(Mul(e, y), Mul(e, x));
  }

  /** p(1 / x) == (x x + p1 x + p2) / (x x). */
  lemma ValueFromQuadratic(x: Byte, w: Byte, p1: Byte, p2: Byte)
    requires Mul(x, w) == ONE
    ensures Xor(Xor(ONE, Mul(p1, w)), Mul(Mul(p2, w), w)) == Mul(Mul(Quadratic(x, p1, p2), w), w)
  {
    hide Mul, Xor;
    var a, b := Mul(x, x), Mul(p1, x);
    MulDistrib(Xor(a, b), p2, w); MulDistrib(a, b, w);
    MulAssoc(x, x, w); MulOne(x); MulAssoc(p1, x, w); MulOne(p1);
    assert Mul(Quadratic(x, p1, p2), w) == Xor(Xor(x, p1), Mul(p2, w));
    MulDistrib(Xor(x, p1), Mul(p2, w), w); MulDistrib(x, p1, w);
  }

  lemma LocatorInverse(p: nat)
    requires p <= 35
    ensures Mul(Exp(p), Exp(255 - p)) == ONE
  {
    hide Mul, Exp;
    MulExp(Exp(p), 255 - p);
    ExpAdd(p, 255 - p);
    ExpRow15();
  }

  /** The value of the evaluator at the reciprocal of x: e (x + y) / (x x). */
  function EvaluatorValue(e: Byte, p: nat, q: nat): Byte
    requires p <= 35
  {
    Mul(Mul(Mul(e, Xor(Exp(p), Exp(q))), Exp(255 - p)), Exp(255 - p))
  }

  /** The 8-bit sum of logarithm and position does not wrap. */
  predicate Fits(e: Byte, p: nat, q: nat)
    requires p <= 35
  {
    Log(EvaluatorValue(e, p, q)) + p < 256
  }

  /** e (x + y) w w x == e (x + y) w, and (x + y) w is the divisor 1 + y w. */
  lemma Simplify(e: Byte, x: Byte, y: Byte, w: Byte)
    requires Mul(x, w) == ONE
    ensures var g := Xor(ONE, Mul(y, w)); Mul(Mul(Mul(Mul(e, Xor(x, y)), w), w), x) == Mul(e, g)
  {
    hide Mul, Xor;
    var s := Xor(x, y);
    MulComm(x, w);
    MulAssoc(Mul(Mul(e, s), w), w, x); MulOne(Mul(Mul(e, s), w));
    MulAssoc(e, s, w);
    MulDistrib(x, y, w);
  }

  lemma ErrorValueExponent(e: Byte, p: nat, q: nat, v: Byte, g: Byte)
    requires p <= 35 && q <= 35 && p != q && e != ZERO
    requires v == EvaluatorValue(e, p, q) && g == Xor(ONE, Exp(255 + q - p))
    ensures v != ZERO && g != ZERO && Exp(Log(v) + p + (255 - Log(g))) == e
  {
    hide Mul, Xor, Exp, Times;
    var x, y, w := Exp(p), Exp(q), Exp(255 - p);
    LocatorInverse(p);
    MulExp(y, 255 - p); ExpAdd(q, 255 - p);
    assert g == Xor(ONE, Mul(y, w));
    Simplify(e, x, y, w);
    if x == y {
      ExpInjective(p, q);
    }
    XorEqual(x, y); ExpNonzero(255 - p);
    MulNonzero(e, Xor(x, y)); MulNonzero(Mul(e, Xor(x, y)), w); MulNonzero(Mul(Mul(e, Xor(x, y)), w), w);
    ExpNonzero(p); MulNonzero(v, x); MulNonzero(e, g);
    ExpAdd(Log(v), p); MulExp(v, p);
    assert Exp(Log(v) + p) == Mul(e, g);
    ExpAdd(Log(v) + p, 255 - Log(g));
    MulExp(Mul(e, g), 255 - Log(g));
    MulAssoc(e, g, Inv(g)); MulInv(g); MulOne(e);
  }

  /** The decoder's error value is right exactly when the 8-bit sum does not wrap; when it does,
      the value is the error divided by alpha. */
  lemma ErrorValueIs(omega: seq<Byte>, e: Byte, p: nat, q: nat)
    requires |omega| == 5 && p <= 35 && q <= 35 && p != q && e != ZERO
    requires ValueAt(omega, p) == EvaluatorValue(e, p, q)
    ensures ErrorValue(omega, p, q) == e <==> Fits(e, p, q)
  {
    hide Mul, Xor, Exp, Times, ValueAt, EvaluatorValue;
    var v, g := EvaluatorValue(e, p, q), Xor(ONE, Exp(255 + q - p));
    ErrorValueExponent(e, p, q, v, g);
    var n := Log(v) + p + (255 - Log(g));
    if Log(v) + p >= 256 {
      ExpPeriod(n - 255);
      ExpAdd(n - 256, 1);
      if Exp(n - 256) == e {
        MulExp(e, 1); MulOne(e); MulComm(e, Exp(1)); MulComm(e, ONE);
        MulCancel(Exp(1), ONE, e);
        ExpNotOne(1);
      }
    }
  }

  // ----- the theorem

  /** The solved key equation gives the true locator, and the evaluator's value at each root. */
  lemma Solution(s: State, e: Byte, p: nat, f: Byte, q: nat)
    requires e != ZERO && f != ZERO && p <= 35 && q <= 35 && p != q
    requires var syn := TwoErrors(e, Exp(p), f, Exp(q)); KeyEquation(s, syn) && LastEquation(s, syn)
    ensures s.sigma[1] == Xor(Exp(p), Exp(q)) && s.sigma[2] == Mul(Exp(p), Exp(q))
    ensures ValueAt(s.omega, p) == EvaluatorValue(e, p, q)
  {
    hide Mul, Xor, Exp, ValueAt, Quadratic;
    var x, y, w := Exp(p), Exp(q), Exp(255 - p);
    if x == y {
      ExpInjective(p, q);
    }
    ExpNonzero(p); ExpNonzero(q);
    BothRoots(e, x, f, y, s.sigma[1], s.sigma[2]);
    RootsDetermine(x, y, s.sigma[1], s.sigma[2]);
    ValueAtIs(s.omega, p);
    LocatorInverse(p);
    ValueFromQuadratic(x, w, s.omega[1], s.omega[2]);
    EvaluatorAtRoot(e, x, f, y);
  }

  lemma TwoErrorsSymmetric(e: Byte, x: Byte, f: Byte, y: Byte)
    ensures TwoErrors(e, x, f, y) == TwoErrors(f, y, e, x)
  {
    hide Mul, Xor;
    XorComm(e, f);
    XorComm(Mul(e, x), Mul(f, y));
    XorComm(Mul(Mul(e, x), x), Mul(Mul(f, y), y));
    XorComm(Mul(Mul(Mul(e, x), x), x), Mul(Mul(Mul(f, y), y), y));
  }

  lemma SyndromeOfTwoFlips(c: seq<Byte>, i: nat, e: Byte, j: nat, f: Byte, k: nat)
    requires IsCodeword(c) && i < j < 36 && k < 4
    ensures Syndrome(Flip(Flip(c, i, e), j, f), k) == Xor(Times(f, Power(k, 35 - j)), Times(e, Power(k, 35 - i)))
  {
    hide Syndrome, Xor, Times, Power;
    SyndromeFlip(c, i, e, k);
    SyndromeFlip(Flip(c, i, e), j, f, k);
    XorZero(Times(e, Power(k, 35 - i)));
    XorComm(Times(f, Power(k, 35 - j)), Times(e, Power(k, 35 - i)));
  }

  lemma Powers(e: Byte, p: nat)
    ensures var x := Exp(p);
            && Times(e, Power(0, p)) == e && Times(e, Power(1, p)) == Mul(e, x)
            && Times(e, Power(2, p)) == Mul(Mul(e, x), x) && Times(e, Power(3, p)) == Mul(Mul(Mul(e, x), x), x)
  {
    hide Times, Exp, Mul;
    TimesIdentity(e);
    MulExp(e, p); MulExp(Times(e, p), p); MulExp(Times(e, 2 * p), p);
    TimesAdd(e, p, p); TimesAdd(e, 2 * p, p);
  }

  lemma SyndromesOfTwoFlips(c: seq<Byte>, i: nat, e: Byte, j: nat, f: Byte)
    requires IsCodeword(c) && i < j < 36
    ensures Syndromes(Flip(Flip(c, i, e), j, f)) == TwoErrors(f, Exp(35 - j), e, Exp(35 - i))
  {
    hide Syndrome, Times, Xor, Exp, Mul, Power, IsCodeword, Flip;
    SyndromeOfTwoFlips(c, i, e, j, f, 0); SyndromeOfTwoFlips(c, i, e, j, f, 1);
    SyndromeOfTwoFlips(c, i, e, j, f, 2); SyndromeOfTwoFlips(c, i, e, j, f, 3);
    Powers(e, 35 - i); Powers(f, 35 - j);
  }

  /** Whether the iteration ends with the true locator of errors e and f at positions p and q. */
  predicate LocatorFound(e: Byte, p: nat, f: Byte, q: nat) {
    e != f || Mul(Exp(p), Exp(q)) == Mul(e, Xor(Exp(p), Exp(q)))
  }

  lemma TwoErrorsIterate(e: Byte, p: nat, f: Byte, q: nat)
    requires e != ZERO && f != ZERO && p < q <= 35
    ensures var syn := TwoErrors(e, Exp(p), f, Exp(q)); var s := Iterate(syn, 4);
            if LocatorFound(e, p, f, q) then KeyEquation(s, syn) && LastEquation(s, syn) else s.sigma[3] != ZERO
  {
    hide Mul, Xor, Exp, Iterate, KeyEquation, LastEquation;
    if Exp(p) == Exp(q) {
      ExpInjective(p, q);
    }
    if e == f {
      EqualErrors(e, Exp(p), Exp(q));
    } else {
      DistinctErrors(e, Exp(p), f, Exp(q));
    }
  }

  lemma NotACodeword(d: seq<Byte>, e: Byte, p: nat, f: Byte, q: nat)
    requires |d| == 36 && e != ZERO && f != ZERO && p < q <= 35 && Syndromes(d) == TwoErrors(e, Exp(p), f, Exp(q))
    ensures Parity(d) != Ecc(d)
  {
    hide Mul, Xor, Exp, Syndrome, Ecc;
    CodewordIff(d);
    var syn := Syndromes(d);
    assert Syndrome(d, 0) == syn[1] && Syndrome(d, 1) == syn[2];
    XorEqual(e, f);
    if e == f {
      EqualSyndromes(e, Exp(p), Exp(q));
      if Exp(p) == Exp(q) {
        ExpInjective(p, q);
      }
      XorEqual(Exp(p), Exp(q));
      MulNonzero(e, Xor(Exp(p), Exp(q)));
    }
  }

  /** What the decoder answers when two bytes of a codeword are damaged. */
  lemma TwoErrorsDecode(d: seq<Byte>, e: Byte, p: nat, f: Byte, q: nat) returns (a: Byte, b: Byte)
    requires |d| == 36 && e != ZERO && f != ZERO && p < q <= 35 && Syndromes(d) == TwoErrors(e, Exp(p), f, Exp(q))
    ensures !LocatorFound(e, p, f, q) ==> DecodeString(d) == (d, -1)
    ensures LocatorFound(e, p, f, q) ==>
      && DecodeString(d) == (Flip(Flip(d, 35 - p, a), 35 - q, b), 2)
      && (a == e <==> Fits(e, p, q)) && (b == f <==> Fits(f, q, p))
  {
    hide Mul, Xor, Exp, Syndromes, Ecc, Iterate, ValueAt, FirstRoot, SecondPosition, ErrorValue, Flip, Fits,
         LastEquation, EvaluatorValue, TwoErrors;
    NotACodeword(d, e, p, f, q);
    TwoErrorsIterate(e, p, f, q);
    var s := Iterate(Syndromes(d), 4);
    if LocatorFound(e, p, f, q) {
      Solution(s, e, p, f, q);
      TwoErrorsSymmetric(e, Exp(p), f, Exp(q));
      Solution(s, f, q, e, p);
      PositionsFound(s.sigma, p, q);
      ErrorValueIs(s.omega, e, p, q);
      ErrorValueIs(s.omega, f, q, p);
      a, b := ErrorValue(s.omega, p, q), ErrorValue(s.omega, q, p);
    } else {
      a, b := e, f;
    }
  }

  lemma FlipBack(c: seq<Byte>, i: nat, e: Byte, j: nat, f: Byte, a: Byte, b: Byte)
    requires i < j < |c|
    ensures Flip(Flip(Flip(Flip(c, i, e), j, f), j, a), i, b) == c <==> a == f && b == e
  {
    hide Xor;
    var r := Flip(Flip(Flip(Flip(c, i, e), j, f), j, a), i, b);
    assert r[j] == Xor(Xor(c[j], f), a) && r[i] == Xor(Xor(c[i], e), b);
    XorAssoc(c[j], f, a); XorAssoc(c[i], e, b);
    XorEqual(f, a); XorEqual(e, b);
    XorZero(c[j]); XorZero(c[i]);
    XorSelf(c[j]); XorSelf(c[i]);
    XorCancel(Xor(f, a), c[j]); XorCancel(Xor(e, b), c[i]);
    if r == c {
      assert Xor(c[j], Xor(f, a)) == c[j] && Xor(c[i], Xor(e, b)) == c[i];
    }
  }

  /** Exactly which double errors rs_decode_string repairs: those whose locator the iteration
      finds and whose two error values survive the 8-bit addition.  A missed locator leaves the
      string alone and reports -1; a wrapped addition reports 2 and damages the string further. */
  lemma DoubleErrorCorrectedIff(c: seq<Byte>, i: nat, e: Byte, j: nat, f: Byte)
    requires IsCodeword(c) && i < j < 36 && e != ZERO && f != ZERO
    ensures var d, p, q := Flip(Flip(c, i, e), j, f), 35 - j, 35 - i;
            && (DecodeString(d) == (c, 2) <==> LocatorFound(f, p, e, q) && Fits(f, p, q) && Fits(e, q, p))
            && (LocatorFound(f, p, e, q) ==> DecodeString(d).1 == 2)
            && (!LocatorFound(f, p, e, q) ==> DecodeString(d) == (d, -1))
  {
    hide Mul, Xor, Exp, Syndromes, Fits, LocatorFound, DecodeString, Flip;
    var d, p, q := Flip(Flip(c, i, e), j, f), 35 - j, 35 - i;
    SyndromesOfTwoFlips(c, i, e, j, f);
    var a, b := TwoErrorsDecode(d, f, p, e, q);
    if LocatorFound(f, p, e, q) {
      FlipBack(c, i, e, j, f, a, b);
    }
  }

  /** A pair that is missed: the value 1 in both of the last two bytes. */
  lemma MissedPair(c: seq<Byte>)
    requires IsCodeword(c)
    ensures var d := Flip(Flip(c, 34, ONE), 35, ONE); DecodeString(d) == (d, -1)
  {
    hide Syndromes, DecodeString, Flip, Fits, Exp, Mul, Xor;
    ExpRow0();
    ExpProduct(0, 1);
    MulOne(Xor(Exp(0), Exp(1)));
    XorOf12();
    DoubleErrorCorrectedIff(c, 34, ONE, 35, ONE);
  }

  lemma ExpProduct(m: nat, n: nat)
    ensures Mul(Exp(m), Exp(n)) == Exp(m + n)
  {
    hide Mul, Exp, Times;
    MulExp(Exp(m), n);
    ExpAdd(m, n);
  }

  lemma XorOf12()
    ensures Xor(Byte(1), Byte(2)) == Byte(3) && Xor(Byte(1), Byte(4)) == Byte(5) && Xor(Byte(4), Byte(1)) == Byte(5)
  {
  }

  /** A pair that is found but miscorrected, because the sum of a logarithm and a position is 256. */
  lemma WrappedPair(c: seq<Byte>)
    requires IsCodeword(c)
    ensures var d := Flip(Flip(c, 33, Exp(208)), 35, ONE); DecodeString(d).0 != c && DecodeString(d).1 == 2
  {
    hide Syndromes, DecodeString, Flip, Exp, Mul, Xor, Log;
    ExpRow0(); ExpRow3(); ExpRow13();
    XorOf12();
    ExpProduct(208, 50); ExpProduct(258, 253); ExpProduct(511, 253);
    ExpPeriod(509); ExpPeriod(254);
    LogExp(254);
    DoubleErrorCorrectedIff(c, 33, Exp(208), 35, ONE);
  }
}
