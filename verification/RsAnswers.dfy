/** When rs_decode_string answers 1, for every string: exactly if the syndromes from the second on
    form a geometric progression whose ratio names a position in the string.  One wrong byte does that,
    but the first syndrome is not looked at: some strings with three wrong bytes are "corrected" in
    a fourth place.
 */
module RsAnswers {
  import opened Bytes
  import opened GaloisField
  import opened RsString
  import opened RsDecoder
  import opened RsTwoErrors

  /** The last three syndromes are s2, s2 x and s2 x x. */
  predicate Progression(syn: seq<Byte>, x: Byte)
    requires |syn| == 5
  {
    syn[1] != ZERO && syn[2] != ZERO && x != ZERO && syn[3] == Mul(syn[2], x) && syn[4] == Mul(syn[3], x)
  }

  /** A locator of degree one. */
  predicate Linear(s: State)
  {
    s.Valid() && s.sigma[1] != ZERO && s.sigma[2] == ZERO && s.sigma[3] == ZERO && s.sigma[4] == ZERO
  }

  /** The locator is linear exactly for a progression; its ratio is the locator, and the difference of the
      two polynomials is the first syndrome. */
  ghost predicate Classified(s: State, syn: seq<Byte>)
    requires |syn| == 5
  {
    && s.Valid()
    && (Linear(s) ==> Progression(syn, s.sigma[1]) && Xor(s.sigma[1], s.omega[1]) == syn[1])
    && forall x :: Progression(syn, x) ==> Linear(s) && s.sigma[1] == x
  }

  lemma SameRatio(s2: Byte, x: Byte, y: Byte)
    requires s2 != ZERO && Mul(s2, x) == Mul(s2, y)
    ensures x == y
  {
    hide Mul, Xor;
    MulDistrib(x, y, s2);
    XorEqual(Mul(s2, x), Mul(s2, y));
    MulNonzero(s2, Xor(x, y));
    XorEqual(x, y);
  }

  // ----- the locator after each way through the iteration

  lemma SigmaMoves(s: State, syn: seq<Byte>, l: nat)
    requires s.Valid() && |syn| == 5 && 1 <= l < 5
    ensures var delta := Discrepancy(s.sigma, syn, l, l + 1);
            Step(s, syn, l).sigma == AddScaled(s.sigma, Shift(s.tau, l), delta, l)
  {
  }

  /** The key equation is solved: the locator is linear if its quadratic coefficient vanishes. */
  lemma FromKeyEquation(s: State, syn: seq<Byte>, a: Byte)
    requires |syn| == 5 && KeyEquation(s, syn) && LastEquation(s, syn)
    requires syn[1] != ZERO && Mul(a, syn[1]) == syn[2] && Xor(syn[3], Mul(a, syn[2])) != ZERO
    ensures Classified(s, syn)
  {
    hide Mul, Xor, Inv;
    var p, q, s1, s2, s3, s4 := s.sigma[1], s.sigma[2], syn[1], syn[2], syn[3], syn[4];
    XorCancel(s1, p);
    if Linear(s) {
      MulZero(s1); MulZero(s2);
      XorZero(Xor(s3, Mul(p, s2))); XorZero(Xor(s4, Mul(p, s3)));
      XorEqual(s3, Mul(p, s2)); XorEqual(s4, Mul(p, s3));
      MulComm(p, s2); MulComm(p, s3);
      if s2 == ZERO {
        MulZero(p); MulZero(a); XorZero(ZERO);
      }
    }
    forall x | Progression(syn, x)
      ensures Linear(s) && p == x
    {
      Solved(s1, s2, s3, s4, p, q, a, x);
    }
  }

  /** (x + p) s2 == q s1 and (x + p) x s2 == q s2 leave only p == x and q == 0, unless s2 == x s1. */
  lemma Solved(s1: Byte, s2: Byte, s3: Byte, s4: Byte, p: Byte, q: Byte, a: Byte, x: Byte)
    requires s1 != ZERO && s2 != ZERO && s3 == Mul(s2, x) && s4 == Mul(s3, x)
    requires Xor(Xor(s3, Mul(p, s2)), Mul(q, s1)) == ZERO && Xor(Xor(s4, Mul(p, s3)), Mul(q, s2)) == ZERO
    requires Mul(a, s1) == s2 && Xor(s3, Mul(a, s2)) != ZERO
    ensures p == x && q == ZERO
  {
    hide Mul, Xor;
    var m := Xor(x, p);
    // m s2 == q s1 and m s3 == q s2
    MulComm(s2, x); MulComm(s3, x);
    MulDistrib(x, p, s2); MulDistrib(x, p, s3);
    XorEqual(Mul(m, s2), Mul(q, s1)); XorEqual(Mul(m, s3), Mul(q, s2));
    // m x s2 == q s2
    MulComm(s2, x); MulAssoc(m, x, s2);
    MulComm(Mul(m, x), s2); MulComm(q, s2);
    SameRatio(s2, Mul(m, x), q);
    // m s2 == m x s1
    MulAssoc(m, x, s1);
    if m != ZERO {
      SameRatio(m, s2, Mul(x, s1));
      MulComm(a, s1); MulComm(x, s1);
      SameRatio(s1, a, x);
      MulComm(s2, x);
      XorSelf(s3);
    } else {
      MulZero(x);
      XorEqual(x, p);
    }
  }

  /** No new discrepancy in step 3: the locator is still 1 + a z, unless step 4 finds one. */
  lemma FromIdleThird(syn: seq<Byte>, a: Byte)
    requires |syn| == 5 && syn[0] == ONE && syn[1] != ZERO && a == Mul(Inv(syn[1]), syn[2])
    requires Xor(syn[3], Mul(a, syn[2])) == ZERO
    ensures Classified(Iterate(syn, 4), syn)
  {
    hide Mul, Xor, Inv, Iterate, Step, Discrepancy, Shift, AddScaled;
    var s2, s3 := Iterate(syn, 2), Iterate(syn, 3);
    TwoDone(syn, a);
    IterateStep(syn, 3); IterateStep(syn, 4);
    DiscrepancyIs(s2.sigma, syn, 3);
    MulZero(syn[1]); XorZero(ZERO);
    IdleStep(s2, syn, 3);
    DiscrepancyIs(s3.sigma, syn, 4);
    MulZero(syn[2]);
    var delta := Xor(syn[4], Mul(a, syn[3]));
    XorZero(delta);
    FromStepFour(s3, syn, s2.tau, a, delta);
    XorEqual(syn[3], Mul(a, syn[2])); MulComm(a, syn[2]);
    forall x | Progression(syn, x)
      ensures x == a && delta == ZERO
    {
      SameRatio(syn[2], x, a);
      MulComm(a, syn[3]); XorSelf(syn[4]);
    }
    if delta == ZERO {
      XorEqual(syn[4], Mul(a, syn[3])); MulComm(a, syn[3]);
      Ratio(syn[1], syn[2]);
      MulNonzero(a, syn[1]);
      XorCancel(syn[1], a);
    }
  }

  /** After step 2: the locator is 1 + a z, and the evaluator's coefficient a + s1. */
  lemma TwoDone(syn: seq<Byte>, a: Byte)
    requires |syn| == 5 && syn[0] == ONE && syn[1] != ZERO && a == Mul(Inv(syn[1]), syn[2])
    ensures var s := Iterate(syn, 2);
            && s.sigma == [ONE, a, ZERO, ZERO, ZERO] && s.omega == [ONE, Xor(a, syn[1]), ZERO, ZERO, ZERO]
            && s.tau[2] == s.tau[3] == s.tau[4] == ZERO && (s.tau[0] != ZERO || s.tau[1] != ZERO)
  {
    hide Mul, Xor, Inv, Iterate;
    var delta := Xor(syn[2], Mul(syn[1], syn[1]));
    Ratio(syn[1], syn[2]);
    MulInv(syn[1]);
    if delta == ZERO {
      AfterTwoIdle(syn);
      MulZero(Inv(syn[1])); XorZero(syn[1]); XorSelf(syn[1]);
    } else {
      AfterTwo(syn, delta);
      MulInv(delta);
    }
  }

  lemma FromStepFour(s: State, syn: seq<Byte>, tau: seq<Byte>, a: Byte, delta: Byte)
    requires |syn| == 5 && s.Valid() && |tau| == 5 && s.sigma == [ONE, a, ZERO, ZERO, ZERO]
    requires s.tau == Shift(tau, 3) && delta == Discrepancy(s.sigma, syn, 4, 5)
    requires tau[2] == tau[3] == tau[4] == ZERO && (tau[0] != ZERO || tau[1] != ZERO)
    ensures var t := Step(s, syn, 4);
            if delta == ZERO then t.sigma == s.sigma && t.omega == s.omega
            else t.sigma[2] != ZERO || t.sigma[3] != ZERO || t.sigma[4] != ZERO
  {
    hide Mul, Xor, Discrepancy, Step, Shift, AddScaled;
    if delta == ZERO {
      IdleStep(s, syn, 4);
    } else {
      SigmaMoves(s, syn, 4);
      Unfold(tau, tau, delta, 3); Unfold(s.tau, s.tau, delta, 4); Unfold(s.sigma, Shift(s.tau, 4), delta, 4);
      XorZero(Mul(tau[0], delta)); XorZero(Mul(tau[1], delta));
      MulNonzero(tau[0], delta); MulNonzero(tau[1], delta);
    }
  }

  /** Without a first syndrome, but with a second: quadratic, of higher degree, or nothing. */
  lemma FromSecond(syn: seq<Byte>)
    requires |syn| == 5 && syn[0] == ONE && syn[1] == ZERO && syn[2] != ZERO
    ensures !Linear(Iterate(syn, 4))
  {
    hide Mul, Xor, Inv, Iterate, Step, Discrepancy, Shift, AddScaled;
    EqualAfterTwo(syn);
    var s := Iterate(syn, 2);
    IterateStep(syn, 3); IterateStep(syn, 4);
    MulInv(syn[2]);
    if syn[3] != ZERO {
      EqualThirdStep(s, syn);
      FromThirdStep(syn, Step(s, syn, 3), Mul(Inv(syn[2]), syn[3]), Inv(syn[3]));
    } else {
      DiscrepancyIs(s.sigma, syn, 3);
      MulZero(syn[2]); XorZero(ZERO);
      IdleStep(s, syn, 3);
      var t := Iterate(syn, 3);
      var delta := Discrepancy(t.sigma, syn, 4, 5);
      SigmaMoves(t, syn, 4);
      Unfold(s.tau, s.tau, delta, 3); Unfold(t.tau, t.tau, delta, 4); Unfold(t.sigma, Shift(t.tau, 4), delta, 4);
      MulZero(delta); XorZero(ZERO);
    }
  }

  lemma FromThirdStep(syn: seq<Byte>, t: State, w: Byte, i: Byte)
    requires |syn| == 5 && syn[0] == ONE && syn[2] != ZERO && syn[3] != ZERO && i == Inv(syn[3])
    requires t == State([ONE, w, syn[2], ZERO, ZERO], [ONE, w, ZERO, ZERO, ZERO],
                        [i, ZERO, Mul(syn[2], i), ZERO, ZERO], [i, ZERO, ZERO, ZERO, ZERO], 1, false)
    ensures !Linear(Step(t, syn, 4))
  {
    hide Mul, Xor, Inv, Step, Discrepancy;
    MulInv(syn[3]);
    FourthDiscrepancy(t, syn);
    var delta := Xor(Xor(syn[4], Mul(w, syn[3])), Mul(syn[2], syn[2]));
    if delta == ZERO {
      IdleStep(t, syn, 4);
    } else {
      EqualFourthStep(t, syn, w, i, delta);
    }
  }

  /** Without the first two syndromes the locator stays a unit or has a cubic coefficient. */
  lemma FromThird(syn: seq<Byte>)
    requires |syn| == 5 && syn[0] == ONE && syn[1] == ZERO && syn[2] == ZERO
    ensures !Linear(Iterate(syn, 4))
  {
    hide Mul, Xor, Inv, Iterate, Step, Discrepancy, Shift, AddScaled;
    var s := Iterate(syn, 2);
    NothingYet(syn);
    IterateStep(syn, 3); IterateStep(syn, 4);
    DiscrepancyIs(s.sigma, syn, 3);
    MulZero(ZERO); XorZero(syn[3]);
    ThirdSigma(s, syn);
    TauAfterThird(s, syn);
    FourthSigma(Iterate(syn, 3), syn);
  }

  lemma ThirdSigma(s: State, syn: seq<Byte>)
    requires |syn| == 5 && syn[0] == ONE && s == State(UNIT, UNIT, [ZERO, ZERO, ONE, ZERO, ZERO], NULL, 0, false)
    requires Discrepancy(s.sigma, syn, 3, 4) == syn[3]
    ensures Step(s, syn, 3).sigma == [ONE, ZERO, ZERO, syn[3], ZERO]
  {
    hide Mul, Xor, Step, Discrepancy, Shift, AddScaled;
    SigmaMoves(s, syn, 3);
    Unfold(s.tau, s.tau, syn[3], 3); Unfold(s.sigma, Shift(s.tau, 3), syn[3], 3);
    MulZero(syn[3]); XorZero(ZERO); MulOne(syn[3]); XorZero(syn[3]);
  }

  lemma FourthSigma(t: State, syn: seq<Byte>)
    requires |syn| == 5 && t.Valid() && t.sigma == [ONE, ZERO, ZERO, syn[3], ZERO]
    requires t.tau[2] == ZERO && (syn[3] == ZERO ==> t.tau[0] == ZERO)
    ensures !Linear(Step(t, syn, 4))
  {
    hide Mul, Xor, Step, Discrepancy, Shift, AddScaled;
    var delta := Discrepancy(t.sigma, syn, 4, 5);
    SigmaMoves(t, syn, 4);
    Unfold(t.tau, t.tau, delta, 4); Unfold(t.sigma, Shift(t.tau, 4), delta, 4);
    MulZero(delta); XorZero(syn[3]); XorZero(ZERO);
  }

  lemma NothingYet(syn: seq<Byte>)
    requires |syn| == 5 && syn[0] == ONE && syn[1] == ZERO && syn[2] == ZERO
    ensures Iterate(syn, 2) == State(UNIT, UNIT, [ZERO, ZERO, ONE, ZERO, ZERO], NULL, 0, false)
  {
    hide Mul, Xor, Discrepancy, Step, Shift, AddScaled, Divided;
    var s := Start();
    IterateStep(syn, 1); IterateStep(syn, 2);
    DiscrepancyIs(s.sigma, syn, 1);
    IdleStep(s, syn, 1);
    Unfold(s.tau, s.tau, ZERO, 1); Unfold(s.gamma, s.gamma, ZERO, 1);
    var s1 := Step(s, syn, 1);
    DiscrepancyIs(s1.sigma, syn, 2);
    MulZero(ZERO); XorZero(ZERO);
    IdleStep(s1, syn, 2);
    Unfold(s1.tau, s1.tau, ZERO, 2); Unfold(s1.gamma, s1.gamma, ZERO, 2);
  }

  /** Either way step 3 leaves no quadratic coefficient behind, and no linear one unless the locator is cubic. */
  lemma TauAfterThird(s: State, syn: seq<Byte>)
    requires |syn| == 5 && syn[0] == ONE && syn[1] == ZERO && syn[2] == ZERO
    requires s == State(UNIT, UNIT, [ZERO, ZERO, ONE, ZERO, ZERO], NULL, 0, false)
    ensures var tau := Step(s, syn, 3).tau;
            tau[2] == ZERO && (syn[3] == ZERO ==> tau[0] == ZERO)
  {
    hide Mul, Xor, Discrepancy, Step, Inv;
    DiscrepancyIs(s.sigma, syn, 3);
    MulZero(ZERO); XorZero(syn[3]);
    if syn[3] == ZERO {
      IdleStep(s, syn, 3);
    } else {
      MethodB(s, syn, 3, syn[3]);
      MulZero(Inv(syn[3]));
    }
  }

  /** Every way through the iteration. */
  lemma AllClassified(syn: seq<Byte>)
    requires |syn| == 5 && syn[0] == ONE
    ensures Classified(Iterate(syn, 4), syn)
  {
    hide Mul, Xor, Inv, Iterate, Linear, KeyEquation, LastEquation, Auxiliary;
    if syn[1] != ZERO {
      var a := Mul(Inv(syn[1]), syn[2]);
      var d := Xor(syn[3], Mul(a, syn[2]));
      if d == ZERO {
        FromIdleThird(syn, a);
      } else {
        if Xor(syn[2], Mul(syn[1], syn[1])) == ZERO {
          StepThreeB(syn, a, d);
        } else {
          StepThreeA(syn, a, d);
        }
        IterateStep(syn, 4);
        StepFour(Iterate(syn, 3), syn, a, d);
        Ratio(syn[1], syn[2]);
        FromKeyEquation(Iterate(syn, 4), syn, a);
      }
    } else if syn[2] != ZERO {
      FromSecond(syn);
    } else {
      FromThird(syn);
    }
  }

  // ----- the answer

  /** The position a progression names is in the string. */
  ghost predicate OneAt(c: seq<Byte>, e: nat)
    requires |c| == 36
  {
    e <= 35 && Progression(Syndromes(c), Exp(e))
  }

  /** The answer is 1 exactly if some position fits the last three syndromes; the byte there is changed by the
      first syndrome, and the result is a codeword exactly if the first two syndromes fit the position too. */
  lemma OneAnswerIff(c: seq<Byte>)
    requires |c| == 36
    ensures DecodeString(c).1 == 1 <==> exists e: nat :: OneAt(c, e)
    ensures forall e: nat :: OneAt(c, e) ==>
                        && DecodeString(c) == (Flip(c, 35 - e, Syndrome(c, 0)), 1)
                        && (IsCodeword(DecodeString(c).0) <==> Syndrome(c, 1) == Mul(Syndrome(c, 0), Exp(e)))
  {
    hide Syndrome, Iterate, Exp, Xor, Mul, Ecc, FirstRoot, SecondPosition, ErrorValue, Flip, IsCodeword;
    var syn := Syndromes(c);
    var s := Iterate(syn, 4);
    AllClassified(syn);
    CodewordIff(c);
    CodewordsApart(c);
    LogOne();
    if Linear(s) && Log(s.sigma[1]) <= 35 {
      assert OneAt(c, Log(s.sigma[1]));
    }
    forall e: nat | OneAt(c, e)
      ensures DecodeString(c) == (Flip(c, 35 - e, Syndrome(c, 0)), 1)
      ensures IsCodeword(DecodeString(c).0) <==> Syndrome(c, 1) == Mul(Syndrome(c, 0), Exp(e))
    {
      LogExp(e);
      Repaired(c, e);
    }
  }

  /** A codeword has no syndromes, and so no progression. */
  lemma CodewordsApart(c: seq<Byte>)
    requires |c| == 36
    ensures IsCodeword(c) ==> forall e: nat :: !OneAt(c, e)
  {
    hide Syndrome, Exp, Mul;
  }

  /** Changing the byte at position e by the first syndrome. */
  lemma Repaired(c: seq<Byte>, e: nat)
    requires |c| == 36 && OneAt(c, e)
    ensures IsCodeword(Flip(c, 35 - e, Syndrome(c, 0))) <==> Syndrome(c, 1) == Mul(Syndrome(c, 0), Exp(e))
  {
    hide Syndrome, Exp, Mul, Xor, Flip, Times, Power;
    var syn, v, x := Syndromes(c), Syndrome(c, 0), Exp(e);
    SyndromeFlip(c, 35 - e, v, 0); SyndromeFlip(c, 35 - e, v, 1);
    SyndromeFlip(c, 35 - e, v, 2); SyndromeFlip(c, 35 - e, v, 3);
    Powers(v, e);
    XorSelf(v);
    XorEqual(syn[2], Mul(v, x)); XorEqual(syn[3], Mul(Mul(v, x), x)); XorEqual(syn[4], Mul(Mul(Mul(v, x), x), x));
  }

  /** Three wrong bytes that are answered with 1 though the result is not a codeword. */
  lemma FalseOne(c: seq<Byte>)
    requires IsCodeword(c)
    ensures var d := Flip(Flip(Flip(c, 32, ONE), 33, Exp(14)), 35, ONE);
            DecodeString(d).1 == 1 && !IsCodeword(DecodeString(d).0)
  {
    hide Syndrome, Exp, Mul, Xor, Flip, DecodeString, Times, Power;
    var d := Flip(Flip(Flip(c, 32, ONE), 33, Exp(14)), 35, ONE);
    ThreeWrong(c, 0); ThreeWrong(c, 1); ThreeWrong(c, 2); ThreeWrong(c, 3);
    assert |d| == 36;
    Sums();
    ExpProduct(221, 29); ExpProduct(250, 29); ExpPeriod(24); ExpProduct(14, 29);
    ExpNonzero(14); ExpNonzero(221); ExpNonzero(29);
    assert OneAt(d, 29);
    OneAnswerIff(d);
    if Exp(43) == Exp(221) {
      ExpInjective(43, 221);
    }
  }

  lemma ThreeWrong(c: seq<Byte>, k: nat)
    requires IsCodeword(c) && k < 4
    ensures Syndrome(Flip(Flip(Flip(c, 32, ONE), 33, Exp(14)), 35, ONE), k) ==
                Xor(Xor(Exp(3 * k), Exp(14 + 2 * k)), ONE)
  {
    hide Syndrome, Exp, Xor, Flip, Times, Mul;
    SyndromeFlip(c, 32, ONE, k);
    SyndromeFlip(Flip(c, 32, ONE), 33, Exp(14), k);
    SyndromeFlip(Flip(Flip(c, 32, ONE), 33, Exp(14)), 35, ONE, k);
    MulExp(ONE, 3 * k); MulOne(Exp(3 * k));
    ExpAdd(14, 2 * k);
    TimesIdentity(ONE);
    assert Power(k, 3) == 3 * k && Power(k, 2) == 2 * k && Power(k, 0) == 0;
    XorZero(Exp(3 * k));
  }

  lemma Sums()
    ensures Xor(Xor(Exp(0), Exp(14)), ONE) == Exp(14) && Xor(Xor(Exp(3), Exp(16)), ONE) == Exp(221)
    ensures Xor(Xor(Exp(6), Exp(18)), ONE) == Exp(250) && Xor(Xor(Exp(9), Exp(20)), ONE) == Exp(24)
  {
    hide Exp;
    ExpRow0(); ExpRow1(); ExpRow13(); ExpRow15();
  }
}
