/** The strings of the product code: RS(36,32) words, 32 data bytes followed by 4 parity bytes.
    A string c stands for the polynomial c[0] x^35 + ... + c[35]; it is a codeword when that
    polynomial vanishes at 1, alpha, alpha^2 and alpha^3.
 */
module RsString {
  import opened Bytes
  import opened GaloisField

  /** The four bytes of the encoder's 32-bit remainder register, highest power first. */
  datatype Word4 = Word4(b3: Byte, b2: Byte, b1: Byte, b0: Byte)

  const ZERO4 := Word4(ZERO, ZERO, ZERO, ZERO)

  function XorWord(a: Word4, b: Word4): Word4 {
    Word4(Xor(a.b3, b.b3), Xor(a.b2, b.b2), Xor(a.b1, b.b1), Xor(a.b0, b.b0))
  }

  function TimesWord(a: Word4, n: nat): Word4 {
    Word4(Times(a.b3, n), Times(a.b2, n), Times(a.b1, n), Times(a.b0, n))
  }

  /** t_rem: v * x^4 modulo (x-1)(x-2)(x-4)(x-8) = x^4 + 0f x^3 + 36 x^2 + 78 x + 40. */
  function TRem(v: Byte): Word4 {
    Word4(Times(v, 75), Times(v, 249), Times(v, 78), Times(v, 6))
  }

  /** One shift of the remainder register, taking in the next message byte. */
  function Feed(r: Word4, v: Byte): Word4 {
    XorWord(TRem(r.b3), Word4(r.b2, r.b1, r.b0, v))
  }

  /** The register after i bytes of the data followed by four zero bytes. */
  function Register(c: seq<Byte>, i: nat): Word4
    requires |c| == 36 && 4 <= i <= 36
  {
    if i == 4 then Word4(c[0], c[1], c[2], c[3])
    else Feed(Register(c, i - 1), if i - 1 < 32 then c[i - 1] else ZERO)
  }

  function Ecc(c: seq<Byte>): Word4
    requires |c| == 36
  {
    Register(c, 36)
  }

  function Parity(c: seq<Byte>): Word4
    requires |c| == 36
  {
    Word4(c[32], c[33], c[34], c[35])
  }

  function EncodeString(c: seq<Byte>): seq<Byte>
    requires |c| == 36
  {
    var e := Ecc(c);
    c[..32] + [e.b3, e.b2, e.b1, e.b0]
  }

  // ----- strings as polynomials

  /** Value at alpha^k of the polynomial whose coefficients are the first n bytes. */
  function Horner(c: seq<Byte>, k: nat, n: nat): Byte
    requires n <= |c|
  {
    if n == 0 then ZERO else Xor(Times(Horner(c, k, n - 1), k), c[n - 1])
  }

  /** The decoder's syn[k + 1]. */
  function Syndrome(c: seq<Byte>, k: nat): Byte {
    Horner(c, k, |c|)
  }

  ghost predicate IsCodeword(c: seq<Byte>) {
    |c| == 36 && forall k: nat :: k < 4 ==> Syndrome(c, k) == ZERO
  }

  function Eval(r: Word4, k: nat): Byte {
    Xor(Xor(Xor(Times(r.b3, 3 * k), Times(r.b2, 2 * k)), Times(r.b1, k)), r.b0)
  }

  /** The data bytes followed by four zeros, or by the bytes of a register. */
  function WithParity(c: seq<Byte>, r: Word4): seq<Byte>
    requires |c| == 36
  {
    c[..32] + [r.b3, r.b2, r.b1, r.b0]
  }

  lemma {:induction false} HornerAgree(c: seq<Byte>, d: seq<Byte>, k: nat, n: nat)
    requires n <= |c| && n <= |d| && forall i :: 0 <= i < n ==> c[i] == d[i]
    ensures Horner(c, k, n) == Horner(d, k, n)
  {
    hide Xor, Times;
    if n > 0 {
      HornerAgree(c, d, k, n - 1);
    }
  }

  lemma EvalLinear(a: Word4, b: Word4, k: nat)
    ensures Eval(XorWord(a, b), k) == Xor(Eval(a, k), Eval(b, k))
  {
    hide Times, Xor;
    TimesLinear(a.b3, b.b3, 3 * k);
    TimesLinear(a.b2, b.b2, 2 * k);
    TimesLinear(a.b1, b.b1, k);
    var a3, a2, a1 := Times(a.b3, 3 * k), Times(a.b2, 2 * k), Times(a.b1, k);
    var b3, b2, b1 := Times(b.b3, 3 * k), Times(b.b2, 2 * k), Times(b.b1, k);
    XorInterchange(a3, b3, a2, b2);
    XorInterchange(Xor(a3, a2), Xor(b3, b2), a1, b1);
    XorInterchange(Xor(Xor(a3, a2), a1), Xor(Xor(b3, b2), b1), a.b0, b.b0);
  }

  lemma TimesXor4(a: Byte, b: Byte, c: Byte, d: Byte, n: nat)
    ensures Times(Xor(Xor(Xor(a, b), c), d), n) == Xor(Xor(Xor(Times(a, n), Times(b, n)), Times(c, n)), Times(d, n))
  {
    hide Xor, Times;
    TimesLinear(Xor(Xor(a, b), c), d, n);
    TimesLinear(Xor(a, b), c, n);
    TimesLinear(a, b, n);
  }

  /** The generator polynomial vanishes at alpha^k. */
  lemma GeneratorRoot(k: nat)
    requires k < 4
    ensures Xor(Xor(Xor(Exp(75 + 3 * k), Exp(249 + 2 * k)), Exp(78 + k)), Exp(6)) == Exp(4 * k)
  {
    hide Exp;
    ExpRow0(); ExpRow4(); ExpRow5(); ExpRow15();
  }

  lemma TimesSwap(m: nat, c: nat, n: nat)
    ensures Times(Times(Exp(m), c), n) == Times(Exp(c + n), m)
  {
    hide Times, Exp;
    ExpAdd(m, c);
    ExpAdd(m + c, n);
    ExpAdd(c + n, m);
  }

  lemma TRemEvalPower(m: nat, k: nat)
    requires k < 4
    ensures Xor(Xor(Xor(Times(Times(Exp(m), 75), 3 * k), Times(Times(Exp(m), 249), 2 * k)),
                    Times(Times(Exp(m), 78), k)),
                Times(Exp(m), 6)) == Times(Exp(m), 4 * k)
  {
    hide Times, Exp, Xor;
    GeneratorRoot(k);
    TimesXor4(Exp(75 + 3 * k), Exp(249 + 2 * k), Exp(78 + k), Exp(6), m);
    TimesSwap(m, 75, 3 * k); TimesSwap(m, 249, 2 * k); TimesSwap(m, 78, k);
    ExpAdd(m, 6); ExpAdd(6, m);
    ExpAdd(m, 4 * k); ExpAdd(4 * k, m);
  }

  /** v * x^4 and its remainder take the same value at alpha^k. */
  lemma TRemEval(v: Byte, k: nat)
    requires k < 4
    ensures Eval(TRem(v), k) == Times(v, 4 * k)
  {
    hide Times, Exp, Xor;
    if v == ZERO {
      TimesKernel(v, 75); TimesKernel(v, 249); TimesKernel(v, 78); TimesKernel(v, 6);
      TimesKernel(v, 3 * k); TimesKernel(v, 2 * k); TimesKernel(v, k); TimesKernel(v, 4 * k);
      XorZero(ZERO);
    } else {
      TRemEvalPower(Log(v), k);
    }
  }

  lemma FeedEval(r: Word4, v: Byte, k: nat)
    requires k < 4
    ensures Eval(Feed(r, v), k) == Xor(Times(Eval(r, k), k), v)
  {
    hide Times, Xor;
    EvalLinear(TRem(r.b3), Word4(r.b2, r.b1, r.b0, v), k);
    TRemEval(r.b3, k);
    TimesXor4(Times(r.b3, 3 * k), Times(r.b2, 2 * k), Times(r.b1, k), r.b0, k);
    TimesAdd(r.b3, 3 * k, k);
    TimesAdd(r.b2, 2 * k, k);
    TimesAdd(r.b1, k, k);
    var x, y, z, w := Times(r.b3, 4 * k), Times(r.b2, 3 * k), Times(r.b1, 2 * k), Times(r.b0, k);
    XorAssoc(x, y, z);
    XorAssoc(x, Xor(y, z), w);
    XorAssoc(x, Xor(Xor(y, z), w), v);
  }

  // ----- the remainder register evaluates like the message it has taken in

  lemma FeedZero(r: Word4, v: Byte)
    requires r.b3 == ZERO
    ensures Feed(r, v) == Word4(r.b2, r.b1, r.b0, v)
  {
    hide Times, Xor;
    TimesKernel(ZERO, 75); TimesKernel(ZERO, 249); TimesKernel(ZERO, 78); TimesKernel(ZERO, 6);
    XorZero(r.b2); XorZero(r.b1); XorZero(r.b0); XorZero(v);
  }

  lemma HornerFour(d: seq<Byte>, k: nat, n: nat)
    requires k < 4 && n + 4 <= |d| && Horner(d, k, n) == ZERO
    ensures Horner(d, k, n + 4) == Eval(Word4(d[n], d[n + 1], d[n + 2], d[n + 3]), k)
  {
    hide Times, Xor, Feed;
    var r1 := Word4(ZERO, ZERO, ZERO, d[n]);
    var r2 := Word4(ZERO, ZERO, d[n], d[n + 1]);
    var r3 := Word4(ZERO, d[n], d[n + 1], d[n + 2]);
    TimesKernel(ZERO, 3 * k); TimesKernel(ZERO, 2 * k); TimesKernel(ZERO, k);
    XorZero(ZERO); XorZero(d[n]);
    FeedZero(r1, d[n + 1]); FeedEval(r1, d[n + 1], k);
    FeedZero(r2, d[n + 2]); FeedEval(r2, d[n + 2], k);
    FeedZero(r3, d[n + 3]); FeedEval(r3, d[n + 3], k);
    assert Horner(d, k, n + 1) == d[n];
    assert Horner(d, k, n + 2) == Eval(r2, k);
    assert Horner(d, k, n + 3) == Eval(r3, k);
  }

  lemma {:induction false} RegisterEval(c: seq<Byte>, i: nat, k: nat)
    requires |c| == 36 && 4 <= i <= 36 && k < 4
    ensures Eval(Register(c, i), k) == Horner(WithParity(c, ZERO4), k, i)
  {
    hide Times, Xor, Eval, Feed;
    var d := WithParity(c, ZERO4);
    if i == 4 {
      HornerFour(d, k, 0);
    } else {
      RegisterEval(c, i - 1, k);
      FeedEval(Register(c, i - 1), d[i - 1], k);
    }
  }

  lemma {:induction false} HornerXor(a: seq<Byte>, b: seq<Byte>, d: seq<Byte>, k: nat, n: nat)
    requires n <= |a| && n <= |b| && n <= |d|
    requires forall i :: 0 <= i < n ==> d[i] == Xor(a[i], b[i])
    ensures Horner(d, k, n) == Xor(Horner(a, k, n), Horner(b, k, n))
  {
    hide Times, Xor;
    if n == 0 {
      XorZero(ZERO);
    } else {
      HornerXor(a, b, d, k, n - 1);
      var x, y := Horner(a, k, n - 1), Horner(b, k, n - 1);
      TimesLinear(x, y, k);
      XorInterchange(Times(x, k), Times(y, k), a[n - 1], b[n - 1]);
    }
  }

  lemma {:induction false} HornerZeros(d: seq<Byte>, k: nat, n: nat)
    requires n <= |d| && forall i :: 0 <= i < n ==> d[i] == ZERO
    ensures Horner(d, k, n) == ZERO
  {
    hide Times, Xor;
    if n > 0 {
      HornerZeros(d, k, n - 1);
      TimesKernel(ZERO, k);
      XorZero(ZERO);
    }
  }

  /** The syndromes of a string measure how far its parity is from its remainder. */
  lemma SyndromeIsEccDifference(c: seq<Byte>, k: nat)
    requires |c| == 36 && k < 4
    ensures Syndrome(c, k) == Eval(XorWord(Ecc(c), Parity(c)), k)
  {
    hide Times, Xor, Eval, Register;
    var message := WithParity(c, ZERO4);
    var tail := seq(32, i => ZERO) + [c[32], c[33], c[34], c[35]];
    forall i | 0 <= i < 36
      ensures c[i] == Xor(message[i], tail[i])
    {
      XorZero(c[i]);
    }
    HornerXor(message, tail, c, k, 36);
    RegisterEval(c, 36, k);
    HornerZeros(tail, k, 32);
    HornerFour(tail, k, 32);
    EvalLinear(Ecc(c), Parity(c), k);
  }

  // ----- four roots determine a register

  lemma TimesSum(r: Byte, m: nat, n: nat, p: nat)
    requires Xor(Exp(m), Exp(n)) == Exp(p)
    ensures Xor(Times(r, m), Times(r, n)) == Times(r, p)
  {
    hide Times, Exp, Xor, Mul;
    MulExp(r, m); MulExp(r, n); MulExp(r, p);
    MulDistrib(Exp(m), Exp(n), r);
  }

  lemma ExpSum(m: nat, n: nat, p: nat, q: nat)
    requires Xor(Exp(m), Exp(n)) == Exp(p)
    ensures Xor(Exp(m + q), Exp(n + q)) == Exp(p + q)
  {
    hide Times, Exp, Xor;
    TimesLinear(Exp(m), Exp(n), q);
    ExpAdd(m, q); ExpAdd(n, q); ExpAdd(p, q);
  }

  /** x + y x and the like: a sum of two multiples of r whose factor is again a power of alpha. */
  lemma Factor(r: Byte, q: nat, m: nat, n: nat, p: nat)
    requires Xor(Exp(m), Exp(n)) == Exp(p)
    ensures Xor(Times(r, q + m), Times(r, q + n)) == Times(r, q + p)
  {
    hide Times, Exp, Xor;
    ExpSum(m, n, p, q);
    TimesSum(r, q + m, q + n, q + p);
  }

  lemma SmallSums()
    ensures Xor(Exp(2), Exp(3)) == Exp(27) && Xor(Exp(1), Exp(3)) == Exp(51) && Xor(Exp(0), Exp(3)) == Exp(223)
    ensures Xor(Exp(1), Exp(2)) == Exp(26) && Xor(Exp(0), Exp(2)) == Exp(50) && Xor(Exp(0), Exp(1)) == Exp(25)
  {
    hide Exp;
    ExpRow0(); ExpRow1(); ExpRow3(); ExpRow13();
  }

  /** Eliminating the cubic coefficient from the values at alpha^k and alpha^(k+1). */
  lemma EliminateCubic(r: Word4, k: nat)
    requires Eval(r, k) == ZERO && Eval(r, k + 1) == ZERO
    ensures Xor(Xor(Times(r.b2, 2 * k + 27), Times(r.b1, k + 51)), Times(r.b0, 223)) == ZERO
  {
    hide Times, Exp, Xor;
    SmallSums();
    TimesXor4(Times(r.b3, 3 * k), Times(r.b2, 2 * k), Times(r.b1, k), r.b0, 3);
    TimesAdd(r.b3, 3 * k, 3); TimesAdd(r.b2, 2 * k, 3); TimesAdd(r.b1, k, 3);
    TimesKernel(ZERO, 3);
    TimesAdd(r.b0, 0, 0);
    var x3, x2, x1, x0 := Times(r.b3, 3 * k + 3), Times(r.b2, 2 * k + 2), Times(r.b1, k + 1), Times(r.b0, 0);
    var y2, y1, y0 := Times(r.b2, 2 * k + 3), Times(r.b1, k + 3), Times(r.b0, 3);
    TimesIdentity(r.b0);
    XorInterchange(Xor(Xor(x3, x2), x1), x0, Xor(Xor(x3, y2), y1), y0);
    XorInterchange(Xor(x3, x2), x1, Xor(x3, y2), y1);
    XorInterchange(x3, x2, x3, y2);
    XorSelf(x3); XorZero(Xor(x2, y2)); XorSelf(ZERO);
    Factor(r.b2, 2 * k, 2, 3, 27); Factor(r.b1, k, 1, 3, 51); Factor(r.b0, 0, 0, 3, 223);
  }

  lemma TimesIdentity(v: Byte)
    ensures Times(v, 0) == v
  {
  }

  lemma EliminateSquare(a: Byte, b: Byte, c: Byte, k: nat)
    requires Xor(Xor(Times(a, 2 * k + 27), Times(b, k + 51)), Times(c, 223)) == ZERO
    requires Xor(Xor(Times(a, 2 * k + 29), Times(b, k + 52)), Times(c, 223)) == ZERO
    ensures Xor(Times(b, k + 77), Times(c, 273)) == ZERO
  {
    hide Times, Exp, Xor;
    SmallSums();
    TimesLinear(Xor(Times(a, 2 * k + 27), Times(b, k + 51)), Times(c, 223), 2);
    TimesLinear(Times(a, 2 * k + 27), Times(b, k + 51), 2);
    TimesAdd(a, 2 * k + 27, 2); TimesAdd(b, k + 51, 2); TimesAdd(c, 223, 2);
    TimesKernel(ZERO, 2);
    var x, y0, y1, z0, z1 := Times(a, 2 * k + 29), Times(b, k + 52), Times(b, k + 53), Times(c, 223), Times(c, 225);
    XorInterchange(Xor(x, y0), z0, Xor(x, y1), z1);
    XorInterchange(x, y0, x, y1);
    XorSelf(x); XorZero(Xor(y0, y1)); XorSelf(ZERO);
    Factor(b, k + 51, 1, 2, 26); Factor(c, 223, 0, 2, 50);
  }

  /** A register that evaluates to zero at 1, alpha, alpha^2 and alpha^3 is zero: the code has
      four independent checks. */
  lemma EvalKernel(r: Word4)
    requires forall k: nat :: k < 4 ==> Eval(r, k) == ZERO
    ensures r == ZERO4
  {
    hide Times, Exp, Xor;
    assert Eval(r, 0) == ZERO && Eval(r, 1) == ZERO && Eval(r, 2) == ZERO && Eval(r, 3) == ZERO;
    EliminateCubic(r, 0); EliminateCubic(r, 1); EliminateCubic(r, 2);
    EliminateSquare(r.b2, r.b1, r.b0, 0);
    EliminateSquare(r.b2, r.b1, r.b0, 1);
    assert r.b0 == ZERO by {
      var y, z0, z1 := Times(r.b1, 78), Times(r.b0, 273), Times(r.b0, 274);
      TimesLinear(Times(r.b1, 77), z0, 1);
      TimesAdd(r.b1, 77, 1); TimesAdd(r.b0, 273, 1); TimesKernel(ZERO, 1);
      XorInterchange(y, z0, y, z1);
      XorSelf(y); XorZero(Xor(z0, z1)); XorSelf(ZERO);
      SmallSums();
      Factor(r.b0, 273, 0, 1, 25);
      TimesKernel(r.b0, 298);
    }
    TimesKernel(r.b0, 273); XorZero(Times(r.b1, 77)); TimesKernel(r.b1, 77);
    TimesKernel(r.b1, 51); TimesKernel(r.b0, 223); XorZero(Times(r.b2, 27)); TimesKernel(r.b2, 27);
    TimesIdentity(r.b3); TimesIdentity(r.b2); TimesIdentity(r.b1);
    XorZero(r.b3);
  }

  /** The decoder's first test - parity equal to the recomputed remainder - accepts exactly the
      codewords. */
  lemma CodewordIff(c: seq<Byte>)
    requires |c| == 36
    ensures IsCodeword(c) <==> Ecc(c) == Parity(c)
  {
    hide Times, Xor, Eval, Register, Syndrome;
    var e, p := Ecc(c), Parity(c);
    var difference := XorWord(e, p);
    forall k: nat | k < 4
      ensures Syndrome(c, k) == Eval(difference, k)
    {
      SyndromeIsEccDifference(c, k);
    }
    XorEqual(e.b3, p.b3); XorEqual(e.b2, p.b2); XorEqual(e.b1, p.b1); XorEqual(e.b0, p.b0);
    if IsCodeword(c) {
      EvalKernel(difference);
    } else if e == p {
      forall k: nat | k < 4
        ensures Eval(difference, k) == ZERO
      {
        EvalOfZero(k);
      }
    }
  }

  lemma EvalOfZero(k: nat)
    ensures Eval(ZERO4, k) == ZERO
  {
    hide Times, Xor;
    TimesKernel(ZERO, 3 * k); TimesKernel(ZERO, 2 * k); TimesKernel(ZERO, k);
    XorZero(ZERO);
  }

  lemma {:induction false} RegisterAgree(c: seq<Byte>, d: seq<Byte>, i: nat)
    requires |c| == |d| == 36 && 4 <= i <= 36 && c[..32] == d[..32]
    ensures Register(c, i) == Register(d, i)
  {
    hide Feed;
    assert forall j :: 0 <= j < 32 ==> c[j] == c[..32][j] && d[j] == d[..32][j];
    if i > 4 {
      RegisterAgree(c, d, i - 1);
    }
  }

  /** Encoding any 32 data bytes gives a codeword with the same data. */
  lemma EncodeIsCodeword(c: seq<Byte>)
    requires |c| == 36
    ensures IsCodeword(EncodeString(c)) && EncodeString(c)[..32] == c[..32]
  {
    hide Register, IsCodeword;
    RegisterAgree(c, EncodeString(c), 36);
    CodewordIff(EncodeString(c));
  }

  // ----- one damaged byte

  function Flip(c: seq<Byte>, j: nat, e: Byte): (d: seq<Byte>)
    requires j < |c|
    ensures |d| == |c|
  {
    c[j := Xor(c[j], e)]
  }

  /** The exponent of (alpha^k)^n. */
  function Power(k: nat, n: nat): nat {
    k * n
  }

  lemma PowerZero(k: nat)
    ensures Power(k, 0) == 0
  {
  }

  lemma PowerStep(k: nat, n: nat)
    ensures Power(k, n + 1) == Power(k, n) + k
  {
  }

  lemma {:induction false} HornerFlip(c: seq<Byte>, j: nat, e: Byte, k: nat, n: nat)
    requires j < n <= |c|
    ensures Horner(Flip(c, j, e), k, n) == Xor(Horner(c, k, n), Times(e, Power(k, n - 1 - j)))
  {
    hide Times, Xor, Power;
    var d := Flip(c, j, e);
    if n == j + 1 {
      HornerAgree(c, d, k, j);
      PowerZero(k);
      TimesIdentity(e);
      XorAssoc(Times(Horner(c, k, j), k), c[j], e);
    } else {
      HornerFlip(c, j, e, k, n - 1);
      var x, t := Horner(c, k, n - 1), Times(e, Power(k, n - 2 - j));
      TimesLinear(x, t, k);
      PowerStep(k, n - 2 - j);
      TimesAdd(e, Power(k, n - 2 - j), k);
      XorAssoc(Times(x, k), Times(t, k), c[n - 1]);
      XorComm(Times(t, k), c[n - 1]);
      XorAssoc(Times(x, k), c[n - 1], Times(t, k));
    }
  }

  lemma SyndromeFlip(c: seq<Byte>, j: nat, e: Byte, k: nat)
    requires |c| == 36 && j < 36
    ensures Syndrome(Flip(c, j, e), k) == Xor(Syndrome(c, k), Times(e, Power(k, 35 - j)))
  {
    hide Times, Xor, Power;
    HornerFlip(c, j, e, k, 36);
  }

  // ----- the parity is linear in the data

  lemma TRemLinear(a: Byte, b: Byte)
    ensures TRem(Xor(a, b)) == XorWord(TRem(a), TRem(b))
  {
    hide Times, Xor;
    TimesLinear(a, b, 75); TimesLinear(a, b, 249); TimesLinear(a, b, 78); TimesLinear(a, b, 6);
  }

  lemma TimesComm(v: Byte, m: nat, n: nat)
    ensures Times(Times(v, m), n) == Times(Times(v, n), m)
  {
    hide Times;
    TimesAdd(v, m, n);
    TimesAdd(v, n, m);
  }

  lemma TRemScale(a: Byte, n: nat)
    ensures TRem(Times(a, n)) == TimesWord(TRem(a), n)
  {
    hide Times;
    TimesComm(a, n, 75); TimesComm(a, n, 249); TimesComm(a, n, 78); TimesComm(a, n, 6);
  }

  lemma FeedLinear(p: Word4, q: Word4, a: Byte, b: Byte)
    ensures Feed(XorWord(p, q), Xor(a, b)) == XorWord(Feed(p, a), Feed(q, b))
  {
    hide Times, Xor;
    TRemLinear(p.b3, q.b3);
    var t, u := TRem(p.b3), TRem(q.b3);
    XorInterchange(t.b3, u.b3, p.b2, q.b2);
    XorInterchange(t.b2, u.b2, p.b1, q.b1);
    XorInterchange(t.b1, u.b1, p.b0, q.b0);
    XorInterchange(t.b0, u.b0, a, b);
  }

  lemma FeedScale(p: Word4, a: Byte, n: nat)
    ensures Feed(TimesWord(p, n), Times(a, n)) == TimesWord(Feed(p, a), n)
  {
    hide Times, Xor;
    TRemScale(p.b3, n);
    var t := TRem(p.b3);
    TimesLinear(t.b3, p.b2, n); TimesLinear(t.b2, p.b1, n); TimesLinear(t.b1, p.b0, n); TimesLinear(t.b0, a, n);
  }

  lemma {:induction false} EccAdditive(c: seq<Byte>, d: seq<Byte>, s: seq<Byte>, i: nat)
    requires |c| == |d| == |s| == 36 && 4 <= i <= 36
    requires forall j :: 0 <= j < 32 ==> s[j] == Xor(c[j], d[j])
    ensures Register(s, i) == XorWord(Register(c, i), Register(d, i))
  {
    hide Feed, Xor;
    if i > 4 {
      EccAdditive(c, d, s, i - 1);
      var a, b := if i - 1 < 32 then c[i - 1] else ZERO, if i - 1 < 32 then d[i - 1] else ZERO;
      XorZero(ZERO);
      FeedLinear(Register(c, i - 1), Register(d, i - 1), a, b);
    }
  }

  lemma {:induction false} EccHomogeneous(c: seq<Byte>, s: seq<Byte>, n: nat, i: nat)
    requires |c| == |s| == 36 && 4 <= i <= 36
    requires forall j :: 0 <= j < 32 ==> s[j] == Times(c[j], n)
    ensures Register(s, i) == TimesWord(Register(c, i), n)
  {
    hide Feed, Times;
    if i > 4 {
      EccHomogeneous(c, s, n, i - 1);
      var a := if i - 1 < 32 then c[i - 1] else ZERO;
      TimesKernel(ZERO, n);
      FeedScale(Register(c, i - 1), a, n);
    }
  }
}
