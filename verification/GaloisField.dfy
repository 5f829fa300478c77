/** Arithmetic in GF(2^8) with the polynomial x^8 + x^4 + x^3 + x^2 + 1 (0x11d), as the
    Reed-Solomon coder of the magneto-optical controller uses it.

    Everything rests on one map: XTime multiplies by alpha = 2.  Times iterates it, Exp gives the
    powers of alpha, Log inverts Exp, and Mul is the product the coder forms by adding logarithms.
    The coder's tables are named here by what they tabulate; the Row lemmas, here and in RsTables,
    show that every literal in the source is that value.
 */
module GaloisField {
  import opened Bytes

  /** Multiplication by alpha: shift left and reduce by 0x1d when the top bit falls out. */
  function XTime(v: Byte): Byte {
    Byte((v.bits << 1) ^ ((v.bits >> 7) * 0x1d))
  }

  /** v * alpha^n. */
  function Times(v: Byte, n: nat): Byte {
    if n == 0 then v else XTime(Times(v, n - 1))
  }

  function Exp(n: nat): Byte {
    Times(ONE, n)
  }

  /** t_exp has 768 entries; the precondition is the bound every look-up has to respect. */
  function TExp(i: int): Byte
    requires 0 <= i < 768
  {
    Exp(i)
  }

  /** t_log: the discrete logarithm below 255, and 0 for the byte 0. */
  function Log(v: Byte): (n: nat)
    ensures n < 255
    ensures v != ZERO ==> Exp(n) == v
  {
    if v == ZERO then 0 else
      LogExists(v);
      LogUnique(v);
      var n: nat :| n < 255 && Exp(n) == v;
      n
  }

  // ----- XTime, Times and Exp

  lemma XTimeLinear(a: Byte, b: Byte)
    ensures XTime(Xor(a, b)) == Xor(XTime(a), XTime(b))
  {
  }

  lemma XTimeKernel(a: Byte)
    ensures XTime(a) == ZERO <==> a == ZERO
  {
  }

  lemma {:induction false} TimesLinear(a: Byte, b: Byte, n: nat)
    ensures Times(Xor(a, b), n) == Xor(Times(a, n), Times(b, n))
  {
    hide Xor, XTime;
    if n > 0 {
      TimesLinear(a, b, n - 1);
      XTimeLinear(Times(a, n - 1), Times(b, n - 1));
    }
  }

  lemma {:induction false} TimesAdd(v: Byte, m: nat, n: nat)
    ensures Times(Times(v, m), n) == Times(v, m + n)
  {
    hide XTime;
    if n > 0 {
      TimesAdd(v, m, n - 1);
    }
  }

  lemma {:induction false} TimesKernel(v: Byte, n: nat)
    ensures Times(v, n) == ZERO <==> v == ZERO
  {
    hide XTime;
    if n > 0 {
      TimesKernel(v, n - 1);
      XTimeKernel(Times(v, n - 1));
    }
  }

  lemma TimesInjective(a: Byte, b: Byte, n: nat)
    requires Times(a, n) == Times(b, n)
    ensures a == b
  {
    hide Xor, Times;
    TimesLinear(a, b, n);
    XorSelf(Times(a, n));
    TimesKernel(Xor(a, b), n);
    XorEqual(a, b);
  }

  lemma ExpAdd(m: nat, n: nat)
    ensures Times(Exp(m), n) == Exp(m + n)
  {
    hide XTime;
    TimesAdd(ONE, m, n);
  }

  lemma ExpNonzero(n: nat)
    ensures Exp(n) != ZERO
  {
    hide Times;
    TimesKernel(ONE, n);
  }

  // ----- alpha generates the multiplicative group: the first period of t_exp, sixteen a row

  lemma ExpRow0()
    ensures Exp(0) == Byte(0x01) && Exp(1) == Byte(0x02) && Exp(2) == Byte(0x04) && Exp(3) == Byte(0x08)
    ensures Exp(4) == Byte(0x10) && Exp(5) == Byte(0x20) && Exp(6) == Byte(0x40) && Exp(7) == Byte(0x80)
    ensures Exp(8) == Byte(0x1d) && Exp(9) == Byte(0x3a) && Exp(10) == Byte(0x74) && Exp(11) == Byte(0xe8)
    ensures Exp(12) == Byte(0xcd) && Exp(13) == Byte(0x87) && Exp(14) == Byte(0x13) && Exp(15) == Byte(0x26)
  {
  }

  lemma ExpRow1()
    ensures Exp(16) == Byte(0x4c) && Exp(17) == Byte(0x98) && Exp(18) == Byte(0x2d) && Exp(19) == Byte(0x5a)
    ensures Exp(20) == Byte(0xb4) && Exp(21) == Byte(0x75) && Exp(22) == Byte(0xea) && Exp(23) == Byte(0xc9)
    ensures Exp(24) == Byte(0x8f) && Exp(25) == Byte(0x03) && Exp(26) == Byte(0x06) && Exp(27) == Byte(0x0c)
    ensures Exp(28) == Byte(0x18) && Exp(29) == Byte(0x30) && Exp(30) == Byte(0x60) && Exp(31) == Byte(0xc0)
  {
    ExpRow0();
  }

  lemma ExpRow2()
    ensures Exp(32) == Byte(0x9d) && Exp(33) == Byte(0x27) && Exp(34) == Byte(0x4e) && Exp(35) == Byte(0x9c)
    ensures Exp(36) == Byte(0x25) && Exp(37) == Byte(0x4a) && Exp(38) == Byte(0x94) && Exp(39) == Byte(0x35)
    ensures Exp(40) == Byte(0x6a) && Exp(41) == Byte(0xd4) && Exp(42) == Byte(0xb5) && Exp(43) == Byte(0x77)
    ensures Exp(44) == Byte(0xee) && Exp(45) == Byte(0xc1) && Exp(46) == Byte(0x9f) && Exp(47) == Byte(0x23)
  {
    ExpRow1();
  }

  lemma ExpRow3()
    ensures Exp(48) == Byte(0x46) && Exp(49) == Byte(0x8c) && Exp(50) == Byte(0x05) && Exp(51) == Byte(0x0a)
    ensures Exp(52) == Byte(0x14) && Exp(53) == Byte(0x28) && Exp(54) == Byte(0x50) && Exp(55) == Byte(0xa0)
    ensures Exp(56) == Byte(0x5d) && Exp(57) == Byte(0xba) && Exp(58) == Byte(0x69) && Exp(59) == Byte(0xd2)
    ensures Exp(60) == Byte(0xb9) && Exp(61) == Byte(0x6f) && Exp(62) == Byte(0xde) && Exp(63) == Byte(0xa1)
  {
    ExpRow2();
  }

  lemma ExpRow4()
    ensures Exp(64) == Byte(0x5f) && Exp(65) == Byte(0xbe) && Exp(66) == Byte(0x61) && Exp(67) == Byte(0xc2)
    ensures Exp(68) == Byte(0x99) && Exp(69) == Byte(0x2f) && Exp(70) == Byte(0x5e) && Exp(71) == Byte(0xbc)
    ensures Exp(72) == Byte(0x65) && Exp(73) == Byte(0xca) && Exp(74) == Byte(0x89) && Exp(75) == Byte(0x0f)
    ensures Exp(76) == Byte(0x1e) && Exp(77) == Byte(0x3c) && Exp(78) == Byte(0x78) && Exp(79) == Byte(0xf0)
  {
    ExpRow3();
  }

  lemma ExpRow5()
    ensures Exp(80) == Byte(0xfd) && Exp(81) == Byte(0xe7) && Exp(82) == Byte(0xd3) && Exp(83) == Byte(0xbb)
    ensures Exp(84) == Byte(0x6b) && Exp(85) == Byte(0xd6) && Exp(86) == Byte(0xb1) && Exp(87) == Byte(0x7f)
    ensures Exp(88) == Byte(0xfe) && Exp(89) == Byte(0xe1) && Exp(90) == Byte(0xdf) && Exp(91) == Byte(0xa3)
    ensures Exp(92) == Byte(0x5b) && Exp(93) == Byte(0xb6) && Exp(94) == Byte(0x71) && Exp(95) == Byte(0xe2)
  {
    ExpRow4();
  }

  lemma ExpRow6()
    ensures Exp(96) == Byte(0xd9) && Exp(97) == Byte(0xaf) && Exp(98) == Byte(0x43) && Exp(99) == Byte(0x86)
    ensures Exp(100) == Byte(0x11) && Exp(101) == Byte(0x22) && Exp(102) == Byte(0x44) && Exp(103) == Byte(0x88)
    ensures Exp(104) == Byte(0x0d) && Exp(105) == Byte(0x1a) && Exp(106) == Byte(0x34) && Exp(107) == Byte(0x68)
    ensures Exp(108) == Byte(0xd0) && Exp(109) == Byte(0xbd) && Exp(110) == Byte(0x67) && Exp(111) == Byte(0xce)
  {
    ExpRow5();
  }

  lemma ExpRow7()
    ensures Exp(112) == Byte(0x81) && Exp(113) == Byte(0x1f) && Exp(114) == Byte(0x3e) && Exp(115) == Byte(0x7c)
    ensures Exp(116) == Byte(0xf8) && Exp(117) == Byte(0xed) && Exp(118) == Byte(0xc7) && Exp(119) == Byte(0x93)
    ensures Exp(120) == Byte(0x3b) && Exp(121) == Byte(0x76) && Exp(122) == Byte(0xec) && Exp(123) == Byte(0xc5)
    ensures Exp(124) == Byte(0x97) && Exp(125) == Byte(0x33) && Exp(126) == Byte(0x66) && Exp(127) == Byte(0xcc)
  {
    ExpRow6();
  }

  lemma ExpRow8()
    ensures Exp(128) == Byte(0x85) && Exp(129) == Byte(0x17) && Exp(130) == Byte(0x2e) && Exp(131) == Byte(0x5c)
    ensures Exp(132) == Byte(0xb8) && Exp(133) == Byte(0x6d) && Exp(134) == Byte(0xda) && Exp(135) == Byte(0xa9)
    ensures Exp(136) == Byte(0x4f) && Exp(137) == Byte(0x9e) && Exp(138) == Byte(0x21) && Exp(139) == Byte(0x42)
    ensures Exp(140) == Byte(0x84) && Exp(141) == Byte(0x15) && Exp(142) == Byte(0x2a) && Exp(143) == Byte(0x54)
  {
    ExpRow7();
  }

  lemma ExpRow9()
    ensures Exp(144) == Byte(0xa8) && Exp(145) == Byte(0x4d) && Exp(146) == Byte(0x9a) && Exp(147) == Byte(0x29)
    ensures Exp(148) == Byte(0x52) && Exp(149) == Byte(0xa4) && Exp(150) == Byte(0x55) && Exp(151) == Byte(0xaa)
    ensures Exp(152) == Byte(0x49) && Exp(153) == Byte(0x92) && Exp(154) == Byte(0x39) && Exp(155) == Byte(0x72)
    ensures Exp(156) == Byte(0xe4) && Exp(157) == Byte(0xd5) && Exp(158) == Byte(0xb7) && Exp(159) == Byte(0x73)
  {
    ExpRow8();
  }

  lemma ExpRow10()
    ensures Exp(160) == Byte(0xe6) && Exp(161) == Byte(0xd1) && Exp(162) == Byte(0xbf) && Exp(163) == Byte(0x63)
    ensures Exp(164) == Byte(0xc6) && Exp(165) == Byte(0x91) && Exp(166) == Byte(0x3f) && Exp(167) == Byte(0x7e)
    ensures Exp(168) == Byte(0xfc) && Exp(169) == Byte(0xe5) && Exp(170) == Byte(0xd7) && Exp(171) == Byte(0xb3)
    ensures Exp(172) == Byte(0x7b) && Exp(173) == Byte(0xf6) && Exp(174) == Byte(0xf1) && Exp(175) == Byte(0xff)
  {
    ExpRow9();
  }

  lemma ExpRow11()
    ensures Exp(176) == Byte(0xe3) && Exp(177) == Byte(0xdb) && Exp(178) == Byte(0xab) && Exp(179) == Byte(0x4b)
    ensures Exp(180) == Byte(0x96) && Exp(181) == Byte(0x31) && Exp(182) == Byte(0x62) && Exp(183) == Byte(0xc4)
    ensures Exp(184) == Byte(0x95) && Exp(185) == Byte(0x37) && Exp(186) == Byte(0x6e) && Exp(187) == Byte(0xdc)
    ensures Exp(188) == Byte(0xa5) && Exp(189) == Byte(0x57) && Exp(190) == Byte(0xae) && Exp(191) == Byte(0x41)
  {
    ExpRow10();
  }

  lemma ExpRow12()
    ensures Exp(192) == Byte(0x82) && Exp(193) == Byte(0x19) && Exp(194) == Byte(0x32) && Exp(195) == Byte(0x64)
    ensures Exp(196) == Byte(0xc8) && Exp(197) == Byte(0x8d) && Exp(198) == Byte(0x07) && Exp(199) == Byte(0x0e)
    ensures Exp(200) == Byte(0x1c) && Exp(201) == Byte(0x38) && Exp(202) == Byte(0x70) && Exp(203) == Byte(0xe0)
    ensures Exp(204) == Byte(0xdd) && Exp(205) == Byte(0xa7) && Exp(206) == Byte(0x53) && Exp(207) == Byte(0xa6)
  {
    ExpRow11();
  }

  lemma ExpRow13()
    ensures Exp(208) == Byte(0x51) && Exp(209) == Byte(0xa2) && Exp(210) == Byte(0x59) && Exp(211) == Byte(0xb2)
    ensures Exp(212) == Byte(0x79) && Exp(213) == Byte(0xf2) && Exp(214) == Byte(0xf9) && Exp(215) == Byte(0xef)
    ensures Exp(216) == Byte(0xc3) && Exp(217) == Byte(0x9b) && Exp(218) == Byte(0x2b) && Exp(219) == Byte(0x56)
    ensures Exp(220) == Byte(0xac) && Exp(221) == Byte(0x45) && Exp(222) == Byte(0x8a) && Exp(223) == Byte(0x09)
  {
    ExpRow12();
  }

  lemma ExpRow14()
    ensures Exp(224) == Byte(0x12) && Exp(225) == Byte(0x24) && Exp(226) == Byte(0x48) && Exp(227) == Byte(0x90)
    ensures Exp(228) == Byte(0x3d) && Exp(229) == Byte(0x7a) && Exp(230) == Byte(0xf4) && Exp(231) == Byte(0xf5)
    ensures Exp(232) == Byte(0xf7) && Exp(233) == Byte(0xf3) && Exp(234) == Byte(0xfb) && Exp(235) == Byte(0xeb)
    ensures Exp(236) == Byte(0xcb) && Exp(237) == Byte(0x8b) && Exp(238) == Byte(0x0b) && Exp(239) == Byte(0x16)
  {
    ExpRow13();
  }

  lemma ExpRow15()
    ensures Exp(240) == Byte(0x2c) && Exp(241) == Byte(0x58) && Exp(242) == Byte(0xb0) && Exp(243) == Byte(0x7d)
    ensures Exp(244) == Byte(0xfa) && Exp(245) == Byte(0xe9) && Exp(246) == Byte(0xcf) && Exp(247) == Byte(0x83)
    ensures Exp(248) == Byte(0x1b) && Exp(249) == Byte(0x36) && Exp(250) == Byte(0x6c) && Exp(251) == Byte(0xd8)
    ensures Exp(252) == Byte(0xad) && Exp(253) == Byte(0x47) && Exp(254) == Byte(0x8e) && Exp(255) == Byte(0x01)
  {
    ExpRow14();
  }

  /** Every non-zero byte is a power of alpha. */
  lemma LogExists(v: Byte)
    requires v != ZERO
    ensures exists n: nat :: n < 255 && Exp(n) == v
  {
    hide Exp;
    ExpRow0(); ExpRow1(); ExpRow2(); ExpRow3(); ExpRow4(); ExpRow5(); ExpRow6(); ExpRow7();
    ExpRow8(); ExpRow9(); ExpRow10(); ExpRow11(); ExpRow12(); ExpRow13(); ExpRow14(); ExpRow15();
  }

  lemma ExpPeriod(n: nat)
    ensures Exp(n + 255) == Exp(n)
  {
    hide Times;
    ExpRow15();
    ExpAdd(255, n);
  }

  lemma TimesPeriod(v: Byte, n: nat)
    ensures Times(v, n + 255) == Times(v, n)
  {
    hide Times, Exp;
    if v == ZERO {
      TimesKernel(v, n);
      TimesKernel(v, n + 255);
    } else {
      ExpAdd(Log(v), n);
      ExpAdd(Log(v), n + 255);
      ExpPeriod(Log(v) + n);
    }
  }

  lemma {:induction false} ExpMultiple(d: nat, k: nat)
    requires Exp(d) == ONE
    ensures Exp(k * d) == ONE
  {
    hide XTime;
    if k > 0 {
      ExpMultiple(d, k - 1);
      ExpAdd(d, (k - 1) * d);
      assert d + (k - 1) * d == k * d;
    }
  }

  lemma DivisorOf255(d: nat)
    requires 0 < d < 255 && 255 % d == 0
    ensures d in {1, 3, 5, 15, 17, 51, 85}
  {
    var q := 255 / d;
    assert d * q == 255;
    if d > 15 {
      assert d * q >= 16 * q;
      assert q in {1, 2, 3, 4, 5, 6, 7, 8, 9, 10, 11, 12, 13, 14, 15};
    } else {
      assert d in {1, 2, 3, 4, 5, 6, 7, 8, 9, 10, 11, 12, 13, 14, 15};
    }
  }

  /** The order of alpha is exactly 255: Euclid's algorithm carries a smaller period down to a
      proper divisor of 255, and the powers at those seven exponents are not 1. */
  lemma {:induction false} ExpNotOne(d: nat)
    requires 0 < d < 255
    ensures Exp(d) != ONE
  {
    hide Times, Exp;
    if Exp(d) == ONE {
      var q, r := 255 / d, 255 % d;
      assert q * d + r == 255;
      if r == 0 {
        DivisorOf255(d);
        ExpRow0(); ExpRow1(); ExpRow3(); ExpRow5();
      } else {
        ExpRow15();
        ExpMultiple(d, q);
        ExpAdd(q * d, r);
        ExpAdd(0, r);
        ExpRow0();
        ExpNotOne(r);
      }
    }
  }

  lemma ExpInjective(m: nat, n: nat)
    requires m < 255 && n < 255 && Exp(m) == Exp(n)
    ensures m == n
  {
    hide XTime;
    if m < n {
      ExpAdd(n - m, m);
      TimesInjective(Exp(n - m), ONE, m);
      ExpNotOne(n - m);
    } else if n < m {
      ExpInjective(n, m);
    }
  }

  lemma LogUnique(v: Byte)
    ensures forall m: nat, n: nat :: m < 255 && n < 255 && Exp(m) == v && Exp(n) == v ==> m == n
  {
    hide Exp;
    forall m: nat, n: nat | m < 255 && n < 255 && Exp(m) == v && Exp(n) == v
      ensures m == n
    {
      ExpInjective(m, n);
    }
  }

  /** Log inverts Exp on one period. */
  lemma LogExp(n: nat)
    requires n < 255
    ensures Log(Exp(n)) == n
  {
    hide Exp;
    ExpNonzero(n);
    ExpInjective(Log(Exp(n)), n);
  }

  // ----- the field product, formed as the coder forms it

  function Mul(a: Byte, b: Byte): Byte {
    if a == ZERO || b == ZERO then ZERO else Exp(Log(a) + Log(b))
  }

  function Inv(a: Byte): Byte {
    Exp(255 - Log(a))
  }

  /** Multiplying by alpha^n is n-fold XTime. */
  lemma {:induction false} MulExp(a: Byte, n: nat)
    ensures Mul(a, Exp(n)) == Times(a, n) && Mul(Exp(n), a) == Times(a, n)
  {
    hide Times, Exp;
    if n >= 255 {
      MulExp(a, n - 255);
      ExpPeriod(n - 255);
      TimesPeriod(a, n - 255);
    } else if a == ZERO {
      TimesKernel(a, n);
    } else {
      LogExp(n);
      ExpNonzero(n);
      ExpAdd(Log(a), n);
    }
  }

  lemma MulComm(a: Byte, b: Byte)
    ensures Mul(a, b) == Mul(b, a)
  {
    hide Exp;
  }

  lemma MulZero(a: Byte)
    ensures Mul(a, ZERO) == ZERO && Mul(ZERO, a) == ZERO
  {
    hide Exp;
  }

  lemma MulOne(a: Byte)
    ensures Mul(a, ONE) == a && Mul(ONE, a) == a
  {
    hide XTime;
    assert Exp(0) == ONE;
    MulExp(a, 0);
  }

  lemma MulNonzero(a: Byte, b: Byte)
    ensures Mul(a, b) == ZERO <==> a == ZERO || b == ZERO
  {
    hide Exp;
    ExpNonzero(Log(a) + Log(b));
  }

  lemma MulDistrib(a: Byte, b: Byte, c: Byte)
    ensures Mul(Xor(a, b), c) == Xor(Mul(a, c), Mul(b, c))
    ensures Mul(c, Xor(a, b)) == Xor(Mul(c, a), Mul(c, b))
  {
    hide Xor, Times, Exp, Mul;
    if c == ZERO {
      MulZero(Xor(a, b)); MulZero(a); MulZero(b);
      XorZero(ZERO);
    } else {
      var n := Log(c);
      MulExp(Xor(a, b), n); MulExp(a, n); MulExp(b, n);
      TimesLinear(a, b, n);
    }
  }

  lemma MulAssoc(a: Byte, b: Byte, c: Byte)
    ensures Mul(Mul(a, b), c) == Mul(a, Mul(b, c))
  {
    hide Times, Exp, Mul;
    if b == ZERO || c == ZERO {
      MulZero(a); MulZero(b); MulZero(c); MulZero(Mul(a, b));
    } else {
      var m, n := Log(b), Log(c);
      MulExp(a, m); MulExp(Times(a, m), n);
      MulExp(b, n); ExpAdd(m, n);
      MulExp(a, m + n);
      TimesAdd(a, m, n);
    }
  }

  lemma MulInv(a: Byte)
    requires a != ZERO
    ensures Mul(a, Inv(a)) == ONE && Mul(Inv(a), a) == ONE && Inv(a) != ZERO
  {
    hide Times, Exp, Mul;
    MulExp(a, 255 - Log(a));
    MulComm(a, Inv(a));
    ExpAdd(Log(a), 255 - Log(a));
    ExpNonzero(255 - Log(a));
    ExpRow15();
  }

  /** How the decoder divides: it adds the complement of the logarithm. */
  lemma Divide(a: Byte, d: Byte)
    requires a != ZERO
    ensures Exp(Log(a) + (255 - Log(d))) == Mul(a, Inv(d))
  {
    hide Times, Exp, Mul;
    ExpAdd(Log(a), 255 - Log(d));
    MulExp(a, 255 - Log(d));
  }
}
