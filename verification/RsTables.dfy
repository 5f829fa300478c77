/** The literals of t_log and t_rem, row by row, are the values the proofs use. */
module RsTables {
  import opened Bytes
  import opened GaloisField
  import opened RsString

  /** t_log[v] == n. */
  predicate LogIs(v: bv8, n: nat) {
    Log(Byte(v)) == n
  }

  lemma LogFrom(v: bv8, n: nat)
    requires n < 255 && Exp(n) == Byte(v)
    ensures LogIs(v, n)
  {
    hide Exp;
    LogExp(n);
  }

  lemma LogRow0()
    ensures LogIs(0x00, 0) && LogIs(0x01, 0) && LogIs(0x02, 1) && LogIs(0x03, 25) && LogIs(0x04, 2) && LogIs(0x05, 50)
            && LogIs(0x06, 26) && LogIs(0x07, 198)
    ensures LogIs(0x08, 3) && LogIs(0x09, 223) && LogIs(0x0a, 51) && LogIs(0x0b, 238) && LogIs(0x0c, 27)
            && LogIs(0x0d, 104) && LogIs(0x0e, 199) && LogIs(0x0f, 75)
  {
    hide Exp, LogIs, Log;
    ExpRow0(); ExpRow1(); ExpRow3(); ExpRow4(); ExpRow6(); ExpRow12(); ExpRow13(); ExpRow14();
    LogFrom(0x01, 0); LogFrom(0x02, 1); LogFrom(0x03, 25); LogFrom(0x04, 2); LogFrom(0x05, 50); LogFrom(0x06, 26);
    LogFrom(0x07, 198);
    LogFrom(0x08, 3); LogFrom(0x09, 223); LogFrom(0x0a, 51); LogFrom(0x0b, 238); LogFrom(0x0c, 27); LogFrom(0x0d, 104);
    LogFrom(0x0e, 199); LogFrom(0x0f, 75);
    LogOfZero();
  }

  lemma LogRow1()
    ensures LogIs(0x10, 4) && LogIs(0x11, 100) && LogIs(0x12, 224) && LogIs(0x13, 14) && LogIs(0x14, 52)
            && LogIs(0x15, 141) && LogIs(0x16, 239) && LogIs(0x17, 129)
    ensures LogIs(0x18, 28) && LogIs(0x19, 193) && LogIs(0x1a, 105) && LogIs(0x1b, 248) && LogIs(0x1c, 200)
            && LogIs(0x1d, 8) && LogIs(0x1e, 76) && LogIs(0x1f, 113)
  {
    hide Exp, LogIs, Log;
    ExpRow0(); ExpRow1(); ExpRow3(); ExpRow4(); ExpRow6(); ExpRow7(); ExpRow8(); ExpRow12(); ExpRow14(); ExpRow15();
    LogFrom(0x10, 4); LogFrom(0x11, 100); LogFrom(0x12, 224); LogFrom(0x13, 14); LogFrom(0x14, 52); LogFrom(0x15, 141);
    LogFrom(0x16, 239); LogFrom(0x17, 129);
    LogFrom(0x18, 28); LogFrom(0x19, 193); LogFrom(0x1a, 105); LogFrom(0x1b, 248); LogFrom(0x1c, 200); LogFrom(0x1d, 8);
    LogFrom(0x1e, 76); LogFrom(0x1f, 113);
  }

  lemma LogRow2()
    ensures LogIs(0x20, 5) && LogIs(0x21, 138) && LogIs(0x22, 101) && LogIs(0x23, 47) && LogIs(0x24, 225)
            && LogIs(0x25, 36) && LogIs(0x26, 15) && LogIs(0x27, 33)
    ensures LogIs(0x28, 53) && LogIs(0x29, 147) && LogIs(0x2a, 142) && LogIs(0x2b, 218) && LogIs(0x2c, 240)
            && LogIs(0x2d, 18) && LogIs(0x2e, 130) && LogIs(0x2f, 69)
  {
    hide Exp, LogIs, Log;
    ExpRow0(); ExpRow1(); ExpRow2(); ExpRow3(); ExpRow4(); ExpRow6(); ExpRow8(); ExpRow9(); ExpRow13(); ExpRow14();
    ExpRow15();
    LogFrom(0x20, 5); LogFrom(0x21, 138); LogFrom(0x22, 101); LogFrom(0x23, 47); LogFrom(0x24, 225); LogFrom(0x25, 36);
    LogFrom(0x26, 15); LogFrom(0x27, 33);
    LogFrom(0x28, 53); LogFrom(0x29, 147); LogFrom(0x2a, 142); LogFrom(0x2b, 218); LogFrom(0x2c, 240);
    LogFrom(0x2d, 18); LogFrom(0x2e, 130); LogFrom(0x2f, 69);
  }

  lemma LogRow3()
    ensures LogIs(0x30, 29) && LogIs(0x31, 181) && LogIs(0x32, 194) && LogIs(0x33, 125) && LogIs(0x34, 106)
            && LogIs(0x35, 39) && LogIs(0x36, 249) && LogIs(0x37, 185)
    ensures LogIs(0x38, 201) && LogIs(0x39, 154) && LogIs(0x3a, 9) && LogIs(0x3b, 120) && LogIs(0x3c, 77)
            && LogIs(0x3d, 228) && LogIs(0x3e, 114) && LogIs(0x3f, 166)
  {
    hide Exp, LogIs, Log;
    ExpRow0(); ExpRow1(); ExpRow2(); ExpRow4(); ExpRow6(); ExpRow7(); ExpRow9(); ExpRow10(); ExpRow11(); ExpRow12();
    ExpRow14(); ExpRow15();
    LogFrom(0x30, 29); LogFrom(0x31, 181); LogFrom(0x32, 194); LogFrom(0x33, 125); LogFrom(0x34, 106);
    LogFrom(0x35, 39); LogFrom(0x36, 249); LogFrom(0x37, 185);
    LogFrom(0x38, 201); LogFrom(0x39, 154); LogFrom(0x3a, 9); LogFrom(0x3b, 120); LogFrom(0x3c, 77); LogFrom(0x3d, 228);
    LogFrom(0x3e, 114); LogFrom(0x3f, 166);
  }

  lemma LogRow4()
    ensures LogIs(0x40, 6) && LogIs(0x41, 191) && LogIs(0x42, 139) && LogIs(0x43, 98) && LogIs(0x44, 102)
            && LogIs(0x45, 221) && LogIs(0x46, 48) && LogIs(0x47, 253)
    ensures LogIs(0x48, 226) && LogIs(0x49, 152) && LogIs(0x4a, 37) && LogIs(0x4b, 179) && LogIs(0x4c, 16)
            && LogIs(0x4d, 145) && LogIs(0x4e, 34) && LogIs(0x4f, 136)
  {
    hide Exp, LogIs, Log;
    ExpRow0(); ExpRow1(); ExpRow2(); ExpRow3(); ExpRow6(); ExpRow8(); ExpRow9(); ExpRow11(); ExpRow13(); ExpRow14();
    ExpRow15();
    LogFrom(0x40, 6); LogFrom(0x41, 191); LogFrom(0x42, 139); LogFrom(0x43, 98); LogFrom(0x44, 102); LogFrom(0x45, 221);
    LogFrom(0x46, 48); LogFrom(0x47, 253);
    LogFrom(0x48, 226); LogFrom(0x49, 152); LogFrom(0x4a, 37); LogFrom(0x4b, 179); LogFrom(0x4c, 16);
    LogFrom(0x4d, 145); LogFrom(0x4e, 34); LogFrom(0x4f, 136);
  }

  lemma LogRow5()
    ensures LogIs(0x50, 54) && LogIs(0x51, 208) && LogIs(0x52, 148) && LogIs(0x53, 206) && LogIs(0x54, 143)
            && LogIs(0x55, 150) && LogIs(0x56, 219) && LogIs(0x57, 189)
    ensures LogIs(0x58, 241) && LogIs(0x59, 210) && LogIs(0x5a, 19) && LogIs(0x5b, 92) && LogIs(0x5c, 131)
            && LogIs(0x5d, 56) && LogIs(0x5e, 70) && LogIs(0x5f, 64)
  {
    hide Exp, LogIs, Log;
    ExpRow1(); ExpRow3(); ExpRow4(); ExpRow5(); ExpRow8(); ExpRow9(); ExpRow11(); ExpRow12(); ExpRow13(); ExpRow15();
    LogFrom(0x50, 54); LogFrom(0x51, 208); LogFrom(0x52, 148); LogFrom(0x53, 206); LogFrom(0x54, 143);
    LogFrom(0x55, 150); LogFrom(0x56, 219); LogFrom(0x57, 189);
    LogFrom(0x58, 241); LogFrom(0x59, 210); LogFrom(0x5a, 19); LogFrom(0x5b, 92); LogFrom(0x5c, 131); LogFrom(0x5d, 56);
    LogFrom(0x5e, 70); LogFrom(0x5f, 64);
  }

  lemma LogRow6()
    ensures LogIs(0x60, 30) && LogIs(0x61, 66) && LogIs(0x62, 182) && LogIs(0x63, 163) && LogIs(0x64, 195)
            && LogIs(0x65, 72) && LogIs(0x66, 126) && LogIs(0x67, 110)
    ensures LogIs(0x68, 107) && LogIs(0x69, 58) && LogIs(0x6a, 40) && LogIs(0x6b, 84) && LogIs(0x6c, 250)
            && LogIs(0x6d, 133) && LogIs(0x6e, 186) && LogIs(0x6f, 61)
  {
    hide Exp, LogIs, Log;
    ExpRow1(); ExpRow2(); ExpRow3(); ExpRow4(); ExpRow5(); ExpRow6(); ExpRow7(); ExpRow8(); ExpRow10(); ExpRow11();
    ExpRow12(); ExpRow15();
    LogFrom(0x60, 30); LogFrom(0x61, 66); LogFrom(0x62, 182); LogFrom(0x63, 163); LogFrom(0x64, 195); LogFrom(0x65, 72);
    LogFrom(0x66, 126); LogFrom(0x67, 110);
    LogFrom(0x68, 107); LogFrom(0x69, 58); LogFrom(0x6a, 40); LogFrom(0x6b, 84); LogFrom(0x6c, 250); LogFrom(0x6d, 133);
    LogFrom(0x6e, 186); LogFrom(0x6f, 61);
  }

  lemma LogRow7()
    ensures LogIs(0x70, 202) && LogIs(0x71, 94) && LogIs(0x72, 155) && LogIs(0x73, 159) && LogIs(0x74, 10)
            && LogIs(0x75, 21) && LogIs(0x76, 121) && LogIs(0x77, 43)
    ensures LogIs(0x78, 78) && LogIs(0x79, 212) && LogIs(0x7a, 229) && LogIs(0x7b, 172) && LogIs(0x7c, 115)
            && LogIs(0x7d, 243) && LogIs(0x7e, 167) && LogIs(0x7f, 87)
  {
    hide Exp, LogIs, Log;
    ExpRow0(); ExpRow1(); ExpRow2(); ExpRow4(); ExpRow5(); ExpRow7(); ExpRow9(); ExpRow10(); ExpRow12(); ExpRow13();
    ExpRow14(); ExpRow15();
    LogFrom(0x70, 202); LogFrom(0x71, 94); LogFrom(0x72, 155); LogFrom(0x73, 159); LogFrom(0x74, 10); LogFrom(0x75, 21);
    LogFrom(0x76, 121); LogFrom(0x77, 43);
    LogFrom(0x78, 78); LogFrom(0x79, 212); LogFrom(0x7a, 229); LogFrom(0x7b, 172); LogFrom(0x7c, 115);
    LogFrom(0x7d, 243); LogFrom(0x7e, 167); LogFrom(0x7f, 87);
  }

  lemma LogRow8()
    ensures LogIs(0x80, 7) && LogIs(0x81, 112) && LogIs(0x82, 192) && LogIs(0x83, 247) && LogIs(0x84, 140)
            && LogIs(0x85, 128) && LogIs(0x86, 99) && LogIs(0x87, 13)
    ensures LogIs(0x88, 103) && LogIs(0x89, 74) && LogIs(0x8a, 222) && LogIs(0x8b, 237) && LogIs(0x8c, 49)
            && LogIs(0x8d, 197) && LogIs(0x8e, 254) && LogIs(0x8f, 24)
  {
    hide Exp, LogIs, Log;
    ExpRow0(); ExpRow1(); ExpRow3(); ExpRow4(); ExpRow6(); ExpRow7(); ExpRow8(); ExpRow12(); ExpRow13(); ExpRow14();
    ExpRow15();
    LogFrom(0x80, 7); LogFrom(0x81, 112); LogFrom(0x82, 192); LogFrom(0x83, 247); LogFrom(0x84, 140);
    LogFrom(0x85, 128); LogFrom(0x86, 99); LogFrom(0x87, 13);
    LogFrom(0x88, 103); LogFrom(0x89, 74); LogFrom(0x8a, 222); LogFrom(0x8b, 237); LogFrom(0x8c, 49);
    LogFrom(0x8d, 197); LogFrom(0x8e, 254); LogFrom(0x8f, 24);
  }

  lemma LogRow9()
    ensures LogIs(0x90, 227) && LogIs(0x91, 165) && LogIs(0x92, 153) && LogIs(0x93, 119) && LogIs(0x94, 38)
            && LogIs(0x95, 184) && LogIs(0x96, 180) && LogIs(0x97, 124)
    ensures LogIs(0x98, 17) && LogIs(0x99, 68) && LogIs(0x9a, 146) && LogIs(0x9b, 217) && LogIs(0x9c, 35)
            && LogIs(0x9d, 32) && LogIs(0x9e, 137) && LogIs(0x9f, 46)
  {
    hide Exp, LogIs, Log;
    ExpRow1(); ExpRow2(); ExpRow4(); ExpRow7(); ExpRow8(); ExpRow9(); ExpRow10(); ExpRow11(); ExpRow13(); ExpRow14();
    LogFrom(0x90, 227); LogFrom(0x91, 165); LogFrom(0x92, 153); LogFrom(0x93, 119); LogFrom(0x94, 38);
    LogFrom(0x95, 184); LogFrom(0x96, 180); LogFrom(0x97, 124);
    LogFrom(0x98, 17); LogFrom(0x99, 68); LogFrom(0x9a, 146); LogFrom(0x9b, 217); LogFrom(0x9c, 35); LogFrom(0x9d, 32);
    LogFrom(0x9e, 137); LogFrom(0x9f, 46);
  }

  lemma LogRow10()
    ensures LogIs(0xa0, 55) && LogIs(0xa1, 63) && LogIs(0xa2, 209) && LogIs(0xa3, 91) && LogIs(0xa4, 149)
            && LogIs(0xa5, 188) && LogIs(0xa6, 207) && LogIs(0xa7, 205)
    ensures LogIs(0xa8, 144) && LogIs(0xa9, 135) && LogIs(0xaa, 151) && LogIs(0xab, 178) && LogIs(0xac, 220)
            && LogIs(0xad, 252) && LogIs(0xae, 190) && LogIs(0xaf, 97)
  {
    hide Exp, LogIs, Log;
    ExpRow3(); ExpRow5(); ExpRow6(); ExpRow8(); ExpRow9(); ExpRow11(); ExpRow12(); ExpRow13(); ExpRow15();
    LogFrom(0xa0, 55); LogFrom(0xa1, 63); LogFrom(0xa2, 209); LogFrom(0xa3, 91); LogFrom(0xa4, 149); LogFrom(0xa5, 188);
    LogFrom(0xa6, 207); LogFrom(0xa7, 205);
    LogFrom(0xa8, 144); LogFrom(0xa9, 135); LogFrom(0xaa, 151); LogFrom(0xab, 178); LogFrom(0xac, 220);
    LogFrom(0xad, 252); LogFrom(0xae, 190); LogFrom(0xaf, 97);
  }

  lemma LogRow11()
    ensures LogIs(0xb0, 242) && LogIs(0xb1, 86) && LogIs(0xb2, 211) && LogIs(0xb3, 171) && LogIs(0xb4, 20)
            && LogIs(0xb5, 42) && LogIs(0xb6, 93) && LogIs(0xb7, 158)
    ensures LogIs(0xb8, 132) && LogIs(0xb9, 60) && LogIs(0xba, 57) && LogIs(0xbb, 83) && LogIs(0xbc, 71)
            && LogIs(0xbd, 109) && LogIs(0xbe, 65) && LogIs(0xbf, 162)
  {
    hide Exp, LogIs, Log;
    ExpRow1(); ExpRow2(); ExpRow3(); ExpRow4(); ExpRow5(); ExpRow6(); ExpRow8(); ExpRow9(); ExpRow10(); ExpRow13();
    ExpRow15();
    LogFrom(0xb0, 242); LogFrom(0xb1, 86); LogFrom(0xb2, 211); LogFrom(0xb3, 171); LogFrom(0xb4, 20); LogFrom(0xb5, 42);
    LogFrom(0xb6, 93); LogFrom(0xb7, 158);
    LogFrom(0xb8, 132); LogFrom(0xb9, 60); LogFrom(0xba, 57); LogFrom(0xbb, 83); LogFrom(0xbc, 71); LogFrom(0xbd, 109);
    LogFrom(0xbe, 65); LogFrom(0xbf, 162);
  }

  lemma LogRow12()
    ensures LogIs(0xc0, 31) && LogIs(0xc1, 45) && LogIs(0xc2, 67) && LogIs(0xc3, 216) && LogIs(0xc4, 183)
            && LogIs(0xc5, 123) && LogIs(0xc6, 164) && LogIs(0xc7, 118)
    ensures LogIs(0xc8, 196) && LogIs(0xc9, 23) && LogIs(0xca, 73) && LogIs(0xcb, 236) && LogIs(0xcc, 127)
            && LogIs(0xcd, 12) && LogIs(0xce, 111) && LogIs(0xcf, 246)
  {
    hide Exp, LogIs, Log;
    ExpRow0(); ExpRow1(); ExpRow2(); ExpRow4(); ExpRow6(); ExpRow7(); ExpRow10(); ExpRow11(); ExpRow12(); ExpRow13();
    ExpRow14(); ExpRow15();
    LogFrom(0xc0, 31); LogFrom(0xc1, 45); LogFrom(0xc2, 67); LogFrom(0xc3, 216); LogFrom(0xc4, 183); LogFrom(0xc5, 123);
    LogFrom(0xc6, 164); LogFrom(0xc7, 118);
    LogFrom(0xc8, 196); LogFrom(0xc9, 23); LogFrom(0xca, 73); LogFrom(0xcb, 236); LogFrom(0xcc, 127); LogFrom(0xcd, 12);
    LogFrom(0xce, 111); LogFrom(0xcf, 246);
  }

  lemma LogRow13()
    ensures LogIs(0xd0, 108) && LogIs(0xd1, 161) && LogIs(0xd2, 59) && LogIs(0xd3, 82) && LogIs(0xd4, 41)
            && LogIs(0xd5, 157) && LogIs(0xd6, 85) && LogIs(0xd7, 170)
    ensures LogIs(0xd8, 251) && LogIs(0xd9, 96) && LogIs(0xda, 134) && LogIs(0xdb, 177) && LogIs(0xdc, 187)
            && LogIs(0xdd, 204) && LogIs(0xde, 62) && LogIs(0xdf, 90)
  {
    hide Exp, LogIs, Log;
    ExpRow2(); ExpRow3(); ExpRow5(); ExpRow6(); ExpRow8(); ExpRow9(); ExpRow10(); ExpRow11(); ExpRow12(); ExpRow15();
    LogFrom(0xd0, 108); LogFrom(0xd1, 161); LogFrom(0xd2, 59); LogFrom(0xd3, 82); LogFrom(0xd4, 41); LogFrom(0xd5, 157);
    LogFrom(0xd6, 85); LogFrom(0xd7, 170);
    LogFrom(0xd8, 251); LogFrom(0xd9, 96); LogFrom(0xda, 134); LogFrom(0xdb, 177); LogFrom(0xdc, 187);
    LogFrom(0xdd, 204); LogFrom(0xde, 62); LogFrom(0xdf, 90);
  }

  lemma LogRow14()
    ensures LogIs(0xe0, 203) && LogIs(0xe1, 89) && LogIs(0xe2, 95) && LogIs(0xe3, 176) && LogIs(0xe4, 156)
            && LogIs(0xe5, 169) && LogIs(0xe6, 160) && LogIs(0xe7, 81)
    ensures LogIs(0xe8, 11) && LogIs(0xe9, 245) && LogIs(0xea, 22) && LogIs(0xeb, 235) && LogIs(0xec, 122)
            && LogIs(0xed, 117) && LogIs(0xee, 44) && LogIs(0xef, 215)
  {
    hide Exp, LogIs, Log;
    ExpRow0(); ExpRow1(); ExpRow2(); ExpRow5(); ExpRow7(); ExpRow9(); ExpRow10(); ExpRow11(); ExpRow12(); ExpRow13();
    ExpRow14(); ExpRow15();
    LogFrom(0xe0, 203); LogFrom(0xe1, 89); LogFrom(0xe2, 95); LogFrom(0xe3, 176); LogFrom(0xe4, 156);
    LogFrom(0xe5, 169); LogFrom(0xe6, 160); LogFrom(0xe7, 81);
    LogFrom(0xe8, 11); LogFrom(0xe9, 245); LogFrom(0xea, 22); LogFrom(0xeb, 235); LogFrom(0xec, 122);
    LogFrom(0xed, 117); LogFrom(0xee, 44); LogFrom(0xef, 215);
  }

  lemma LogRow15()
    ensures LogIs(0xf0, 79) && LogIs(0xf1, 174) && LogIs(0xf2, 213) && LogIs(0xf3, 233) && LogIs(0xf4, 230)
            && LogIs(0xf5, 231) && LogIs(0xf6, 173) && LogIs(0xf7, 232)
    ensures LogIs(0xf8, 116) && LogIs(0xf9, 214) && LogIs(0xfa, 244) && LogIs(0xfb, 234) && LogIs(0xfc, 168)
            && LogIs(0xfd, 80) && LogIs(0xfe, 88) && LogIs(0xff, 175)
  {
    hide Exp, LogIs, Log;
    ExpRow4(); ExpRow5(); ExpRow7(); ExpRow10(); ExpRow13(); ExpRow14(); ExpRow15();
    LogFrom(0xf0, 79); LogFrom(0xf1, 174); LogFrom(0xf2, 213); LogFrom(0xf3, 233); LogFrom(0xf4, 230);
    LogFrom(0xf5, 231); LogFrom(0xf6, 173); LogFrom(0xf7, 232);
    LogFrom(0xf8, 116); LogFrom(0xf9, 214); LogFrom(0xfa, 244); LogFrom(0xfb, 234); LogFrom(0xfc, 168);
    LogFrom(0xfd, 80); LogFrom(0xfe, 88); LogFrom(0xff, 175);
  }

  lemma LogOfZero()
    ensures LogIs(0, 0)
  {
  }

  /** t_rem[v], as four bytes. */
  predicate RemIs(v: bv8, b3: bv8, b2: bv8, b1: bv8, b0: bv8) {
    TRem(Byte(v)) == Word4(Byte(b3), Byte(b2), Byte(b1), Byte(b0))
  }

  /** t_rem is linear, so an entry is the sum of two others. */
  lemma RemSum(u: bv8, u3: bv8, u2: bv8, u1: bv8, u0: bv8, v: bv8, v3: bv8, v2: bv8, v1: bv8, v0: bv8)
    requires RemIs(u, u3, u2, u1, u0) && RemIs(v, v3, v2, v1, v0)
    ensures RemIs(u ^ v, u3 ^ v3, u2 ^ v2, u1 ^ v1, u0 ^ v0)
  {
    hide TRem;
    TRemLinear(Byte(u), Byte(v));
  }

  lemma RemPower0()
    ensures RemIs(0x01, 0x0f, 0x36, 0x78, 0x40)
  {
    hide Times, Exp;
    ExpAdd(0, 75); ExpAdd(0, 249); ExpAdd(0, 78); ExpAdd(0, 6);
    ExpRow0(); ExpRow4(); ExpRow15();
  }

  lemma RemPower1()
    ensures RemIs(0x02, 0x1e, 0x6c, 0xf0, 0x80)
  {
    hide Times, Exp;
    ExpAdd(1, 75); ExpAdd(1, 249); ExpAdd(1, 78); ExpAdd(1, 6);
    ExpRow0(); ExpRow4(); ExpRow15();
  }

  lemma RemPower2()
    ensures RemIs(0x04, 0x3c, 0xd8, 0xfd, 0x1d)
  {
    hide Times, Exp;
    ExpAdd(2, 75); ExpAdd(2, 249); ExpAdd(2, 78); ExpAdd(2, 6);
    ExpRow0(); ExpRow4(); ExpRow5(); ExpRow15();
  }

  lemma RemPower3()
    ensures RemIs(0x08, 0x78, 0xad, 0xe7, 0x3a)
  {
    hide Times, Exp;
    ExpAdd(3, 75); ExpAdd(3, 249); ExpAdd(3, 78); ExpAdd(3, 6);
    ExpRow0(); ExpRow4(); ExpRow5(); ExpRow15();
  }

  lemma RemPower4()
    ensures RemIs(0x10, 0xf0, 0x47, 0xd3, 0x74)
  {
    hide Times, Exp;
    ExpAdd(4, 75); ExpAdd(4, 249); ExpAdd(4, 78); ExpAdd(4, 6);
    ExpRow0(); ExpRow4(); ExpRow5(); ExpRow15();
  }

  lemma RemPower5()
    ensures RemIs(0x20, 0xfd, 0x8e, 0xbb, 0xe8)
  {
    hide Times, Exp;
    ExpAdd(5, 75); ExpAdd(5, 249); ExpAdd(5, 78); ExpAdd(5, 6);
    ExpRow0(); ExpRow5(); ExpRow15();
  }

  lemma RemPower6()
    ensures RemIs(0x40, 0xe7, 0x01, 0x6b, 0xcd)
  {
    hide Times, Exp;
    ExpAdd(6, 75); ExpAdd(6, 249); ExpAdd(6, 78); ExpAdd(6, 6);
    ExpRow0(); ExpRow5(); ExpRow15();
  }

  lemma RemPower7()
    ensures RemIs(0x80, 0xd3, 0x02, 0xd6, 0x87)
  {
    hide Times, Exp;
    ExpAdd(7, 75); ExpAdd(7, 249); ExpAdd(7, 78); ExpAdd(7, 6);
    ExpRow0(); ExpRow5(); ExpPeriod(1);
  }

  lemma RemRow0()
    ensures RemIs(0x00, 0x00, 0x00, 0x00, 0x00) && RemIs(0x01, 0x0f, 0x36, 0x78, 0x40)
            && RemIs(0x02, 0x1e, 0x6c, 0xf0, 0x80) && RemIs(0x03, 0x11, 0x5a, 0x88, 0xc0)
    ensures RemIs(0x04, 0x3c, 0xd8, 0xfd, 0x1d) && RemIs(0x05, 0x33, 0xee, 0x85, 0x5d)
            && RemIs(0x06, 0x22, 0xb4, 0x0d, 0x9d) && RemIs(0x07, 0x2d, 0x82, 0x75, 0xdd)
  {
    hide RemIs;
    RemPower0(); RemPower1(); RemPower2();
    RemSum(0x01, 0x0f, 0x36, 0x78, 0x40, 0x01, 0x0f, 0x36, 0x78, 0x40);
    RemSum(0x02, 0x1e, 0x6c, 0xf0, 0x80, 0x01, 0x0f, 0x36, 0x78, 0x40);
    RemSum(0x04, 0x3c, 0xd8, 0xfd, 0x1d, 0x01, 0x0f, 0x36, 0x78, 0x40);
    RemSum(0x04, 0x3c, 0xd8, 0xfd, 0x1d, 0x02, 0x1e, 0x6c, 0xf0, 0x80);
    RemSum(0x06, 0x22, 0xb4, 0x0d, 0x9d, 0x01, 0x0f, 0x36, 0x78, 0x40);
  }

  lemma RemRow1()
    ensures RemIs(0x08, 0x78, 0xad, 0xe7, 0x3a) && RemIs(0x09, 0x77, 0x9b, 0x9f, 0x7a)
            && RemIs(0x0a, 0x66, 0xc1, 0x17, 0xba) && RemIs(0x0b, 0x69, 0xf7, 0x6f, 0xfa)
    ensures RemIs(0x0c, 0x44, 0x75, 0x1a, 0x27) && RemIs(0x0d, 0x4b, 0x43, 0x62, 0x67)
            && RemIs(0x0e, 0x5a, 0x19, 0xea, 0xa7) && RemIs(0x0f, 0x55, 0x2f, 0x92, 0xe7)
  {
    hide RemIs;
    RemRow0();
    RemPower3();
    RemSum(0x08, 0x78, 0xad, 0xe7, 0x3a, 0x01, 0x0f, 0x36, 0x78, 0x40);
    RemSum(0x08, 0x78, 0xad, 0xe7, 0x3a, 0x02, 0x1e, 0x6c, 0xf0, 0x80);
    RemSum(0x08, 0x78, 0xad, 0xe7, 0x3a, 0x03, 0x11, 0x5a, 0x88, 0xc0);
    RemSum(0x08, 0x78, 0xad, 0xe7, 0x3a, 0x04, 0x3c, 0xd8, 0xfd, 0x1d);
    RemSum(0x08, 0x78, 0xad, 0xe7, 0x3a, 0x05, 0x33, 0xee, 0x85, 0x5d);
    RemSum(0x08, 0x78, 0xad, 0xe7, 0x3a, 0x06, 0x22, 0xb4, 0x0d, 0x9d);
    RemSum(0x08, 0x78, 0xad, 0xe7, 0x3a, 0x07, 0x2d, 0x82, 0x75, 0xdd);
  }

  lemma RemRow2()
    ensures RemIs(0x10, 0xf0, 0x47, 0xd3, 0x74) && RemIs(0x11, 0xff, 0x71, 0xab, 0x34)
            && RemIs(0x12, 0xee, 0x2b, 0x23, 0xf4) && RemIs(0x13, 0xe1, 0x1d, 0x5b, 0xb4)
    ensures RemIs(0x14, 0xcc, 0x9f, 0x2e, 0x69) && RemIs(0x15, 0xc3, 0xa9, 0x56, 0x29)
            && RemIs(0x16, 0xd2, 0xf3, 0xde, 0xe9) && RemIs(0x17, 0xdd, 0xc5, 0xa6, 0xa9)
  {
    hide RemIs;
    RemRow0();
    RemPower4();
    RemSum(0x10, 0xf0, 0x47, 0xd3, 0x74, 0x01, 0x0f, 0x36, 0x78, 0x40);
    RemSum(0x10, 0xf0, 0x47, 0xd3, 0x74, 0x02, 0x1e, 0x6c, 0xf0, 0x80);
    RemSum(0x10, 0xf0, 0x47, 0xd3, 0x74, 0x03, 0x11, 0x5a, 0x88, 0xc0);
    RemSum(0x10, 0xf0, 0x47, 0xd3, 0x74, 0x04, 0x3c, 0xd8, 0xfd, 0x1d);
    RemSum(0x10, 0xf0, 0x47, 0xd3, 0x74, 0x05, 0x33, 0xee, 0x85, 0x5d);
    RemSum(0x10, 0xf0, 0x47, 0xd3, 0x74, 0x06, 0x22, 0xb4, 0x0d, 0x9d);
    RemSum(0x10, 0xf0, 0x47, 0xd3, 0x74, 0x07, 0x2d, 0x82, 0x75, 0xdd);
  }

  lemma RemRow3()
    ensures RemIs(0x18, 0x88, 0xea, 0x34, 0x4e) && RemIs(0x19, 0x87, 0xdc, 0x4c, 0x0e)
            && RemIs(0x1a, 0x96, 0x86, 0xc4, 0xce) && RemIs(0x1b, 0x99, 0xb0, 0xbc, 0x8e)
    ensures RemIs(0x1c, 0xb4, 0x32, 0xc9, 0x53) && RemIs(0x1d, 0xbb, 0x04, 0xb1, 0x13)
            && RemIs(0x1e, 0xaa, 0x5e, 0x39, 0xd3) && RemIs(0x1f, 0xa5, 0x68, 0x41, 0x93)
  {
    hide RemIs;
    RemRow0();
    RemPower4();
    RemRow1();
    RemSum(0x10, 0xf0, 0x47, 0xd3, 0x74, 0x08, 0x78, 0xad, 0xe7, 0x3a);
    RemSum(0x18, 0x88, 0xea, 0x34, 0x4e, 0x01, 0x0f, 0x36, 0x78, 0x40);
    RemSum(0x18, 0x88, 0xea, 0x34, 0x4e, 0x02, 0x1e, 0x6c, 0xf0, 0x80);
    RemSum(0x18, 0x88, 0xea, 0x34, 0x4e, 0x03, 0x11, 0x5a, 0x88, 0xc0);
    RemSum(0x18, 0x88, 0xea, 0x34, 0x4e, 0x04, 0x3c, 0xd8, 0xfd, 0x1d);
    RemSum(0x18, 0x88, 0xea, 0x34, 0x4e, 0x05, 0x33, 0xee, 0x85, 0x5d);
    RemSum(0x18, 0x88, 0xea, 0x34, 0x4e, 0x06, 0x22, 0xb4, 0x0d, 0x9d);
    RemSum(0x18, 0x88, 0xea, 0x34, 0x4e, 0x07, 0x2d, 0x82, 0x75, 0xdd);
  }

  lemma RemRow4()
    ensures RemIs(0x20, 0xfd, 0x8e, 0xbb, 0xe8) && RemIs(0x21, 0xf2, 0xb8, 0xc3, 0xa8)
            && RemIs(0x22, 0xe3, 0xe2, 0x4b, 0x68) && RemIs(0x23, 0xec, 0xd4, 0x33, 0x28)
    ensures RemIs(0x24, 0xc1, 0x56, 0x46, 0xf5) && RemIs(0x25, 0xce, 0x60, 0x3e, 0xb5)
            && RemIs(0x26, 0xdf, 0x3a, 0xb6, 0x75) && RemIs(0x27, 0xd0, 0x0c, 0xce, 0x35)
  {
    hide RemIs;
    RemRow0();
    RemPower5();
    RemSum(0x20, 0xfd, 0x8e, 0xbb, 0xe8, 0x01, 0x0f, 0x36, 0x78, 0x40);
    RemSum(0x20, 0xfd, 0x8e, 0xbb, 0xe8, 0x02, 0x1e, 0x6c, 0xf0, 0x80);
    RemSum(0x20, 0xfd, 0x8e, 0xbb, 0xe8, 0x03, 0x11, 0x5a, 0x88, 0xc0);
    RemSum(0x20, 0xfd, 0x8e, 0xbb, 0xe8, 0x04, 0x3c, 0xd8, 0xfd, 0x1d);
    RemSum(0x20, 0xfd, 0x8e, 0xbb, 0xe8, 0x05, 0x33, 0xee, 0x85, 0x5d);
    RemSum(0x20, 0xfd, 0x8e, 0xbb, 0xe8, 0x06, 0x22, 0xb4, 0x0d, 0x9d);
    RemSum(0x20, 0xfd, 0x8e, 0xbb, 0xe8, 0x07, 0x2d, 0x82, 0x75, 0xdd);
  }

  lemma RemRow5()
    ensures RemIs(0x28, 0x85, 0x23, 0x5c, 0xd2) && RemIs(0x29, 0x8a, 0x15, 0x24, 0x92)
            && RemIs(0x2a, 0x9b, 0x4f, 0xac, 0x52) && RemIs(0x2b, 0x94, 0x79, 0xd4, 0x12)
    ensures RemIs(0x2c, 0xb9, 0xfb, 0xa1, 0xcf) && RemIs(0x2d, 0xb6, 0xcd, 0xd9, 0x8f)
            && RemIs(0x2e, 0xa7, 0x97, 0x51, 0x4f) && RemIs(0x2f, 0xa8, 0xa1, 0x29, 0x0f)
  {
    hide RemIs;
    RemRow0();
    RemPower5();
    RemRow1();
    RemSum(0x20, 0xfd, 0x8e, 0xbb, 0xe8, 0x08, 0x78, 0xad, 0xe7, 0x3a);
    RemSum(0x28, 0x85, 0x23, 0x5c, 0xd2, 0x01, 0x0f, 0x36, 0x78, 0x40);
    RemSum(0x28, 0x85, 0x23, 0x5c, 0xd2, 0x02, 0x1e, 0x6c, 0xf0, 0x80);
    RemSum(0x28, 0x85, 0x23, 0x5c, 0xd2, 0x03, 0x11, 0x5a, 0x88, 0xc0);
    RemSum(0x28, 0x85, 0x23, 0x5c, 0xd2, 0x04, 0x3c, 0xd8, 0xfd, 0x1d);
    RemSum(0x28, 0x85, 0x23, 0x5c, 0xd2, 0x05, 0x33, 0xee, 0x85, 0x5d);
    RemSum(0x28, 0x85, 0x23, 0x5c, 0xd2, 0x06, 0x22, 0xb4, 0x0d, 0x9d);
    RemSum(0x28, 0x85, 0x23, 0x5c, 0xd2, 0x07, 0x2d, 0x82, 0x75, 0xdd);
  }

  lemma RemRow6()
    ensures RemIs(0x30, 0x0d, 0xc9, 0x68, 0x9c) && RemIs(0x31, 0x02, 0xff, 0x10, 0xdc)
            && RemIs(0x32, 0x13, 0xa5, 0x98, 0x1c) && RemIs(0x33, 0x1c, 0x93, 0xe0, 0x5c)
    ensures RemIs(0x34, 0x31, 0x11, 0x95, 0x81) && RemIs(0x35, 0x3e, 0x27, 0xed, 0xc1)
            && RemIs(0x36, 0x2f, 0x7d, 0x65, 0x01) && RemIs(0x37, 0x20, 0x4b, 0x1d, 0x41)
  {
    hide RemIs;
    RemRow0();
    RemPower5();
    RemRow2();
    RemSum(0x20, 0xfd, 0x8e, 0xbb, 0xe8, 0x10, 0xf0, 0x47, 0xd3, 0x74);
    RemSum(0x30, 0x0d, 0xc9, 0x68, 0x9c, 0x01, 0x0f, 0x36, 0x78, 0x40);
    RemSum(0x30, 0x0d, 0xc9, 0x68, 0x9c, 0x02, 0x1e, 0x6c, 0xf0, 0x80);
    RemSum(0x30, 0x0d, 0xc9, 0x68, 0x9c, 0x03, 0x11, 0x5a, 0x88, 0xc0);
    RemSum(0x30, 0x0d, 0xc9, 0x68, 0x9c, 0x04, 0x3c, 0xd8, 0xfd, 0x1d);
    RemSum(0x30, 0x0d, 0xc9, 0x68, 0x9c, 0x05, 0x33, 0xee, 0x85, 0x5d);
    RemSum(0x30, 0x0d, 0xc9, 0x68, 0x9c, 0x06, 0x22, 0xb4, 0x0d, 0x9d);
    RemSum(0x30, 0x0d, 0xc9, 0x68, 0x9c, 0x07, 0x2d, 0x82, 0x75, 0xdd);
  }

  lemma RemRow7()
    ensures RemIs(0x38, 0x75, 0x64, 0x8f, 0xa6) && RemIs(0x39, 0x7a, 0x52, 0xf7, 0xe6)
            && RemIs(0x3a, 0x6b, 0x08, 0x7f, 0x26) && RemIs(0x3b, 0x64, 0x3e, 0x07, 0x66)
    ensures RemIs(0x3c, 0x49, 0xbc, 0x72, 0xbb) && RemIs(0x3d, 0x46, 0x8a, 0x0a, 0xfb)
            && RemIs(0x3e, 0x57, 0xd0, 0x82, 0x3b) && RemIs(0x3f, 0x58, 0xe6, 0xfa, 0x7b)
  {
    hide RemIs;
    RemRow0();
    RemPower5();
    RemRow3();
    RemSum(0x20, 0xfd, 0x8e, 0xbb, 0xe8, 0x18, 0x88, 0xea, 0x34, 0x4e);
    RemSum(0x38, 0x75, 0x64, 0x8f, 0xa6, 0x01, 0x0f, 0x36, 0x78, 0x40);
    RemSum(0x38, 0x75, 0x64, 0x8f, 0xa6, 0x02, 0x1e, 0x6c, 0xf0, 0x80);
    RemSum(0x38, 0x75, 0x64, 0x8f, 0xa6, 0x03, 0x11, 0x5a, 0x88, 0xc0);
    RemSum(0x38, 0x75, 0x64, 0x8f, 0xa6, 0x04, 0x3c, 0xd8, 0xfd, 0x1d);
    RemSum(0x38, 0x75, 0x64, 0x8f, 0xa6, 0x05, 0x33, 0xee, 0x85, 0x5d);
    RemSum(0x38, 0x75, 0x64, 0x8f, 0xa6, 0x06, 0x22, 0xb4, 0x0d, 0x9d);
    RemSum(0x38, 0x75, 0x64, 0x8f, 0xa6, 0x07, 0x2d, 0x82, 0x75, 0xdd);
  }

  lemma RemRow8()
    ensures RemIs(0x40, 0xe7, 0x01, 0x6b, 0xcd) && RemIs(0x41, 0xe8, 0x37, 0x13, 0x8d)
            && RemIs(0x42, 0xf9, 0x6d, 0x9b, 0x4d) && RemIs(0x43, 0xf6, 0x5b, 0xe3, 0x0d)
    ensures RemIs(0x44, 0xdb, 0xd9, 0x96, 0xd0) && RemIs(0x45, 0xd4, 0xef, 0xee, 0x90)
            && RemIs(0x46, 0xc5, 0xb5, 0x66, 0x50) && RemIs(0x47, 0xca, 0x83, 0x1e, 0x10)
  {
    hide RemIs;
    RemRow0();
    RemPower6();
    RemSum(0x40, 0xe7, 0x01, 0x6b, 0xcd, 0x01, 0x0f, 0x36, 0x78, 0x40);
    RemSum(0x40, 0xe7, 0x01, 0x6b, 0xcd, 0x02, 0x1e, 0x6c, 0xf0, 0x80);
    RemSum(0x40, 0xe7, 0x01, 0x6b, 0xcd, 0x03, 0x11, 0x5a, 0x88, 0xc0);
    RemSum(0x40, 0xe7, 0x01, 0x6b, 0xcd, 0x04, 0x3c, 0xd8, 0xfd, 0x1d);
    RemSum(0x40, 0xe7, 0x01, 0x6b, 0xcd, 0x05, 0x33, 0xee, 0x85, 0x5d);
    RemSum(0x40, 0xe7, 0x01, 0x6b, 0xcd, 0x06, 0x22, 0xb4, 0x0d, 0x9d);
    RemSum(0x40, 0xe7, 0x01, 0x6b, 0xcd, 0x07, 0x2d, 0x82, 0x75, 0xdd);
  }

  lemma RemRow9()
    ensures RemIs(0x48, 0x9f, 0xac, 0x8c, 0xf7) && RemIs(0x49, 0x90, 0x9a, 0xf4, 0xb7)
            && RemIs(0x4a, 0x81, 0xc0, 0x7c, 0x77) && RemIs(0x4b, 0x8e, 0xf6, 0x04, 0x37)
    ensures RemIs(0x4c, 0xa3, 0x74, 0x71, 0xea) && RemIs(0x4d, 0xac, 0x42, 0x09, 0xaa)
            && RemIs(0x4e, 0xbd, 0x18, 0x81, 0x6a) && RemIs(0x4f, 0xb2, 0x2e, 0xf9, 0x2a)
  {
    hide RemIs;
    RemRow0();
    RemPower6();
    RemRow1();
    RemSum(0x40, 0xe7, 0x01, 0x6b, 0xcd, 0x08, 0x78, 0xad, 0xe7, 0x3a);
    RemSum(0x48, 0x9f, 0xac, 0x8c, 0xf7, 0x01, 0x0f, 0x36, 0x78, 0x40);
    RemSum(0x48, 0x9f, 0xac, 0x8c, 0xf7, 0x02, 0x1e, 0x6c, 0xf0, 0x80);
    RemSum(0x48, 0x9f, 0xac, 0x8c, 0xf7, 0x03, 0x11, 0x5a, 0x88, 0xc0);
    RemSum(0x48, 0x9f, 0xac, 0x8c, 0xf7, 0x04, 0x3c, 0xd8, 0xfd, 0x1d);
    RemSum(0x48, 0x9f, 0xac, 0x8c, 0xf7, 0x05, 0x33, 0xee, 0x85, 0x5d);
    RemSum(0x48, 0x9f, 0xac, 0x8c, 0xf7, 0x06, 0x22, 0xb4, 0x0d, 0x9d);
    RemSum(0x48, 0x9f, 0xac, 0x8c, 0xf7, 0x07, 0x2d, 0x82, 0x75, 0xdd);
  }

  lemma RemRow10()
    ensures RemIs(0x50, 0x17, 0x46, 0xb8, 0xb9) && RemIs(0x51, 0x18, 0x70, 0xc0, 0xf9)
            && RemIs(0x52, 0x09, 0x2a, 0x48, 0x39) && RemIs(0x53, 0x06, 0x1c, 0x30, 0x79)
    ensures RemIs(0x54, 0x2b, 0x9e, 0x45, 0xa4) && RemIs(0x55, 0x24, 0xa8, 0x3d, 0xe4)
            && RemIs(0x56, 0x35, 0xf2, 0xb5, 0x24) && RemIs(0x57, 0x3a, 0xc4, 0xcd, 0x64)
  {
    hide RemIs;
    RemRow0();
    RemPower6();
    RemRow2();
    RemSum(0x40, 0xe7, 0x01, 0x6b, 0xcd, 0x10, 0xf0, 0x47, 0xd3, 0x74);
    RemSum(0x50, 0x17, 0x46, 0xb8, 0xb9, 0x01, 0x0f, 0x36, 0x78, 0x40);
    RemSum(0x50, 0x17, 0x46, 0xb8, 0xb9, 0x02, 0x1e, 0x6c, 0xf0, 0x80);
    RemSum(0x50, 0x17, 0x46, 0xb8, 0xb9, 0x03, 0x11, 0x5a, 0x88, 0xc0);
    RemSum(0x50, 0x17, 0x46, 0xb8, 0xb9, 0x04, 0x3c, 0xd8, 0xfd, 0x1d);
    RemSum(0x50, 0x17, 0x46, 0xb8, 0xb9, 0x05, 0x33, 0xee, 0x85, 0x5d);
    RemSum(0x50, 0x17, 0x46, 0xb8, 0xb9, 0x06, 0x22, 0xb4, 0x0d, 0x9d);
    RemSum(0x50, 0x17, 0x46, 0xb8, 0xb9, 0x07, 0x2d, 0x82, 0x75, 0xdd);
  }

  lemma RemRow11()
    ensures RemIs(0x58, 0x6f, 0xeb, 0x5f, 0x83) && RemIs(0x59, 0x60, 0xdd, 0x27, 0xc3)
            && RemIs(0x5a, 0x71, 0x87, 0xaf, 0x03) && RemIs(0x5b, 0x7e, 0xb1, 0xd7, 0x43)
    ensures RemIs(0x5c, 0x53, 0x33, 0xa2, 0x9e) && RemIs(0x5d, 0x5c, 0x05, 0xda, 0xde)
            && RemIs(0x5e, 0x4d, 0x5f, 0x52, 0x1e) && RemIs(0x5f, 0x42, 0x69, 0x2a, 0x5e)
  {
    hide RemIs;
    RemRow0();
    RemPower6();
    RemRow3();
    RemSum(0x40, 0xe7, 0x01, 0x6b, 0xcd, 0x18, 0x88, 0xea, 0x34, 0x4e);
    RemSum(0x58, 0x6f, 0xeb, 0x5f, 0x83, 0x01, 0x0f, 0x36, 0x78, 0x40);
    RemSum(0x58, 0x6f, 0xeb, 0x5f, 0x83, 0x02, 0x1e, 0x6c, 0xf0, 0x80);
    RemSum(0x58, 0x6f, 0xeb, 0x5f, 0x83, 0x03, 0x11, 0x5a, 0x88, 0xc0);
    RemSum(0x58, 0x6f, 0xeb, 0x5f, 0x83, 0x04, 0x3c, 0xd8, 0xfd, 0x1d);
    RemSum(0x58, 0x6f, 0xeb, 0x5f, 0x83, 0x05, 0x33, 0xee, 0x85, 0x5d);
    RemSum(0x58, 0x6f, 0xeb, 0x5f, 0x83, 0x06, 0x22, 0xb4, 0x0d, 0x9d);
    RemSum(0x58, 0x6f, 0xeb, 0x5f, 0x83, 0x07, 0x2d, 0x82, 0x75, 0xdd);
  }

  lemma RemRow12()
    ensures RemIs(0x60, 0x1a, 0x8f, 0xd0, 0x25) && RemIs(0x61, 0x15, 0xb9, 0xa8, 0x65)
            && RemIs(0x62, 0x04, 0xe3, 0x20, 0xa5) && RemIs(0x63, 0x0b, 0xd5, 0x58, 0xe5)
    ensures RemIs(0x64, 0x26, 0x57, 0x2d, 0x38) && RemIs(0x65, 0x29, 0x61, 0x55, 0x78)
            && RemIs(0x66, 0x38, 0x3b, 0xdd, 0xb8) && RemIs(0x67, 0x37, 0x0d, 0xa5, 0xf8)
  {
    hide RemIs;
    RemRow0();
    RemPower6();
    RemRow4();
    RemSum(0x40, 0xe7, 0x01, 0x6b, 0xcd, 0x20, 0xfd, 0x8e, 0xbb, 0xe8);
    RemSum(0x60, 0x1a, 0x8f, 0xd0, 0x25, 0x01, 0x0f, 0x36, 0x78, 0x40);
    RemSum(0x60, 0x1a, 0x8f, 0xd0, 0x25, 0x02, 0x1e, 0x6c, 0xf0, 0x80);
    RemSum(0x60, 0x1a, 0x8f, 0xd0, 0x25, 0x03, 0x11, 0x5a, 0x88, 0xc0);
    RemSum(0x60, 0x1a, 0x8f, 0xd0, 0x25, 0x04, 0x3c, 0xd8, 0xfd, 0x1d);
    RemSum(0x60, 0x1a, 0x8f, 0xd0, 0x25, 0x05, 0x33, 0xee, 0x85, 0x5d);
    RemSum(0x60, 0x1a, 0x8f, 0xd0, 0x25, 0x06, 0x22, 0xb4, 0x0d, 0x9d);
    RemSum(0x60, 0x1a, 0x8f, 0xd0, 0x25, 0x07, 0x2d, 0x82, 0x75, 0xdd);
  }

  lemma RemRow13()
    ensures RemIs(0x68, 0x62, 0x22, 0x37, 0x1f) && RemIs(0x69, 0x6d, 0x14, 0x4f, 0x5f)
            && RemIs(0x6a, 0x7c, 0x4e, 0xc7, 0x9f) && RemIs(0x6b, 0x73, 0x78, 0xbf, 0xdf)
    ensures RemIs(0x6c, 0x5e, 0xfa, 0xca, 0x02) && RemIs(0x6d, 0x51, 0xcc, 0xb2, 0x42)
            && RemIs(0x6e, 0x40, 0x96, 0x3a, 0x82) && RemIs(0x6f, 0x4f, 0xa0, 0x42, 0xc2)
  {
    hide RemIs;
    RemRow0();
    RemPower6();
    RemRow5();
    RemSum(0x40, 0xe7, 0x01, 0x6b, 0xcd, 0x28, 0x85, 0x23, 0x5c, 0xd2);
    RemSum(0x68, 0x62, 0x22, 0x37, 0x1f, 0x01, 0x0f, 0x36, 0x78, 0x40);
    RemSum(0x68, 0x62, 0x22, 0x37, 0x1f, 0x02, 0x1e, 0x6c, 0xf0, 0x80);
    RemSum(0x68, 0x62, 0x22, 0x37, 0x1f, 0x03, 0x11, 0x5a, 0x88, 0xc0);
    RemSum(0x68, 0x62, 0x22, 0x37, 0x1f, 0x04, 0x3c, 0xd8, 0xfd, 0x1d);
    RemSum(0x68, 0x62, 0x22, 0x37, 0x1f, 0x05, 0x33, 0xee, 0x85, 0x5d);
    RemSum(0x68, 0x62, 0x22, 0x37, 0x1f, 0x06, 0x22, 0xb4, 0x0d, 0x9d);
    RemSum(0x68, 0x62, 0x22, 0x37, 0x1f, 0x07, 0x2d, 0x82, 0x75, 0xdd);
  }

  lemma RemRow14()
    ensures RemIs(0x70, 0xea, 0xc8, 0x03, 0x51) && RemIs(0x71, 0xe5, 0xfe, 0x7b, 0x11)
            && RemIs(0x72, 0xf4, 0xa4, 0xf3, 0xd1) && RemIs(0x73, 0xfb, 0x92, 0x8b, 0x91)
    ensures RemIs(0x74, 0xd6, 0x10, 0xfe, 0x4c) && RemIs(0x75, 0xd9, 0x26, 0x86, 0x0c)
            && RemIs(0x76, 0xc8, 0x7c, 0x0e, 0xcc) && RemIs(0x77, 0xc7, 0x4a, 0x76, 0x8c)
  {
    hide RemIs;
    RemRow0();
    RemPower6();
    RemRow6();
    RemSum(0x40, 0xe7, 0x01, 0x6b, 0xcd, 0x30, 0x0d, 0xc9, 0x68, 0x9c);
    RemSum(0x70, 0xea, 0xc8, 0x03, 0x51, 0x01, 0x0f, 0x36, 0x78, 0x40);
    RemSum(0x70, 0xea, 0xc8, 0x03, 0x51, 0x02, 0x1e, 0x6c, 0xf0, 0x80);
    RemSum(0x70, 0xea, 0xc8, 0x03, 0x51, 0x03, 0x11, 0x5a, 0x88, 0xc0);
    RemSum(0x70, 0xea, 0xc8, 0x03, 0x51, 0x04, 0x3c, 0xd8, 0xfd, 0x1d);
    RemSum(0x70, 0xea, 0xc8, 0x03, 0x51, 0x05, 0x33, 0xee, 0x85, 0x5d);
    RemSum(0x70, 0xea, 0xc8, 0x03, 0x51, 0x06, 0x22, 0xb4, 0x0d, 0x9d);
    RemSum(0x70, 0xea, 0xc8, 0x03, 0x51, 0x07, 0x2d, 0x82, 0x75, 0xdd);
  }

  lemma RemRow15()
    ensures RemIs(0x78, 0x92, 0x65, 0xe4, 0x6b) && RemIs(0x79, 0x9d, 0x53, 0x9c, 0x2b)
            && RemIs(0x7a, 0x8c, 0x09, 0x14, 0xeb) && RemIs(0x7b, 0x83, 0x3f, 0x6c, 0xab)
    ensures RemIs(0x7c, 0xae, 0xbd, 0x19, 0x76) && RemIs(0x7d, 0xa1, 0x8b, 0x61, 0x36)
            && RemIs(0x7e, 0xb0, 0xd1, 0xe9, 0xf6) && RemIs(0x7f, 0xbf, 0xe7, 0x91, 0xb6)
  {
    hide RemIs;
    RemRow0();
    RemPower6();
    RemRow7();
    RemSum(0x40, 0xe7, 0x01, 0x6b, 0xcd, 0x38, 0x75, 0x64, 0x8f, 0xa6);
    RemSum(0x78, 0x92, 0x65, 0xe4, 0x6b, 0x01, 0x0f, 0x36, 0x78, 0x40);
    RemSum(0x78, 0x92, 0x65, 0xe4, 0x6b, 0x02, 0x1e, 0x6c, 0xf0, 0x80);
    RemSum(0x78, 0x92, 0x65, 0xe4, 0x6b, 0x03, 0x11, 0x5a, 0x88, 0xc0);
    RemSum(0x78, 0x92, 0x65, 0xe4, 0x6b, 0x04, 0x3c, 0xd8, 0xfd, 0x1d);
    RemSum(0x78, 0x92, 0x65, 0xe4, 0x6b, 0x05, 0x33, 0xee, 0x85, 0x5d);
    RemSum(0x78, 0x92, 0x65, 0xe4, 0x6b, 0x06, 0x22, 0xb4, 0x0d, 0x9d);
    RemSum(0x78, 0x92, 0x65, 0xe4, 0x6b, 0x07, 0x2d, 0x82, 0x75, 0xdd);
  }

  lemma RemRow16()
    ensures RemIs(0x80, 0xd3, 0x02, 0xd6, 0x87) && RemIs(0x81, 0xdc, 0x34, 0xae, 0xc7)
            && RemIs(0x82, 0xcd, 0x6e, 0x26, 0x07) && RemIs(0x83, 0xc2, 0x58, 0x5e, 0x47)
    ensures RemIs(0x84, 0xef, 0xda, 0x2b, 0x9a) && RemIs(0x85, 0xe0, 0xec, 0x53, 0xda)
            && RemIs(0x86, 0xf1, 0xb6, 0xdb, 0x1a) && RemIs(0x87, 0xfe, 0x80, 0xa3, 0x5a)
  {
    hide RemIs;
    RemRow0();
    RemPower7();
    RemSum(0x80, 0xd3, 0x02, 0xd6, 0x87, 0x01, 0x0f, 0x36, 0x78, 0x40);
    RemSum(0x80, 0xd3, 0x02, 0xd6, 0x87, 0x02, 0x1e, 0x6c, 0xf0, 0x80);
    RemSum(0x80, 0xd3, 0x02, 0xd6, 0x87, 0x03, 0x11, 0x5a, 0x88, 0xc0);
    RemSum(0x80, 0xd3, 0x02, 0xd6, 0x87, 0x04, 0x3c, 0xd8, 0xfd, 0x1d);
    RemSum(0x80, 0xd3, 0x02, 0xd6, 0x87, 0x05, 0x33, 0xee, 0x85, 0x5d);
    RemSum(0x80, 0xd3, 0x02, 0xd6, 0x87, 0x06, 0x22, 0xb4, 0x0d, 0x9d);
    RemSum(0x80, 0xd3, 0x02, 0xd6, 0x87, 0x07, 0x2d, 0x82, 0x75, 0xdd);
  }

  lemma RemRow17()
    ensures RemIs(0x88, 0xab, 0xaf, 0x31, 0xbd) && RemIs(0x89, 0xa4, 0x99, 0x49, 0xfd)
            && RemIs(0x8a, 0xb5, 0xc3, 0xc1, 0x3d) && RemIs(0x8b, 0xba, 0xf5, 0xb9, 0x7d)
    ensures RemIs(0x8c, 0x97, 0x77, 0xcc, 0xa0) && RemIs(0x8d, 0x98, 0x41, 0xb4, 0xe0)
            && RemIs(0x8e, 0x89, 0x1b, 0x3c, 0x20) && RemIs(0x8f, 0x86, 0x2d, 0x44, 0x60)
  {
    hide RemIs;
    RemRow0();
    RemPower7();
    RemRow1();
    RemSum(0x80, 0xd3, 0x02, 0xd6, 0x87, 0x08, 0x78, 0xad, 0xe7, 0x3a);
    RemSum(0x88, 0xab, 0xaf, 0x31, 0xbd, 0x01, 0x0f, 0x36, 0x78, 0x40);
    RemSum(0x88, 0xab, 0xaf, 0x31, 0xbd, 0x02, 0x1e, 0x6c, 0xf0, 0x80);
    RemSum(0x88, 0xab, 0xaf, 0x31, 0xbd, 0x03, 0x11, 0x5a, 0x88, 0xc0);
    RemSum(0x88, 0xab, 0xaf, 0x31, 0xbd, 0x04, 0x3c, 0xd8, 0xfd, 0x1d);
    RemSum(0x88, 0xab, 0xaf, 0x31, 0xbd, 0x05, 0x33, 0xee, 0x85, 0x5d);
    RemSum(0x88, 0xab, 0xaf, 0x31, 0xbd, 0x06, 0x22, 0xb4, 0x0d, 0x9d);
    RemSum(0x88, 0xab, 0xaf, 0x31, 0xbd, 0x07, 0x2d, 0x82, 0x75, 0xdd);
  }

  lemma RemRow18()
    ensures RemIs(0x90, 0x23, 0x45, 0x05, 0xf3) && RemIs(0x91, 0x2c, 0x73, 0x7d, 0xb3)
            && RemIs(0x92, 0x3d, 0x29, 0xf5, 0x73) && RemIs(0x93, 0x32, 0x1f, 0x8d, 0x33)
    ensures RemIs(0x94, 0x1f, 0x9d, 0xf8, 0xee) && RemIs(0x95, 0x10, 0xab, 0x80, 0xae)
            && RemIs(0x96, 0x01, 0xf1, 0x08, 0x6e) && RemIs(0x97, 0x0e, 0xc7, 0x70, 0x2e)
  {
    hide RemIs;
    RemRow0();
    RemPower7();
    RemRow2();
    RemSum(0x80, 0xd3, 0x02, 0xd6, 0x87, 0x10, 0xf0, 0x47, 0xd3, 0x74);
    RemSum(0x90, 0x23, 0x45, 0x05, 0xf3, 0x01, 0x0f, 0x36, 0x78, 0x40);
    RemSum(0x90, 0x23, 0x45, 0x05, 0xf3, 0x02, 0x1e, 0x6c, 0xf0, 0x80);
    RemSum(0x90, 0x23, 0x45, 0x05, 0xf3, 0x03, 0x11, 0x5a, 0x88, 0xc0);
    RemSum(0x90, 0x23, 0x45, 0x05, 0xf3, 0x04, 0x3c, 0xd8, 0xfd, 0x1d);
    RemSum(0x90, 0x23, 0x45, 0x05, 0xf3, 0x05, 0x33, 0xee, 0x85, 0x5d);
    RemSum(0x90, 0x23, 0x45, 0x05, 0xf3, 0x06, 0x22, 0xb4, 0x0d, 0x9d);
    RemSum(0x90, 0x23, 0x45, 0x05, 0xf3, 0x07, 0x2d, 0x82, 0x75, 0xdd);
  }

  lemma RemRow19()
    ensures RemIs(0x98, 0x5b, 0xe8, 0xe2, 0xc9) && RemIs(0x99, 0x54, 0xde, 0x9a, 0x89)
            && RemIs(0x9a, 0x45, 0x84, 0x12, 0x49) && RemIs(0x9b, 0x4a, 0xb2, 0x6a, 0x09)
    ensures RemIs(0x9c, 0x67, 0x30, 0x1f, 0xd4) && RemIs(0x9d, 0x68, 0x06, 0x67, 0x94)
            && RemIs(0x9e, 0x79, 0x5c, 0xef, 0x54) && RemIs(0x9f, 0x76, 0x6a, 0x97, 0x14)
  {
    hide RemIs;
    RemRow0();
    RemPower7();
    RemRow3();
    RemSum(0x80, 0xd3, 0x02, 0xd6, 0x87, 0x18, 0x88, 0xea, 0x34, 0x4e);
    RemSum(0x98, 0x5b, 0xe8, 0xe2, 0xc9, 0x01, 0x0f, 0x36, 0x78, 0x40);
    RemSum(0x98, 0x5b, 0xe8, 0xe2, 0xc9, 0x02, 0x1e, 0x6c, 0xf0, 0x80);
    RemSum(0x98, 0x5b, 0xe8, 0xe2, 0xc9, 0x03, 0x11, 0x5a, 0x88, 0xc0);
    RemSum(0x98, 0x5b, 0xe8, 0xe2, 0xc9, 0x04, 0x3c, 0xd8, 0xfd, 0x1d);
    RemSum(0x98, 0x5b, 0xe8, 0xe2, 0xc9, 0x05, 0x33, 0xee, 0x85, 0x5d);
    RemSum(0x98, 0x5b, 0xe8, 0xe2, 0xc9, 0x06, 0x22, 0xb4, 0x0d, 0x9d);
    RemSum(0x98, 0x5b, 0xe8, 0xe2, 0xc9, 0x07, 0x2d, 0x82, 0x75, 0xdd);
  }

  lemma RemRow20()
    ensures RemIs(0xa0, 0x2e, 0x8c, 0x6d, 0x6f) && RemIs(0xa1, 0x21, 0xba, 0x15, 0x2f)
            && RemIs(0xa2, 0x30, 0xe0, 0x9d, 0xef) && RemIs(0xa3, 0x3f, 0xd6, 0xe5, 0xaf)
    ensures RemIs(0xa4, 0x12, 0x54, 0x90, 0x72) && RemIs(0xa5, 0x1d, 0x62, 0xe8, 0x32)
            && RemIs(0xa6, 0x0c, 0x38, 0x60, 0xf2) && RemIs(0xa7, 0x03, 0x0e, 0x18, 0xb2)
  {
    hide RemIs;
    RemRow0();
    RemPower7();
    RemRow4();
    RemSum(0x80, 0xd3, 0x02, 0xd6, 0x87, 0x20, 0xfd, 0x8e, 0xbb, 0xe8);
    RemSum(0xa0, 0x2e, 0x8c, 0x6d, 0x6f, 0x01, 0x0f, 0x36, 0x78, 0x40);
    RemSum(0xa0, 0x2e, 0x8c, 0x6d, 0x6f, 0x02, 0x1e, 0x6c, 0xf0, 0x80);
    RemSum(0xa0, 0x2e, 0x8c, 0x6d, 0x6f, 0x03, 0x11, 0x5a, 0x88, 0xc0);
    RemSum(0xa0, 0x2e, 0x8c, 0x6d, 0x6f, 0x04, 0x3c, 0xd8, 0xfd, 0x1d);
    RemSum(0xa0, 0x2e, 0x8c, 0x6d, 0x6f, 0x05, 0x33, 0xee, 0x85, 0x5d);
    RemSum(0xa0, 0x2e, 0x8c, 0x6d, 0x6f, 0x06, 0x22, 0xb4, 0x0d, 0x9d);
    RemSum(0xa0, 0x2e, 0x8c, 0x6d, 0x6f, 0x07, 0x2d, 0x82, 0x75, 0xdd);
  }

  lemma RemRow21()
    ensures RemIs(0xa8, 0x56, 0x21, 0x8a, 0x55) && RemIs(0xa9, 0x59, 0x17, 0xf2, 0x15)
            && RemIs(0xaa, 0x48, 0x4d, 0x7a, 0xd5) && RemIs(0xab, 0x47, 0x7b, 0x02, 0x95)
    ensures RemIs(0xac, 0x6a, 0xf9, 0x77, 0x48) && RemIs(0xad, 0x65, 0xcf, 0x0f, 0x08)
            && RemIs(0xae, 0x74, 0x95, 0x87, 0xc8) && RemIs(0xaf, 0x7b, 0xa3, 0xff, 0x88)
  {
    hide RemIs;
    RemRow0();
    RemPower7();
    RemRow5();
    RemSum(0x80, 0xd3, 0x02, 0xd6, 0x87, 0x28, 0x85, 0x23, 0x5c, 0xd2);
    RemSum(0xa8, 0x56, 0x21, 0x8a, 0x55, 0x01, 0x0f, 0x36, 0x78, 0x40);
    RemSum(0xa8, 0x56, 0x21, 0x8a, 0x55, 0x02, 0x1e, 0x6c, 0xf0, 0x80);
    RemSum(0xa8, 0x56, 0x21, 0x8a, 0x55, 0x03, 0x11, 0x5a, 0x88, 0xc0);
    RemSum(0xa8, 0x56, 0x21, 0x8a, 0x55, 0x04, 0x3c, 0xd8, 0xfd, 0x1d);
    RemSum(0xa8, 0x56, 0x21, 0x8a, 0x55, 0x05, 0x33, 0xee, 0x85, 0x5d);
    RemSum(0xa8, 0x56, 0x21, 0x8a, 0x55, 0x06, 0x22, 0xb4, 0x0d, 0x9d);
    RemSum(0xa8, 0x56, 0x21, 0x8a, 0x55, 0x07, 0x2d, 0x82, 0x75, 0xdd);
  }

  lemma RemRow22()
    ensures RemIs(0xb0, 0xde, 0xcb, 0xbe, 0x1b) && RemIs(0xb1, 0xd1, 0xfd, 0xc6, 0x5b)
            && RemIs(0xb2, 0xc0, 0xa7, 0x4e, 0x9b) && RemIs(0xb3, 0xcf, 0x91, 0x36, 0xdb)
    ensures RemIs(0xb4, 0xe2, 0x13, 0x43, 0x06) && RemIs(0xb5, 0xed, 0x25, 0x3b, 0x46)
            && RemIs(0xb6, 0xfc, 0x7f, 0xb3, 0x86) && RemIs(0xb7, 0xf3, 0x49, 0xcb, 0xc6)
  {
    hide RemIs;
    RemRow0();
    RemPower7();
    RemRow6();
    RemSum(0x80, 0xd3, 0x02, 0xd6, 0x87, 0x30, 0x0d, 0xc9, 0x68, 0x9c);
    RemSum(0xb0, 0xde, 0xcb, 0xbe, 0x1b, 0x01, 0x0f, 0x36, 0x78, 0x40);
    RemSum(0xb0, 0xde, 0xcb, 0xbe, 0x1b, 0x02, 0x1e, 0x6c, 0xf0, 0x80);
    RemSum(0xb0, 0xde, 0xcb, 0xbe, 0x1b, 0x03, 0x11, 0x5a, 0x88, 0xc0);
    RemSum(0xb0, 0xde, 0xcb, 0xbe, 0x1b, 0x04, 0x3c, 0xd8, 0xfd, 0x1d);
    RemSum(0xb0, 0xde, 0xcb, 0xbe, 0x1b, 0x05, 0x33, 0xee, 0x85, 0x5d);
    RemSum(0xb0, 0xde, 0xcb, 0xbe, 0x1b, 0x06, 0x22, 0xb4, 0x0d, 0x9d);
    RemSum(0xb0, 0xde, 0xcb, 0xbe, 0x1b, 0x07, 0x2d, 0x82, 0x75, 0xdd);
  }

  lemma RemRow23()
    ensures RemIs(0xb8, 0xa6, 0x66, 0x59, 0x21) && RemIs(0xb9, 0xa9, 0x50, 0x21, 0x61)
            && RemIs(0xba, 0xb8, 0x0a, 0xa9, 0xa1) && RemIs(0xbb, 0xb7, 0x3c, 0xd1, 0xe1)
    ensures RemIs(0xbc, 0x9a, 0xbe, 0xa4, 0x3c) && RemIs(0xbd, 0x95, 0x88, 0xdc, 0x7c)
            && RemIs(0xbe, 0x84, 0xd2, 0x54, 0xbc) && RemIs(0xbf, 0x8b, 0xe4, 0x2c, 0xfc)
  {
    hide RemIs;
    RemRow0();
    RemPower7();
    RemRow7();
    RemSum(0x80, 0xd3, 0x02, 0xd6, 0x87, 0x38, 0x75, 0x64, 0x8f, 0xa6);
    RemSum(0xb8, 0xa6, 0x66, 0x59, 0x21, 0x01, 0x0f, 0x36, 0x78, 0x40);
    RemSum(0xb8, 0xa6, 0x66, 0x59, 0x21, 0x02, 0x1e, 0x6c, 0xf0, 0x80);
    RemSum(0xb8, 0xa6, 0x66, 0x59, 0x21, 0x03, 0x11, 0x5a, 0x88, 0xc0);
    RemSum(0xb8, 0xa6, 0x66, 0x59, 0x21, 0x04, 0x3c, 0xd8, 0xfd, 0x1d);
    RemSum(0xb8, 0xa6, 0x66, 0x59, 0x21, 0x05, 0x33, 0xee, 0x85, 0x5d);
    RemSum(0xb8, 0xa6, 0x66, 0x59, 0x21, 0x06, 0x22, 0xb4, 0x0d, 0x9d);
    RemSum(0xb8, 0xa6, 0x66, 0x59, 0x21, 0x07, 0x2d, 0x82, 0x75, 0xdd);
  }

  lemma RemRow24()
    ensures RemIs(0xc0, 0x34, 0x03, 0xbd, 0x4a) && RemIs(0xc1, 0x3b, 0x35, 0xc5, 0x0a)
            && RemIs(0xc2, 0x2a, 0x6f, 0x4d, 0xca) && RemIs(0xc3, 0x25, 0x59, 0x35, 0x8a)
    ensures RemIs(0xc4, 0x08, 0xdb, 0x40, 0x57) && RemIs(0xc5, 0x07, 0xed, 0x38, 0x17)
            && RemIs(0xc6, 0x16, 0xb7, 0xb0, 0xd7) && RemIs(0xc7, 0x19, 0x81, 0xc8, 0x97)
  {
    hide RemIs;
    RemRow0();
    RemPower7();
    RemRow8();
    RemSum(0x80, 0xd3, 0x02, 0xd6, 0x87, 0x40, 0xe7, 0x01, 0x6b, 0xcd);
    RemSum(0xc0, 0x34, 0x03, 0xbd, 0x4a, 0x01, 0x0f, 0x36, 0x78, 0x40);
    RemSum(0xc0, 0x34, 0x03, 0xbd, 0x4a, 0x02, 0x1e, 0x6c, 0xf0, 0x80);
    RemSum(0xc0, 0x34, 0x03, 0xbd, 0x4a, 0x03, 0x11, 0x5a, 0x88, 0xc0);
    RemSum(0xc0, 0x34, 0x03, 0xbd, 0x4a, 0x04, 0x3c, 0xd8, 0xfd, 0x1d);
    RemSum(0xc0, 0x34, 0x03, 0xbd, 0x4a, 0x05, 0x33, 0xee, 0x85, 0x5d);
    RemSum(0xc0, 0x34, 0x03, 0xbd, 0x4a, 0x06, 0x22, 0xb4, 0x0d, 0x9d);
    RemSum(0xc0, 0x34, 0x03, 0xbd, 0x4a, 0x07, 0x2d, 0x82, 0x75, 0xdd);
  }

  lemma RemRow25()
    ensures RemIs(0xc8, 0x4c, 0xae, 0x5a, 0x70) && RemIs(0xc9, 0x43, 0x98, 0x22, 0x30)
            && RemIs(0xca, 0x52, 0xc2, 0xaa, 0xf0) && RemIs(0xcb, 0x5d, 0xf4, 0xd2, 0xb0)
    ensures RemIs(0xcc, 0x70, 0x76, 0xa7, 0x6d) && RemIs(0xcd, 0x7f, 0x40, 0xdf, 0x2d)
            && RemIs(0xce, 0x6e, 0x1a, 0x57, 0xed) && RemIs(0xcf, 0x61, 0x2c, 0x2f, 0xad)
  {
    hide RemIs;
    RemRow0();
    RemPower7();
    RemRow9();
    RemSum(0x80, 0xd3, 0x02, 0xd6, 0x87, 0x48, 0x9f, 0xac, 0x8c, 0xf7);
    RemSum(0xc8, 0x4c, 0xae, 0x5a, 0x70, 0x01, 0x0f, 0x36, 0x78, 0x40);
    RemSum(0xc8, 0x4c, 0xae, 0x5a, 0x70, 0x02, 0x1e, 0x6c, 0xf0, 0x80);
    RemSum(0xc8, 0x4c, 0xae, 0x5a, 0x70, 0x03, 0x11, 0x5a, 0x88, 0xc0);
    RemSum(0xc8, 0x4c, 0xae, 0x5a, 0x70, 0x04, 0x3c, 0xd8, 0xfd, 0x1d);
    RemSum(0xc8, 0x4c, 0xae, 0x5a, 0x70, 0x05, 0x33, 0xee, 0x85, 0x5d);
    RemSum(0xc8, 0x4c, 0xae, 0x5a, 0x70, 0x06, 0x22, 0xb4, 0x0d, 0x9d);
    RemSum(0xc8, 0x4c, 0xae, 0x5a, 0x70, 0x07, 0x2d, 0x82, 0x75, 0xdd);
  }

  lemma RemRow26()
    ensures RemIs(0xd0, 0xc4, 0x44, 0x6e, 0x3e) && RemIs(0xd1, 0xcb, 0x72, 0x16, 0x7e)
            && RemIs(0xd2, 0xda, 0x28, 0x9e, 0xbe) && RemIs(0xd3, 0xd5, 0x1e, 0xe6, 0xfe)
    ensures RemIs(0xd4, 0xf8, 0x9c, 0x93, 0x23) && RemIs(0xd5, 0xf7, 0xaa, 0xeb, 0x63)
            && RemIs(0xd6, 0xe6, 0xf0, 0x63, 0xa3) && RemIs(0xd7, 0xe9, 0xc6, 0x1b, 0xe3)
  {
    hide RemIs;
    RemRow0();
    RemPower7();
    RemRow10();
    RemSum(0x80, 0xd3, 0x02, 0xd6, 0x87, 0x50, 0x17, 0x46, 0xb8, 0xb9);
    RemSum(0xd0, 0xc4, 0x44, 0x6e, 0x3e, 0x01, 0x0f, 0x36, 0x78, 0x40);
    RemSum(0xd0, 0xc4, 0x44, 0x6e, 0x3e, 0x02, 0x1e, 0x6c, 0xf0, 0x80);
    RemSum(0xd0, 0xc4, 0x44, 0x6e, 0x3e, 0x03, 0x11, 0x5a, 0x88, 0xc0);
    RemSum(0xd0, 0xc4, 0x44, 0x6e, 0x3e, 0x04, 0x3c, 0xd8, 0xfd, 0x1d);
    RemSum(0xd0, 0xc4, 0x44, 0x6e, 0x3e, 0x05, 0x33, 0xee, 0x85, 0x5d);
    RemSum(0xd0, 0xc4, 0x44, 0x6e, 0x3e, 0x06, 0x22, 0xb4, 0x0d, 0x9d);
    RemSum(0xd0, 0xc4, 0x44, 0x6e, 0x3e, 0x07, 0x2d, 0x82, 0x75, 0xdd);
  }

  lemma RemRow27()
    ensures RemIs(0xd8, 0xbc, 0xe9, 0x89, 0x04) && RemIs(0xd9, 0xb3, 0xdf, 0xf1, 0x44)
            && RemIs(0xda, 0xa2, 0x85, 0x79, 0x84) && RemIs(0xdb, 0xad, 0xb3, 0x01, 0xc4)
    ensures RemIs(0xdc, 0x80, 0x31, 0x74, 0x19) && RemIs(0xdd, 0x8f, 0x07, 0x0c, 0x59)
            && RemIs(0xde, 0x9e, 0x5d, 0x84, 0x99) && RemIs(0xdf, 0x91, 0x6b, 0xfc, 0xd9)
  {
    hide RemIs;
    RemRow0();
    RemPower7();
    RemRow11();
    RemSum(0x80, 0xd3, 0x02, 0xd6, 0x87, 0x58, 0x6f, 0xeb, 0x5f, 0x83);
    RemSum(0xd8, 0xbc, 0xe9, 0x89, 0x04, 0x01, 0x0f, 0x36, 0x78, 0x40);
    RemSum(0xd8, 0xbc, 0xe9, 0x89, 0x04, 0x02, 0x1e, 0x6c, 0xf0, 0x80);
    RemSum(0xd8, 0xbc, 0xe9, 0x89, 0x04, 0x03, 0x11, 0x5a, 0x88, 0xc0);
    RemSum(0xd8, 0xbc, 0xe9, 0x89, 0x04, 0x04, 0x3c, 0xd8, 0xfd, 0x1d);
    RemSum(0xd8, 0xbc, 0xe9, 0x89, 0x04, 0x05, 0x33, 0xee, 0x85, 0x5d);
    RemSum(0xd8, 0xbc, 0xe9, 0x89, 0x04, 0x06, 0x22, 0xb4, 0x0d, 0x9d);
    RemSum(0xd8, 0xbc, 0xe9, 0x89, 0x04, 0x07, 0x2d, 0x82, 0x75, 0xdd);
  }

  lemma RemRow28()
    ensures RemIs(0xe0, 0xc9, 0x8d, 0x06, 0xa2) && RemIs(0xe1, 0xc6, 0xbb, 0x7e, 0xe2)
            && RemIs(0xe2, 0xd7, 0xe1, 0xf6, 0x22) && RemIs(0xe3, 0xd8, 0xd7, 0x8e, 0x62)
    ensures RemIs(0xe4, 0xf5, 0x55, 0xfb, 0xbf) && RemIs(0xe5, 0xfa, 0x63, 0x83, 0xff)
            && RemIs(0xe6, 0xeb, 0x39, 0x0b, 0x3f) && RemIs(0xe7, 0xe4, 0x0f, 0x73, 0x7f)
  {
    hide RemIs;
    RemRow0();
    RemPower7();
    RemRow12();
    RemSum(0x80, 0xd3, 0x02, 0xd6, 0x87, 0x60, 0x1a, 0x8f, 0xd0, 0x25);
    RemSum(0xe0, 0xc9, 0x8d, 0x06, 0xa2, 0x01, 0x0f, 0x36, 0x78, 0x40);
    RemSum(0xe0, 0xc9, 0x8d, 0x06, 0xa2, 0x02, 0x1e, 0x6c, 0xf0, 0x80);
    RemSum(0xe0, 0xc9, 0x8d, 0x06, 0xa2, 0x03, 0x11, 0x5a, 0x88, 0xc0);
    RemSum(0xe0, 0xc9, 0x8d, 0x06, 0xa2, 0x04, 0x3c, 0xd8, 0xfd, 0x1d);
    RemSum(0xe0, 0xc9, 0x8d, 0x06, 0xa2, 0x05, 0x33, 0xee, 0x85, 0x5d);
    RemSum(0xe0, 0xc9, 0x8d, 0x06, 0xa2, 0x06, 0x22, 0xb4, 0x0d, 0x9d);
    RemSum(0xe0, 0xc9, 0x8d, 0x06, 0xa2, 0x07, 0x2d, 0x82, 0x75, 0xdd);
  }

  lemma RemRow29()
    ensures RemIs(0xe8, 0xb1, 0x20, 0xe1, 0x98) && RemIs(0xe9, 0xbe, 0x16, 0x99, 0xd8)
            && RemIs(0xea, 0xaf, 0x4c, 0x11, 0x18) && RemIs(0xeb, 0xa0, 0x7a, 0x69, 0x58)
    ensures RemIs(0xec, 0x8d, 0xf8, 0x1c, 0x85) && RemIs(0xed, 0x82, 0xce, 0x64, 0xc5)
            && RemIs(0xee, 0x93, 0x94, 0xec, 0x05) && RemIs(0xef, 0x9c, 0xa2, 0x94, 0x45)
  {
    hide RemIs;
    RemRow0();
    RemPower7();
    RemRow13();
    RemSum(0x80, 0xd3, 0x02, 0xd6, 0x87, 0x68, 0x62, 0x22, 0x37, 0x1f);
    RemSum(0xe8, 0xb1, 0x20, 0xe1, 0x98, 0x01, 0x0f, 0x36, 0x78, 0x40);
    RemSum(0xe8, 0xb1, 0x20, 0xe1, 0x98, 0x02, 0x1e, 0x6c, 0xf0, 0x80);
    RemSum(0xe8, 0xb1, 0x20, 0xe1, 0x98, 0x03, 0x11, 0x5a, 0x88, 0xc0);
    RemSum(0xe8, 0xb1, 0x20, 0xe1, 0x98, 0x04, 0x3c, 0xd8, 0xfd, 0x1d);
    RemSum(0xe8, 0xb1, 0x20, 0xe1, 0x98, 0x05, 0x33, 0xee, 0x85, 0x5d);
    RemSum(0xe8, 0xb1, 0x20, 0xe1, 0x98, 0x06, 0x22, 0xb4, 0x0d, 0x9d);
    RemSum(0xe8, 0xb1, 0x20, 0xe1, 0x98, 0x07, 0x2d, 0x82, 0x75, 0xdd);
  }

  lemma RemRow30()
    ensures RemIs(0xf0, 0x39, 0xca, 0xd5, 0xd6) && RemIs(0xf1, 0x36, 0xfc, 0xad, 0x96)
            && RemIs(0xf2, 0x27, 0xa6, 0x25, 0x56) && RemIs(0xf3, 0x28, 0x90, 0x5d, 0x16)
    ensures RemIs(0xf4, 0x05, 0x12, 0x28, 0xcb) && RemIs(0xf5, 0x0a, 0x24, 0x50, 0x8b)
            && RemIs(0xf6, 0x1b, 0x7e, 0xd8, 0x4b) && RemIs(0xf7, 0x14, 0x48, 0xa0, 0x0b)
  {
    hide RemIs;
    RemRow0();
    RemPower7();
    RemRow14();
    RemSum(0x80, 0xd3, 0x02, 0xd6, 0x87, 0x70, 0xea, 0xc8, 0x03, 0x51);
    RemSum(0xf0, 0x39, 0xca, 0xd5, 0xd6, 0x01, 0x0f, 0x36, 0x78, 0x40);
    RemSum(0xf0, 0x39, 0xca, 0xd5, 0xd6, 0x02, 0x1e, 0x6c, 0xf0, 0x80);
    RemSum(0xf0, 0x39, 0xca, 0xd5, 0xd6, 0x03, 0x11, 0x5a, 0x88, 0xc0);
    RemSum(0xf0, 0x39, 0xca, 0xd5, 0xd6, 0x04, 0x3c, 0xd8, 0xfd, 0x1d);
    RemSum(0xf0, 0x39, 0xca, 0xd5, 0xd6, 0x05, 0x33, 0xee, 0x85, 0x5d);
    RemSum(0xf0, 0x39, 0xca, 0xd5, 0xd6, 0x06, 0x22, 0xb4, 0x0d, 0x9d);
    RemSum(0xf0, 0x39, 0xca, 0xd5, 0xd6, 0x07, 0x2d, 0x82, 0x75, 0xdd);
  }

  lemma RemRow31()
    ensures RemIs(0xf8, 0x41, 0x67, 0x32, 0xec) && RemIs(0xf9, 0x4e, 0x51, 0x4a, 0xac)
            && RemIs(0xfa, 0x5f, 0x0b, 0xc2, 0x6c) && RemIs(0xfb, 0x50, 0x3d, 0xba, 0x2c)
    ensures RemIs(0xfc, 0x7d, 0xbf, 0xcf, 0xf1) && RemIs(0xfd, 0x72, 0x89, 0xb7, 0xb1)
            && RemIs(0xfe, 0x63, 0xd3, 0x3f, 0x71) && RemIs(0xff, 0x6c, 0xe5, 0x47, 0x31)
  {
    hide RemIs;
    RemRow0();
    RemPower7();
    RemRow15();
    RemSum(0x80, 0xd3, 0x02, 0xd6, 0x87, 0x78, 0x92, 0x65, 0xe4, 0x6b);
    RemSum(0xf8, 0x41, 0x67, 0x32, 0xec, 0x01, 0x0f, 0x36, 0x78, 0x40);
    RemSum(0xf8, 0x41, 0x67, 0x32, 0xec, 0x02, 0x1e, 0x6c, 0xf0, 0x80);
    RemSum(0xf8, 0x41, 0x67, 0x32, 0xec, 0x03, 0x11, 0x5a, 0x88, 0xc0);
    RemSum(0xf8, 0x41, 0x67, 0x32, 0xec, 0x04, 0x3c, 0xd8, 0xfd, 0x1d);
    RemSum(0xf8, 0x41, 0x67, 0x32, 0xec, 0x05, 0x33, 0xee, 0x85, 0x5d);
    RemSum(0xf8, 0x41, 0x67, 0x32, 0xec, 0x06, 0x22, 0xb4, 0x0d, 0x9d);
    RemSum(0xf8, 0x41, 0x67, 0x32, 0xec, 0x07, 0x2d, 0x82, 0x75, 0xdd);
  }
}
