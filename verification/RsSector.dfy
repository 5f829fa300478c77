/** The product code on whole sectors: 1024 data bytes laid out in 32 rows of 32, extended to a
    36 by 36 array whose rows and columns are codewords.
 */
module RsSector {
  import opened Bytes
  import opened GaloisField
  import opened RsString
  import opened RsDecoder
  import opened RsTwoErrors
  import opened RsCodec

  const ENCODED := 1296
  const DECODED := 1024

  function Row(s: seq<Byte>, r: nat): (c: seq<Byte>)
    requires |s| >= ENCODED && r < 36
    ensures |c| == 36
  {
    Strand(s, 36 * r, 1)
  }

  function Col(s: seq<Byte>, c: nat): (d: seq<Byte>)
    requires |s| >= ENCODED && c < 36
    ensures |d| == 36
  {
    Strand(s, c, 36)
  }

  function Cell(s: seq<Byte>, r: nat, c: nat): Byte
    requires |s| >= ENCODED && r < 36 && c < 36
  {
    s[36 * r + c]
  }

  function Datum(data: seq<Byte>, r: nat, c: nat): Byte
    requires |data| >= DECODED && r < 32 && c < 32
  {
    data[32 * r + c]
  }

  /** s holds the 1024 data bytes in its upper left 32 by 32 square. */
  ghost predicate Holds(s: seq<Byte>, data: seq<Byte>) {
    && |s| >= ENCODED && |data| == DECODED
    && forall r, c :: 0 <= r < 32 && 0 <= c < 32 ==> Cell(s, r, c) == Datum(data, r, c)
  }

  ghost predicate Encoded(s: seq<Byte>, data: seq<Byte>) {
    && Holds(s, data)
    && (forall r :: 0 <= r < 36 ==> IsCodeword(Row(s, r)))
    && (forall c :: 0 <= c < 36 ==> IsCodeword(Col(s, c)))
  }

  // ----- the parity columns are codewords without ever having been encoded

  /** The values at alpha^k of the data columns, after n rows; the last four bytes are unused. */
  function Values(s: seq<Byte>, k: nat, n: nat): (v: seq<Byte>)
    requires |s| >= ENCODED && n <= 36
    ensures |v| == 36
  {
    seq(36, m requires 0 <= m < 36 => Horner(Col(s, m), k, n))
  }

  lemma RegisterZero(c: seq<Byte>, i: nat)
    requires |c| == 36 && 4 <= i <= 36 && forall j :: 0 <= j < 32 ==> c[j] == ZERO
    ensures Register(c, i) == ZERO4
  {
    hide Xor, Register;
    XorZero(ZERO);
    EccAdditive(c, c, c, i);
    var r := Register(c, i);
    XorSelf(r.b3); XorSelf(r.b2); XorSelf(r.b1); XorSelf(r.b0);
  }

  lemma {:induction false} ParityFollows(s: seq<Byte>, k: nat, n: nat)
    requires |s| >= ENCODED && n <= 36
    requires forall r :: 0 <= r < 36 ==> IsCodeword(Row(s, r))
    ensures Ecc(Values(s, k, n)) == Parity(Values(s, k, n))
  {
    hide Xor, Times, Register, IsCodeword, Row, Col, Horner;
    var v := Values(s, k, n);
    if n == 0 {
      HornerStart(s, k);
      RegisterZero(v, 36);
    } else {
      var u, row := Values(s, k, n - 1), Row(s, n - 1);
      ParityFollows(s, k, n - 1);
      var scaled := seq(36, m requires 0 <= m < 36 => Times(u[m], k));
      forall m | 0 <= m < 36
        ensures v[m] == Xor(scaled[m], row[m])
      {
        HornerNext(s, k, n - 1, m);
      }
      EccHomogeneous(u, scaled, k, 36);
      EccAdditive(scaled, row, v, 36);
      CodewordIff(row);
    }
  }

  lemma HornerStart(s: seq<Byte>, k: nat)
    requires |s| >= ENCODED
    ensures forall m :: 0 <= m < 36 ==> Horner(Col(s, m), k, 0) == ZERO
  {
  }

  lemma HornerNext(s: seq<Byte>, k: nat, n: nat, m: nat)
    requires |s| >= ENCODED && n < 36 && m < 36
    ensures Horner(Col(s, m), k, n + 1) == Xor(Times(Horner(Col(s, m), k, n), k), Row(s, n)[m])
  {
    hide Xor, Times;
  }

  lemma ParityColumns(s: seq<Byte>)
    requires |s| >= ENCODED
    requires forall r :: 0 <= r < 36 ==> IsCodeword(Row(s, r))
    requires forall c :: 0 <= c < 32 ==> IsCodeword(Col(s, c))
    ensures forall c :: 32 <= c < 36 ==> IsCodeword(Col(s, c))
  {
    hide Horner, Row, Col, Register;
    forall c, k: nat | 32 <= c < 36 && k < 4
      ensures Syndrome(Col(s, c), k) == ZERO
    {
      var v := Values(s, k, 36);
      forall m | 0 <= m < 36
        ensures v[m] == Syndrome(Col(s, m), k)
      {
      }
      ParityFollows(s, k, 36);
      RegisterZero(v, 36);
      assert Parity(v) == ZERO4;
    }
  }

  // ----- rs_decode as a function

  /** Every row decoded on its own. */
  function RowPass(s: seq<Byte>): (t: seq<Byte>)
    requires |s| >= ENCODED
    ensures |t| == ENCODED
  {
    seq(ENCODED, k requires 0 <= k < ENCODED => DecodeString(Row(s, k / 36)).0[k % 36])
  }

  /** The first n columns decoded. */
  function ColPass(s: seq<Byte>, n: nat): (t: seq<Byte>)
    requires |s| >= ENCODED && n <= 32
    ensures |t| == ENCODED
  {
    seq(ENCODED, k requires 0 <= k < ENCODED => if k % 36 < n then DecodeString(Col(s, k % 36)).0[k / 36] else s[k])
  }

  predicate Uncorrectable(s: seq<Byte>, c: nat)
    requires |s| >= ENCODED && c < 36
  {
    DecodeString(Col(s, c)).1 == -1
  }

  /** Corrections counted over the first n rows; a row that fails counts nothing. */
  function RowCount(s: seq<Byte>, n: nat): (count: nat)
    requires |s| >= ENCODED && n <= 36
  {
    if n == 0 then 0 else
      var e := DecodeString(Row(s, n - 1)).1;
      RowCount(s, n - 1) + if e > 0 then e else 0
  }

  function ColCount(s: seq<Byte>, n: nat): (count: nat)
    requires |s| >= ENCODED && n <= 36
  {
    if n == 0 then 0 else
      var e := DecodeString(Col(s, n - 1)).1;
      ColCount(s, n - 1) + if e > 0 then e else 0
  }

  /** The upper left square, read out row by row. */
  function Compact(s: seq<Byte>): (data: seq<Byte>)
    requires |s| >= ENCODED
    ensures |data| == DECODED
  {
    seq(DECODED, k requires 0 <= k < DECODED => Cell(s, k / 32, k % 32))
  }

  lemma CompactHolds(s: seq<Byte>, data: seq<Byte>)
    requires Holds(s, data)
    ensures Compact(s) == data
  {
    forall k | 0 <= k < DECODED
      ensures Compact(s)[k] == data[k]
    {
      assert Cell(s, k / 32, k % 32) == Datum(data, k / 32, k % 32);
    }
  }

  /** The possible answers: -1 and 0 leave the string alone, and 0 means it was a codeword. */
  lemma DecodeAnswers(c: seq<Byte>)
    requires |c| == 36
    ensures var (d, r) := DecodeString(c);
            r in {-1, 0, 1, 2} && (r <= 0 ==> d == c) && (r == 0 <==> IsCodeword(c))
  {
    hide Syndrome, Ecc, Iterate, Flip, ErrorValue, FirstRoot, SecondPosition, Xor;
    CodewordIff(c);
  }

  lemma PassCells(s: seq<Byte>, n: nat, r: nat, c: nat)
    requires |s| >= ENCODED && n <= 32 && r < 36 && c < 36
    ensures Cell(RowPass(s), r, c) == DecodeString(Row(s, r)).0[c]
    ensures Cell(ColPass(s, n), r, c) == if c < n then DecodeString(Col(s, c)).0[r] else Cell(s, r, c)
  {
    hide DecodeString;
  }

  // ----- the correction theorem

  /** d differs from c in at most one byte. */
  ghost predicate AtMostOneByte(c: seq<Byte>, d: seq<Byte>) {
    |c| == |d| && exists j :: 0 <= j < |c| && d == c[j := d[j]]
  }

  /** d differs from c in two bytes that the decoder can repair. */
  ghost predicate RepairablePair(c: seq<Byte>, d: seq<Byte>) {
    && |c| == 36
    && exists i: nat, e, j: nat, f :: Pair(c, d, i, e, j, f)
  }

  ghost predicate Pair(c: seq<Byte>, d: seq<Byte>, i: nat, e: Byte, j: nat, f: Byte) {
    && |c| == 36 && i < j < 36 && e != ZERO && f != ZERO && d == Flip(Flip(c, i, e), j, f)
    && LocatorFound(f, 35 - j, e, 35 - i) && Fits(f, 35 - j, 35 - i) && Fits(e, 35 - i, 35 - j)
  }

  lemma OneByteRepaired(c: seq<Byte>, d: seq<Byte>)
    requires IsCodeword(c) && AtMostOneByte(c, d)
    ensures DecodeString(d) == if d == c then (c, 0) else (c, 1)
  {
    hide Syndrome, DecodeString, Xor;
    DecodeAnswers(d);
    if d != c {
      var j :| 0 <= j < |c| && d == c[j := d[j]];
      var e := Xor(c[j], d[j]);
      XorEqual(c[j], d[j]);
      XorCancel(d[j], c[j]);
      assert d == Flip(c, j, e);
      SingleErrorCorrected(c, j, e);
    }
  }

  ghost predicate Repairable(c: seq<Byte>, d: seq<Byte>) {
    AtMostOneByte(c, d) || RepairablePair(c, d)
  }

  lemma RowRepaired(c: seq<Byte>, d: seq<Byte>)
    requires IsCodeword(c) && Repairable(c, d)
    ensures DecodeString(d).0 == c && DecodeString(d).1 >= 0
  {
    hide Syndrome, DecodeString, Xor, Flip, LocatorFound, Fits;
    if AtMostOneByte(c, d) {
      OneByteRepaired(c, d);
    } else {
      var i: nat, e, j: nat, f :| Pair(c, d, i, e, j, f);
      DoubleErrorCorrectedIff(c, i, e, j, f);
    }
  }

  /** One row may be damaged in any way, the others so that each is repairable: after the row pass
      every column has at most one wrong byte, and the column pass restores all of them. */
  lemma SectorCorrected(s: seq<Byte>, data: seq<Byte>, t: seq<Byte>, bad: nat)
    requires Encoded(s, data) && |t| >= ENCODED && bad < 36
    requires forall r :: 0 <= r < 36 && r != bad ==> Repairable(Row(s, r), Row(t, r))
    ensures forall c :: 0 <= c < 32 ==> !Uncorrectable(RowPass(t), c)
    ensures Compact(ColPass(RowPass(t), 32)) == data
  {
    hide Syndrome, DecodeString, Repairable, RowPass, ColPass, Row, Col, Compact;
    var m := RowPass(t);
    forall c | 0 <= c < 32
      ensures DecodeString(Col(m, c)).0 == Col(s, c) && !Uncorrectable(m, c)
    {
      assert AtMostOneByte(Col(s, c), Col(m, c)) by {
        forall r | 0 <= r < 36 && r != bad
          ensures Col(m, c)[r] == Col(s, c)[r]
        {
          RowRepaired(Row(s, r), Row(t, r));
          PassCells(t, 32, r, c);
          Cells(m, r, c); Cells(s, r, c);
        }
        assert Col(m, c) == Col(s, c)[bad := Col(m, c)[bad]];
      }
      OneByteRepaired(Col(s, c), Col(m, c));
    }
    var d := ColPass(m, 32);
    forall r, c | 0 <= r < 32 && 0 <= c < 32
      ensures Cell(d, r, c) == Datum(data, r, c)
    {
      PassCells(m, 32, r, c);
      Cells(s, r, c);
    }
    CompactHolds(d, data);
  }

  // ----- what the count says

  /** The places in which two strings differ. */
  function Wrong(c: seq<Byte>, d: seq<Byte>): (places: set<nat>)
    requires |c| == |d|
  {
    set i | 0 <= i < |c| && c[i] != d[i]
  }

  /** The wrong bytes in the first n rows. */
  function Damage(s: seq<Byte>, t: seq<Byte>, n: nat): (count: nat)
    requires |s| >= ENCODED && |t| >= ENCODED && n <= 36
  {
    if n == 0 then 0 else Damage(s, t, n - 1) + |Wrong(Row(s, n - 1), Row(t, n - 1))|
  }

  lemma RowAnswer(c: seq<Byte>, d: seq<Byte>)
    requires IsCodeword(c) && Repairable(c, d)
    ensures DecodeString(d) == (c, |Wrong(c, d)|)
  {
    hide Syndrome, DecodeString, Xor, Flip, LocatorFound, Fits;
    if c == d {
      assert d == c[0 := d[0]];
      OneByteRepaired(c, d);
      assert Wrong(c, d) == {};
    } else if AtMostOneByte(c, d) {
      OneByteRepaired(c, d);
      var j :| 0 <= j < |c| && d == c[j := d[j]];
      assert Wrong(c, d) == {j};
    } else {
      var i: nat, e, j: nat, f :| Pair(c, d, i, e, j, f);
      DoubleErrorCorrectedIff(c, i, e, j, f);
      PairWrong(c, i, e, j, f);
    }
  }

  lemma PairWrong(c: seq<Byte>, i: nat, e: Byte, j: nat, f: Byte)
    requires i < j < |c| && e != ZERO && f != ZERO
    ensures var d := Flip(Flip(c, i, e), j, f); |d| == |c| && Wrong(c, d) == {i, j} && |Wrong(c, d)| == 2
  {
    hide Xor;
    XorChanges(c[i], e);
    XorChanges(c[j], f);
    assert |{i, j}| == 2;
  }

  lemma XorChanges(a: Byte, e: Byte)
    requires e != ZERO
    ensures Xor(a, e) != a
  {
    hide Xor;
    if Xor(a, e) == a {
      XorCancel(e, a);
      XorEqual(a, a);
      XorComm(a, e);
    }
  }

  /** If every row can be repaired, the count of the corrections is the number of the wrong bytes: the
      columns have nothing left to correct. */
  lemma DamageCounted(s: seq<Byte>, data: seq<Byte>, t: seq<Byte>)
    requires Encoded(s, data) && |t| >= ENCODED
    requires forall r :: 0 <= r < 36 ==> Repairable(Row(s, r), Row(t, r))
    ensures RowCount(t, 36) + ColCount(RowPass(t), 32) == Damage(s, t, 36)
    ensures RowPass(t) == s[..ENCODED]
  {
    hide Syndrome, DecodeString, Repairable, RowPass, Row, Col;
    var m := RowPass(t);
    forall k | 0 <= k < ENCODED
      ensures m[k] == s[k]
    {
      RowAnswer(Row(s, k / 36), Row(t, k / 36));
      PassCells(t, 32, k / 36, k % 36);
      Cells(s, k / 36, k % 36);
    }
    assert m == s[..ENCODED];
    RowsCounted(s, t, 36);
    PrefixOnly(s);
    NothingCounted(m, 32);
  }

  lemma {:induction false} RowsCounted(s: seq<Byte>, t: seq<Byte>, n: nat)
    requires |s| >= ENCODED && |t| >= ENCODED && n <= 36
    requires forall r :: 0 <= r < n ==> IsCodeword(Row(s, r)) && Repairable(Row(s, r), Row(t, r))
    ensures RowCount(t, n) == Damage(s, t, n)
  {
    hide Syndrome, DecodeString, Repairable, Row;
    if n > 0 {
      RowsCounted(s, t, n - 1);
      RowAnswer(Row(s, n - 1), Row(t, n - 1));
    }
  }

  lemma {:induction false} NothingCounted(m: seq<Byte>, n: nat)
    requires |m| >= ENCODED && n <= 36 && forall c :: 0 <= c < n ==> IsCodeword(Col(m, c))
    ensures ColCount(m, n) == 0
  {
    hide Syndrome, DecodeString, Col;
    if n > 0 {
      NothingCounted(m, n - 1);
      DecodeAnswers(Col(m, n - 1));
    }
  }

  lemma Cells(s: seq<Byte>, r: nat, c: nat)
    requires |s| >= ENCODED && r < 36 && c < 36
    ensures Cell(s, r, c) == Row(s, r)[c] == Col(s, c)[r]
  {
  }

  // ----- rs_encode and rs_decode

  lemma RowFrame(s: seq<Byte>, t: seq<Byte>, i: nat)
    requires |s| >= ENCODED && i < 36 && OnlyStrand(s, t, 36 * i, 1)
    ensures |t| == |s| && t[ENCODED..] == s[ENCODED..]
    ensures forall r :: 0 <= r < 36 && r != i ==> Row(t, r) == Row(s, r)
  {
    forall k | 0 <= k < |s| && (k < 36 * i || 36 * i + 36 <= k)
      ensures t[k] == s[k]
    {
      assert !OnStrand(k, 36 * i, 1);
    }
  }

  lemma ColFrame(s: seq<Byte>, t: seq<Byte>, i: nat)
    requires |s| >= ENCODED && i < 36 && OnlyStrand(s, t, i, 36)
    ensures |t| == |s| && t[ENCODED..] == s[ENCODED..]
    ensures forall c :: 0 <= c < 36 && c != i ==> Col(t, c) == Col(s, c)
  {
    forall k | 0 <= k < |s| && (k % 36 != i || k >= ENCODED)
      ensures t[k] == s[k]
    {
      assert !OnStrand(k, i, 36);
    }
  }

  lemma ColumnEncoded(s: seq<Byte>, t: seq<Byte>, data: seq<Byte>, i: nat)
    requires Holds(s, data) && i < 32 && OnlyStrand(s, t, i, 36) && Col(t, i) == EncodeString(Col(s, i))
    requires forall c :: 0 <= c < i ==> IsCodeword(Col(s, c))
    ensures Holds(t, data) && t[ENCODED..] == s[ENCODED..]
    ensures forall c :: 0 <= c <= i ==> IsCodeword(Col(t, c))
  {
    hide EncodeString, IsCodeword, Col, OnlyStrand;
    ColFrame(s, t, i);
    EncodeIsCodeword(Col(s, i));
    forall r, c | 0 <= r < 32 && 0 <= c < 32
      ensures Cell(t, r, c) == Datum(data, r, c)
    {
      Cells(s, r, c); Cells(t, r, c);
      assert Cell(s, r, c) == Datum(data, r, c);
      if c == i {
        assert Col(t, c)[r] == Col(t, c)[..32][r] == Col(s, c)[..32][r] == Col(s, c)[r];
      }
    }
  }

  lemma RowEncoded(s: seq<Byte>, t: seq<Byte>, data: seq<Byte>, i: nat)
    requires Holds(s, data) && i < 36 && OnlyStrand(s, t, 36 * i, 1) && Row(t, i) == EncodeString(Row(s, i))
    requires forall r :: 0 <= r < i ==> IsCodeword(Row(s, r))
    requires forall c :: 0 <= c < 32 ==> IsCodeword(Col(s, c))
    ensures Holds(t, data) && t[ENCODED..] == s[ENCODED..]
    ensures forall r :: 0 <= r <= i ==> IsCodeword(Row(t, r))
    ensures forall c :: 0 <= c < 32 ==> IsCodeword(Col(t, c))
  {
    hide EncodeString, IsCodeword, Col, Row, OnlyStrand;
    RowFrame(s, t, i);
    EncodeIsCodeword(Row(s, i));
    forall r, c | 0 <= r < 36 && 0 <= c < 32
      ensures Cell(t, r, c) == Cell(s, r, c)
    {
      Cells(s, r, c); Cells(t, r, c);
      if r == i {
        assert Row(t, r)[c] == Row(t, r)[..32][c] == Row(s, r)[..32][c] == Row(s, r)[c];
      }
    }
    forall c | 0 <= c < 32
      ensures Col(t, c) == Col(s, c)
    {
      forall r | 0 <= r < 36
        ensures Col(t, c)[r] == Col(s, c)[r]
      {
        Cells(s, r, c); Cells(t, r, c);
      }
    }
  }

  /** memmove of one row from stride 32 to stride 36. */
  method Spread(s: array<Byte>, ghost data: seq<Byte>)
    requires s.Length >= ENCODED && data == s[..DECODED]
    modifies s
    ensures Holds(s[..], data) && s[ENCODED..] == old(s[ENCODED..])
  {
    for i := 32 downto 1
      invariant s[..32 * i] == data[..32 * i] && s[ENCODED..] == old(s[ENCODED..])
      invariant forall r, c :: i <= r < 32 && 0 <= c < 32 ==> Cell(s[..], r, c) == Datum(data, r, c)
    {
      ghost var before := s[..];
      forall k | 0 <= k < 32 {
        s[36 * i + k] := s[32 * i + k];
      }
      SpreadStep(before, s[..], data, i);
    }
    assert forall c :: 0 <= c < 32 ==> s[c] == s[..32][c] == data[..32][c];
  }

  lemma SpreadStep(s: seq<Byte>, t: seq<Byte>, data: seq<Byte>, i: nat)
    requires |s| == |t| >= ENCODED && |data| == DECODED && 1 <= i < 32
    requires s[..32 * i + 32] == data[..32 * i + 32]
    requires forall k :: 0 <= k < |s| && !(36 * i <= k < 36 * i + 32) ==> t[k] == s[k]
    requires t[36 * i..36 * i + 32] == s[32 * i..32 * i + 32]
    requires forall r, c :: i < r < 32 && 0 <= c < 32 ==> Cell(s, r, c) == Datum(data, r, c)
    ensures t[..32 * i] == data[..32 * i] && t[ENCODED..] == s[ENCODED..]
    ensures forall r, c :: i <= r < 32 && 0 <= c < 32 ==> Cell(t, r, c) == Datum(data, r, c)
  {
    forall k | 0 <= k < 32 * i + 32
      ensures s[k] == data[k]
    {
      assert s[k] == s[..32 * i + 32][k] == data[..32 * i + 32][k];
    }
    forall r, c | i <= r < 32 && 0 <= c < 32
      ensures Cell(t, r, c) == Datum(data, r, c)
    {
      if r > i {
        assert Cell(s, r, c) == Datum(data, r, c);
      } else {
        assert t[36 * i + c] == t[36 * i..36 * i + 32][c] == s[32 * i..32 * i + 32][c] == s[32 * i + c] ==
                   data[32 * i + c];
      }
    }
  }

  /** rs_encode: the sector becomes the product codeword of its data. */
  method Encode(s: array<Byte>)
    requires s.Length >= ENCODED
    modifies s
    ensures Encoded(s[..], old(s[..DECODED]))
    ensures s[ENCODED..] == old(s[ENCODED..])
  {
    hide EncodeString, IsCodeword, Col, Row, OnlyStrand, Holds;
    ghost var data := s[..DECODED];
    Spread(s, data);
    HoldsSize(s[..], data);
    for i := 0 to 32
      invariant Holds(s[..], data) && s[ENCODED..] == old(s[ENCODED..])
      invariant forall c :: 0 <= c < i ==> IsCodeword(Col(s[..], c))
    {
      ghost var before := s[..];
      EncodeStrand(s, i, 36);
      StrandIsCol(before, i); StrandIsCol(s[..], i);
      ColumnEncoded(before, s[..], data, i);
    }
    for i := 0 to 36
      invariant Holds(s[..], data) && s[ENCODED..] == old(s[ENCODED..])
      invariant forall r :: 0 <= r < i ==> IsCodeword(Row(s[..], r))
      invariant forall c :: 0 <= c < 32 ==> IsCodeword(Col(s[..], c))
    {
      ghost var before := s[..];
      EncodeStrand(s, 36 * i, 1);
      StrandIsRow(before, i); StrandIsRow(s[..], i);
      RowEncoded(before, s[..], data, i);
    }
    ParityColumns(s[..]);
  }

  lemma HoldsSize(s: seq<Byte>, data: seq<Byte>)
    requires Holds(s, data)
    ensures |s| >= ENCODED && |data| == DECODED
  {
  }

  lemma StrandIsCol(s: seq<Byte>, c: nat)
    requires |s| >= ENCODED && c < 36
    ensures Strand(s, c, 36) == Col(s, c)
  {
  }

  lemma StrandIsRow(s: seq<Byte>, r: nat)
    requires |s| >= ENCODED && r < 36
    ensures Strand(s, 36 * r, 1) == Row(s, r)
  {
  }

  /** What the row loop has done after i rows. */
  ghost predicate RowsDone(s: seq<Byte>, t: seq<Byte>, i: nat) {
    && |s| == |t| >= ENCODED && i <= 36 && t[ENCODED..] == s[ENCODED..]
    && (forall r :: 0 <= r < i ==> Row(t, r) == DecodeString(Row(s, r)).0)
    && (forall r :: i <= r < 36 ==> Row(t, r) == Row(s, r))
  }

  ghost predicate ColsDone(s: seq<Byte>, t: seq<Byte>, i: nat) {
    && |s| == |t| >= ENCODED && i <= 32 && t[ENCODED..] == s[ENCODED..]
    && (forall c :: 0 <= c < i ==> Col(t, c) == DecodeString(Col(s, c)).0)
    && (forall c :: i <= c < 36 ==> Col(t, c) == Col(s, c))
  }

  lemma RowStep(s: seq<Byte>, t: seq<Byte>, u: seq<Byte>, i: nat)
    requires RowsDone(s, t, i) && i < 36 && OnlyStrand(t, u, 36 * i, 1) && Row(u, i) == DecodeString(Row(t, i)).0
    ensures RowsDone(s, u, i + 1)
  {
    hide DecodeString, OnlyStrand, Row;
    RowFrame(t, u, i);
  }

  lemma ColStep(s: seq<Byte>, t: seq<Byte>, u: seq<Byte>, i: nat)
    requires ColsDone(s, t, i) && i < 32 && OnlyStrand(t, u, i, 36) && Col(u, i) == DecodeString(Col(t, i)).0
    ensures ColsDone(s, u, i + 1)
  {
    hide DecodeString, OnlyStrand, Col;
    ColFrame(t, u, i);
  }

  lemma RowsDoneIsRowPass(s: seq<Byte>, t: seq<Byte>)
    requires RowsDone(s, t, 36)
    ensures t[..ENCODED] == RowPass(s)
  {
    hide DecodeString, Row;
    forall k | 0 <= k < ENCODED
      ensures t[k] == RowPass(s)[k]
    {
      Cells(t, k / 36, k % 36);
    }
  }

  lemma ColsDoneIsColPass(s: seq<Byte>, t: seq<Byte>, n: nat)
    requires ColsDone(s, t, n)
    ensures t[..ENCODED] == ColPass(s, n)
  {
    hide DecodeString, Col;
    forall k | 0 <= k < ENCODED
      ensures t[k] == ColPass(s, n)[k]
    {
      Cells(t, k / 36, k % 36); Cells(s, k / 36, k % 36);
    }
  }

  /** The passes look at the first 1296 bytes only. */
  lemma PrefixOnly(s: seq<Byte>)
    requires |s| >= ENCODED
    ensures forall r :: 0 <= r < 36 ==> Row(s, r) == Row(s[..ENCODED], r)
    ensures forall c :: 0 <= c < 36 ==> Col(s, c) == Col(s[..ENCODED], c)
  {
  }

  lemma {:induction false} CountPrefix(s: seq<Byte>, n: nat)
    requires |s| >= ENCODED && n <= 36
    ensures ColCount(s, n) == ColCount(s[..ENCODED], n)
  {
    hide DecodeString, Col;
    PrefixOnly(s);
    if n > 0 {
      CountPrefix(s, n - 1);
    }
  }

  lemma GatherStep(s0: seq<Byte>, s: seq<Byte>, t: seq<Byte>, i: nat)
    requires |s0| == |s| == |t| >= ENCODED && 1 <= i < 32
    requires forall k :: 0 <= k < |s| && !(32 * i <= k < 32 * i + 32) ==> t[k] == s[k]
    requires t[32 * i..32 * i + 32] == s[36 * i..36 * i + 32] && s[36 * i..] == s0[36 * i..]
    requires forall r, c :: 0 <= r < i && 0 <= c < 32 ==> Datum(s, r, c) == Cell(s0, r, c)
    ensures t[36 * i + 36..] == s0[36 * i + 36..]
    ensures forall r, c :: 0 <= r <= i && 0 <= c < 32 ==> Datum(t, r, c) == Cell(s0, r, c)
  {
    forall k | 36 * i <= k < |s|
      ensures s[k] == s0[k]
    {
      assert s[k] == s[36 * i..][k - 36 * i] == s0[36 * i..][k - 36 * i];
    }
    forall r, c | 0 <= r <= i && 0 <= c < 32
      ensures Datum(t, r, c) == Cell(s0, r, c)
    {
      if r < i {
        assert Datum(s, r, c) == Cell(s0, r, c);
      } else {
        assert t[32 * i + c] == t[32 * i..32 * i + 32][c] == s[36 * i..36 * i + 32][c] == s[36 * i + c];
      }
    }
  }

  /** memmove of every row from stride 36 back to stride 32. */
  method Gather(s: array<Byte>)
    requires s.Length >= ENCODED
    modifies s
    ensures s[..DECODED] == Compact(old(s[..]))
  {
    ghost var s0 := s[..];
    for i := 1 to 32
      invariant s[36 * i..] == s0[36 * i..]
      invariant forall r, c :: 0 <= r < i && 0 <= c < 32 ==> Datum(s[..], r, c) == Cell(s0, r, c)
    {
      ghost var before := s[..];
      forall k | 0 <= k < 32 {
        s[32 * i + k] := s[36 * i + k];
      }
      GatherStep(s0, before, s[..], i);
    }
    GatherDone(s0, s[..]);
  }

  lemma GatherDone(s0: seq<Byte>, s: seq<Byte>)
    requires |s0| >= ENCODED && |s| >= ENCODED
    requires forall r, c :: 0 <= r < 32 && 0 <= c < 32 ==> Datum(s, r, c) == Cell(s0, r, c)
    ensures s[..DECODED] == Compact(s0)
  {
    forall k | 0 <= k < DECODED
      ensures s[k] == Compact(s0)[k]
    {
      assert Datum(s, k / 32, k % 32) == Cell(s0, k / 32, k % 32);
    }
  }

  /** rs_decode: rows first, failures tolerated; then the data columns, where a failure ends the
      attempt; then the data is gathered. */
  method Decode(s: array<Byte>) returns (count: int)
    requires s.Length >= ENCODED
    modifies s
    ensures var m := RowPass(old(s[..]));
            if exists c :: 0 <= c < 32 && Uncorrectable(m, c)
            then && count == -1
                 && exists n :: && 0 <= n < 32 && Uncorrectable(m, n) && s[..ENCODED] == ColPass(m, n)
                                && forall c :: 0 <= c < n ==> !Uncorrectable(m, c)
            else count == RowCount(old(s[..]), 36) + ColCount(m, 32) && s[..DECODED] == Compact(ColPass(m, 32))
    ensures count >= -1
  {
    hide DecodeString, Row, Col, OnlyStrand, RowPass, ColPass, Compact;
    ghost var s0 := s[..];
    count := 0;
    for i := 0 to 36
      invariant RowsDone(s0, s[..], i) && count == RowCount(s0, i)
    {
      ghost var before := s[..];
      var e := DecodeStrand(s, 36 * i, 1);
      StrandIsRow(before, i); StrandIsRow(s[..], i);
      RowStep(s0, before, s[..], i);
      DecodeAnswers(Row(s0, i));
      if e != -1 {
        count := count + e;
      }
    }
    ghost var s1, m := s[..], RowPass(s0);
    RowsDoneIsRowPass(s0, s1);
    PrefixOnly(s1);
    for i := 0 to 32
      invariant ColsDone(s1, s[..], i) && count == RowCount(s0, 36) + ColCount(s1, i)
      invariant forall c :: 0 <= c < i ==> !Uncorrectable(m, c)
    {
      ghost var before := s[..];
      var e := DecodeStrand(s, i, 36);
      StrandIsCol(before, i); StrandIsCol(s[..], i);
      ColStep(s1, before, s[..], i);
      DecodeAnswers(Col(s1, i));
      if e == -1 {
        assert Uncorrectable(m, i);
        ColsDoneIsColPass(s1, before, i);
        SamePass(s1, m, i);
        return -1;
      }
      count := count + e;
    }
    CountPrefix(s1, 32);
    ColsDoneIsColPass(s1, s[..], 32);
    SameColPass(s1, m, s[..]);
    Gather(s);
  }

  lemma SamePass(s: seq<Byte>, m: seq<Byte>, n: nat)
    requires |s| >= ENCODED && m == s[..ENCODED] && n <= 32
    ensures ColPass(s, n) == ColPass(m, n)
  {
    hide DecodeString, Col;
    PrefixOnly(s);
  }

  lemma SameColPass(s: seq<Byte>, m: seq<Byte>, t: seq<Byte>)
    requires |s| >= ENCODED && m == s[..ENCODED] && |t| >= ENCODED && t[..ENCODED] == ColPass(s, 32)
    ensures Compact(t) == Compact(ColPass(m, 32))
  {
    hide DecodeString, Col;
    SamePass(s, m, 32);
    forall k | 0 <= k < DECODED
      ensures Cell(t, k / 32, k % 32) == Cell(t[..ENCODED], k / 32, k % 32)
    {
    }
  }
}
