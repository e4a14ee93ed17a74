/** What the tables hold: the S-box is the one section 5.1.1 of FIPS 197 defines, the two boxes
    are inverse to each other, every multiplication table multiplies, and each entry of the
    four round tables is a rotated MixColumns column of an S-box output. */
module AesTableFacts {
  import opened Gf256
  import opened AesTables

  // Sixteen bytes at a time

  function XtimeRow(r: bv128): bv128 {
    var carry := (r >> 7) & 0x01010101010101010101010101010101;
    ((r << 1) & 0xfefefefefefefefefefefefefefefefe) ^ carry ^ (carry << 1) ^ (carry << 3) ^ (carry << 4)
  }

  /** The bytes 16h, 16h + 1, .., 16h + 15. */
  function IndexRow(h: bv8): bv128 {
    0x000102030405060708090a0b0c0d0e0f ^ (h as bv128 * 0x10101010101010101010101010101010)
  }

  function PlusRows(a: bv128, b: bv128): bv128 { a ^ b }

  lemma PickPlus(a: bv128, b: bv128, k: bv8)
    ensures Pick(PlusRows(a, b), k) == Plus(Pick(a, k), Pick(b, k))
  {
    PickXor(a, b, k);
  }

  lemma PickXor(a: bv128, b: bv128, k: bv8)
    ensures Pick(a ^ b, k) == Pick(a, k) ^ Pick(b, k)
  {
  }

  lemma PickXtime(a: bv128, k: bv8)
    ensures Pick(XtimeRow(a), k) == Xtime(Pick(a, k))
  {
  }

  lemma PickIndex(x: bv8)
    ensures Pick(IndexRow(x >> 4), x) == x
  {
  }

  // The tables the forward rounds use

  lemma Xtime2SboxRows(h: bv8)
    requires h < 16
    ensures Xtime2SboxRow(h) == XtimeRow(SboxRow(h))
  {
    match h
    case 0 => assert Xtime2SboxRow(0) == XtimeRow(SboxRow(0));
    case 1 => assert Xtime2SboxRow(1) == XtimeRow(SboxRow(1));
    case 2 => assert Xtime2SboxRow(2) == XtimeRow(SboxRow(2));
    case 3 => assert Xtime2SboxRow(3) == XtimeRow(SboxRow(3));
    case 4 => assert Xtime2SboxRow(4) == XtimeRow(SboxRow(4));
    case 5 => assert Xtime2SboxRow(5) == XtimeRow(SboxRow(5));
    case 6 => assert Xtime2SboxRow(6) == XtimeRow(SboxRow(6));
    case 7 => assert Xtime2SboxRow(7) == XtimeRow(SboxRow(7));
    case 8 => assert Xtime2SboxRow(8) == XtimeRow(SboxRow(8));
    case 9 => assert Xtime2SboxRow(9) == XtimeRow(SboxRow(9));
    case 10 => assert Xtime2SboxRow(10) == XtimeRow(SboxRow(10));
    case 11 => assert Xtime2SboxRow(11) == XtimeRow(SboxRow(11));
    case 12 => assert Xtime2SboxRow(12) == XtimeRow(SboxRow(12));
    case 13 => assert Xtime2SboxRow(13) == XtimeRow(SboxRow(13));
    case 14 => assert Xtime2SboxRow(14) == XtimeRow(SboxRow(14));
    case _ => assert Xtime2SboxRow(15) == XtimeRow(SboxRow(15));
  }

  lemma Xtime3SboxRows(h: bv8)
    requires h < 16
    ensures Xtime3SboxRow(h) == PlusRows(Xtime2SboxRow(h), SboxRow(h))
  {
    match h
    case 0 => assert Xtime3SboxRow(0) == PlusRows(Xtime2SboxRow(0), SboxRow(0));
    case 1 => assert Xtime3SboxRow(1) == PlusRows(Xtime2SboxRow(1), SboxRow(1));
    case 2 => assert Xtime3SboxRow(2) == PlusRows(Xtime2SboxRow(2), SboxRow(2));
    case 3 => assert Xtime3SboxRow(3) == PlusRows(Xtime2SboxRow(3), SboxRow(3));
    case 4 => assert Xtime3SboxRow(4) == PlusRows(Xtime2SboxRow(4), SboxRow(4));
    case 5 => assert Xtime3SboxRow(5) == PlusRows(Xtime2SboxRow(5), SboxRow(5));
    case 6 => assert Xtime3SboxRow(6) == PlusRows(Xtime2SboxRow(6), SboxRow(6));
    case 7 => assert Xtime3SboxRow(7) == PlusRows(Xtime2SboxRow(7), SboxRow(7));
    case 8 => assert Xtime3SboxRow(8) == PlusRows(Xtime2SboxRow(8), SboxRow(8));
    case 9 => assert Xtime3SboxRow(9) == PlusRows(Xtime2SboxRow(9), SboxRow(9));
    case 10 => assert Xtime3SboxRow(10) == PlusRows(Xtime2SboxRow(10), SboxRow(10));
    case 11 => assert Xtime3SboxRow(11) == PlusRows(Xtime2SboxRow(11), SboxRow(11));
    case 12 => assert Xtime3SboxRow(12) == PlusRows(Xtime2SboxRow(12), SboxRow(12));
    case 13 => assert Xtime3SboxRow(13) == PlusRows(Xtime2SboxRow(13), SboxRow(13));
    case 14 => assert Xtime3SboxRow(14) == PlusRows(Xtime2SboxRow(14), SboxRow(14));
    case _ => assert Xtime3SboxRow(15) == PlusRows(Xtime2SboxRow(15), SboxRow(15));
  }

  lemma Xtime9Rows(h: bv8)
    requires h < 16
    ensures Xtime9Row(h) == PlusRows(XtimeRow(XtimeRow(XtimeRow(IndexRow(h)))), IndexRow(h))
  {
  }

  lemma XtimeBRows(h: bv8)
    requires h < 16
    ensures XtimeBRow(h) == PlusRows(PlusRows(XtimeRow(XtimeRow(XtimeRow(IndexRow(h)))), XtimeRow(IndexRow(h))), IndexRow(h))
  {
  }

  lemma XtimeDRows(h: bv8)
    requires h < 16
    ensures XtimeDRow(h) == PlusRows(PlusRows(XtimeRow(XtimeRow(XtimeRow(IndexRow(h)))), XtimeRow(XtimeRow(IndexRow(h)))), IndexRow(h))
  {
  }

  lemma XtimeERows(h: bv8)
    requires h < 16
    ensures XtimeERow(h) == PlusRows(PlusRows(XtimeRow(XtimeRow(XtimeRow(IndexRow(h)))), XtimeRow(XtimeRow(IndexRow(h)))), XtimeRow(IndexRow(h)))
  {
  }

  /** Four entries of the first round table: for each byte s of `quad`, kept in the top byte of
      its word, the bytes 2s, s, s, 3s. */
  function Columns(quad: bv128): bv128 {
    var double := XtimeRow(quad);
    double ^ (quad >> 8) ^ (quad >> 16) ^ (quad >> 24) ^ (double >> 24)
  }

  function Spread(w: bv128): bv128 {
    ((w & 0xff000000) << 96) | ((w & 0x00ff0000) << 72) | ((w & 0x0000ff00) << 48) | ((w & 0x000000ff) << 24)
  }

  function ColumnRows(r: bv128): Rows {
    Rows(Columns(Spread(r >> 96)), Columns(Spread(r >> 64)), Columns(Spread(r >> 32)), Columns(Spread(r)))
  }

  function RotateWords(r: bv128): bv128 {
    ((r >> 8) & 0x00ffffff_00ffffff_00ffffff_00ffffff) | ((r << 24) & 0xff000000_ff000000_ff000000_ff000000)
  }

  function RotateRows(r: Rows): Rows {
    Rows(RotateWords(r.r0), RotateWords(r.r1), RotateWords(r.r2), RotateWords(r.r3))
  }

  lemma TRows0Rows(h: bv8)
    requires h < 16
    ensures TRows0(h) == ColumnRows(SboxRow(h))
  {
    match h
    case 0 => assert TRows0(0) == ColumnRows(SboxRow(0));
    case 1 => assert TRows0(1) == ColumnRows(SboxRow(1));
    case 2 => assert TRows0(2) == ColumnRows(SboxRow(2));
    case 3 => assert TRows0(3) == ColumnRows(SboxRow(3));
    case 4 => assert TRows0(4) == ColumnRows(SboxRow(4));
    case 5 => assert TRows0(5) == ColumnRows(SboxRow(5));
    case 6 => assert TRows0(6) == ColumnRows(SboxRow(6));
    case 7 => assert TRows0(7) == ColumnRows(SboxRow(7));
    case 8 => assert TRows0(8) == ColumnRows(SboxRow(8));
    case 9 => assert TRows0(9) == ColumnRows(SboxRow(9));
    case 10 => assert TRows0(10) == ColumnRows(SboxRow(10));
    case 11 => assert TRows0(11) == ColumnRows(SboxRow(11));
    case 12 => assert TRows0(12) == ColumnRows(SboxRow(12));
    case 13 => assert TRows0(13) == ColumnRows(SboxRow(13));
    case 14 => assert TRows0(14) == ColumnRows(SboxRow(14));
    case _ => assert TRows0(15) == ColumnRows(SboxRow(15));
  }

  lemma TRows1Rows(h: bv8)
    requires h < 16
    ensures TRows1(h) == RotateRows(TRows0(h))
  {
    match h
    case 0 => assert TRows1(0) == RotateRows(TRows0(0));
    case 1 => assert TRows1(1) == RotateRows(TRows0(1));
    case 2 => assert TRows1(2) == RotateRows(TRows0(2));
    case 3 => assert TRows1(3) == RotateRows(TRows0(3));
    case 4 => assert TRows1(4) == RotateRows(TRows0(4));
    case 5 => assert TRows1(5) == RotateRows(TRows0(5));
    case 6 => assert TRows1(6) == RotateRows(TRows0(6));
    case 7 => assert TRows1(7) == RotateRows(TRows0(7));
    case 8 => assert TRows1(8) == RotateRows(TRows0(8));
    case 9 => assert TRows1(9) == RotateRows(TRows0(9));
    case 10 => assert TRows1(10) == RotateRows(TRows0(10));
    case 11 => assert TRows1(11) == RotateRows(TRows0(11));
    case 12 => assert TRows1(12) == RotateRows(TRows0(12));
    case 13 => assert TRows1(13) == RotateRows(TRows0(13));
    case 14 => assert TRows1(14) == RotateRows(TRows0(14));
    case _ => assert TRows1(15) == RotateRows(TRows0(15));
  }

  lemma TRows2Rows(h: bv8)
    requires h < 16
    ensures TRows2(h) == RotateRows(TRows1(h))
  {
    match h
    case 0 => assert TRows2(0) == RotateRows(TRows1(0));
    case 1 => assert TRows2(1) == RotateRows(TRows1(1));
    case 2 => assert TRows2(2) == RotateRows(TRows1(2));
    case 3 => assert TRows2(3) == RotateRows(TRows1(3));
    case 4 => assert TRows2(4) == RotateRows(TRows1(4));
    case 5 => assert TRows2(5) == RotateRows(TRows1(5));
    case 6 => assert TRows2(6) == RotateRows(TRows1(6));
    case 7 => assert TRows2(7) == RotateRows(TRows1(7));
    case 8 => assert TRows2(8) == RotateRows(TRows1(8));
    case 9 => assert TRows2(9) == RotateRows(TRows1(9));
    case 10 => assert TRows2(10) == RotateRows(TRows1(10));
    case 11 => assert TRows2(11) == RotateRows(TRows1(11));
    case 12 => assert TRows2(12) == RotateRows(TRows1(12));
    case 13 => assert TRows2(13) == RotateRows(TRows1(13));
    case 14 => assert TRows2(14) == RotateRows(TRows1(14));
    case _ => assert TRows2(15) == RotateRows(TRows1(15));
  }

  lemma TRows3Rows(h: bv8)
    requires h < 16
    ensures TRows3(h) == RotateRows(TRows2(h))
  {
    match h
    case 0 => assert TRows3(0) == RotateRows(TRows2(0));
    case 1 => assert TRows3(1) == RotateRows(TRows2(1));
    case 2 => assert TRows3(2) == RotateRows(TRows2(2));
    case 3 => assert TRows3(3) == RotateRows(TRows2(3));
    case 4 => assert TRows3(4) == RotateRows(TRows2(4));
    case 5 => assert TRows3(5) == RotateRows(TRows2(5));
    case 6 => assert TRows3(6) == RotateRows(TRows2(6));
    case 7 => assert TRows3(7) == RotateRows(TRows2(7));
    case 8 => assert TRows3(8) == RotateRows(TRows2(8));
    case 9 => assert TRows3(9) == RotateRows(TRows2(9));
    case 10 => assert TRows3(10) == RotateRows(TRows2(10));
    case 11 => assert TRows3(11) == RotateRows(TRows2(11));
    case 12 => assert TRows3(12) == RotateRows(TRows2(12));
    case 13 => assert TRows3(13) == RotateRows(TRows2(13));
    case 14 => assert TRows3(14) == RotateRows(TRows2(14));
    case _ => assert TRows3(15) == RotateRows(TRows2(15));
  }

  /** Four bytes as a word of memory. */
  function Packed(b0: bv8, b1: bv8, b2: bv8, b3: bv8): bv32 {
    (b0 as bv32 << 24) | (b1 as bv32 << 16) | (b2 as bv32 << 8) | b3 as bv32
  }

  function PackedColumn(s: bv8): bv32 {
    Packed(Xtime(s), s, s, Plus(Xtime(s), s))
  }

  lemma PickColumns(w: bv128, k: bv8)
    ensures PickWord(Columns(Spread(w)), k) == PackedColumn(Pick(w, 12 + (k & 3)))
  {
  }

  function RotateWord(w: bv32): bv32 {
    (w >> 8) | (w << 24)
  }

  lemma PickRotated(r: Rows, k: bv8)
    ensures PickEntry(RotateRows(r), k) == RotateWord(PickEntry(r, k))
  {
  }

  lemma RotateWordBytes(a: bv8, b: bv8, c: bv8, d: bv8)
    ensures RotateWord(Packed(a, b, c, d)) == Packed(d, a, b, c)
  {
  }

  // The two S-boxes, row by row

  lemma InvSboxRow0(x: bv8) requires x >> 4 == 0 ensures InvSbox(Sbox(x)) == x { }
  lemma InvSboxRow1(x: bv8) requires x >> 4 == 1 ensures InvSbox(Sbox(x)) == x { }
  lemma InvSboxRow2(x: bv8) requires x >> 4 == 2 ensures InvSbox(Sbox(x)) == x { }
  lemma InvSboxRow3(x: bv8) requires x >> 4 == 3 ensures InvSbox(Sbox(x)) == x { }
  lemma InvSboxRow4(x: bv8) requires x >> 4 == 4 ensures InvSbox(Sbox(x)) == x { }
  lemma InvSboxRow5(x: bv8) requires x >> 4 == 5 ensures InvSbox(Sbox(x)) == x { }
  lemma InvSboxRow6(x: bv8) requires x >> 4 == 6 ensures InvSbox(Sbox(x)) == x { }
  lemma InvSboxRow7(x: bv8) requires x >> 4 == 7 ensures InvSbox(Sbox(x)) == x { }
  lemma InvSboxRow8(x: bv8) requires x >> 4 == 8 ensures InvSbox(Sbox(x)) == x { }
  lemma InvSboxRow9(x: bv8) requires x >> 4 == 9 ensures InvSbox(Sbox(x)) == x { }
  lemma InvSboxRow10(x: bv8) requires x >> 4 == 10 ensures InvSbox(Sbox(x)) == x { }
  lemma InvSboxRow11(x: bv8) requires x >> 4 == 11 ensures InvSbox(Sbox(x)) == x { }
  lemma InvSboxRow12(x: bv8) requires x >> 4 == 12 ensures InvSbox(Sbox(x)) == x { }
  lemma InvSboxRow13(x: bv8) requires x >> 4 == 13 ensures InvSbox(Sbox(x)) == x { }
  lemma InvSboxRow14(x: bv8) requires x >> 4 == 14 ensures InvSbox(Sbox(x)) == x { }
  lemma InvSboxRow15(x: bv8) requires x >> 4 == 15 ensures InvSbox(Sbox(x)) == x { }
  lemma InvSboxRow0'(x: bv8) requires x >> 4 == 0 ensures Sbox(InvSbox(x)) == x { }
  lemma InvSboxRow1'(x: bv8) requires x >> 4 == 1 ensures Sbox(InvSbox(x)) == x { }
  lemma InvSboxRow2'(x: bv8) requires x >> 4 == 2 ensures Sbox(InvSbox(x)) == x { }
  lemma InvSboxRow3'(x: bv8) requires x >> 4 == 3 ensures Sbox(InvSbox(x)) == x { }
  lemma InvSboxRow4'(x: bv8) requires x >> 4 == 4 ensures Sbox(InvSbox(x)) == x { }
  lemma InvSboxRow5'(x: bv8) requires x >> 4 == 5 ensures Sbox(InvSbox(x)) == x { }
  lemma InvSboxRow6'(x: bv8) requires x >> 4 == 6 ensures Sbox(InvSbox(x)) == x { }
  lemma InvSboxRow7'(x: bv8) requires x >> 4 == 7 ensures Sbox(InvSbox(x)) == x { }
  lemma InvSboxRow8'(x: bv8) requires x >> 4 == 8 ensures Sbox(InvSbox(x)) == x { }
  lemma InvSboxRow9'(x: bv8) requires x >> 4 == 9 ensures Sbox(InvSbox(x)) == x { }
  lemma InvSboxRow10'(x: bv8) requires x >> 4 == 10 ensures Sbox(InvSbox(x)) == x { }
  lemma InvSboxRow11'(x: bv8) requires x >> 4 == 11 ensures Sbox(InvSbox(x)) == x { }
  lemma InvSboxRow12'(x: bv8) requires x >> 4 == 12 ensures Sbox(InvSbox(x)) == x { }
  lemma InvSboxRow13'(x: bv8) requires x >> 4 == 13 ensures Sbox(InvSbox(x)) == x { }
  lemma InvSboxRow14'(x: bv8) requires x >> 4 == 14 ensures Sbox(InvSbox(x)) == x { }
  lemma InvSboxRow15'(x: bv8) requires x >> 4 == 15 ensures Sbox(InvSbox(x)) == x { }

  lemma InvSboxAfterSbox(x: bv8)
    ensures InvSbox(Sbox(x)) == x
  {
    match x >> 4
    case 0 => InvSboxRow0(x);
    case 1 => InvSboxRow1(x);
    case 2 => InvSboxRow2(x);
    case 3 => InvSboxRow3(x);
    case 4 => InvSboxRow4(x);
    case 5 => InvSboxRow5(x);
    case 6 => InvSboxRow6(x);
    case 7 => InvSboxRow7(x);
    case 8 => InvSboxRow8(x);
    case 9 => InvSboxRow9(x);
    case 10 => InvSboxRow10(x);
    case 11 => InvSboxRow11(x);
    case 12 => InvSboxRow12(x);
    case 13 => InvSboxRow13(x);
    case 14 => InvSboxRow14(x);
    case _ => InvSboxRow15(x);
  }

  lemma SboxAfterInvSbox(x: bv8)
    ensures Sbox(InvSbox(x)) == x
  {
    match x >> 4
    case 0 => InvSboxRow0'(x);
    case 1 => InvSboxRow1'(x);
    case 2 => InvSboxRow2'(x);
    case 3 => InvSboxRow3'(x);
    case 4 => InvSboxRow4'(x);
    case 5 => InvSboxRow5'(x);
    case 6 => InvSboxRow6'(x);
    case 7 => InvSboxRow7'(x);
    case 8 => InvSboxRow8'(x);
    case 9 => InvSboxRow9'(x);
    case 10 => InvSboxRow10'(x);
    case 11 => InvSboxRow11'(x);
    case 12 => InvSboxRow12'(x);
    case 13 => InvSboxRow13'(x);
    case 14 => InvSboxRow14'(x);
    case _ => InvSboxRow15'(x);
  }

  // The tables, entry by entry

  lemma Xtime2SboxIs(x: bv8)
    ensures Xtime2Sbox(x) == Xtime(Sbox(x))
  {
    Xtime2SboxRows(x >> 4);
    PickXtime(SboxRow(x >> 4), x);
  }

  lemma Xtime3SboxIs(x: bv8)
    ensures Xtime3Sbox(x) == Plus(Xtime(Sbox(x)), Sbox(x))
  {
    Xtime3SboxRows(x >> 4);
    PickPlus(Xtime2SboxRow(x >> 4), SboxRow(x >> 4), x);
    Xtime2SboxIs(x);
  }

  lemma PickPowers(x: bv8)
    ensures Pick(XtimeRow(IndexRow(x >> 4)), x) == Xtime(x)
    ensures Pick(XtimeRow(XtimeRow(IndexRow(x >> 4))), x) == Xtime(Xtime(x))
    ensures Pick(XtimeRow(XtimeRow(XtimeRow(IndexRow(x >> 4)))), x) == Xtime(Xtime(Xtime(x)))
  {
    var r := IndexRow(x >> 4);
    PickIndex(x);
    PickXtime(r, x);
    PickXtime(XtimeRow(r), x);
    PickXtime(XtimeRow(XtimeRow(r)), x);
  }

  lemma Xtime9Is(x: bv8)
    ensures Xtime9(x) == Plus(Xtime(Xtime(Xtime(x))), x)
  {
    var r := IndexRow(x >> 4);
    Xtime9Rows(x >> 4);
    PickIndex(x);
    PickPowers(x);
    PickPlus(XtimeRow(XtimeRow(XtimeRow(r))), r, x);
  }

  lemma XtimeBIs(x: bv8)
    ensures XtimeB(x) == Plus(Plus(Xtime(Xtime(Xtime(x))), Xtime(x)), x)
  {
    var r := IndexRow(x >> 4);
    XtimeBRows(x >> 4);
    PickIndex(x);
    PickPowers(x);
    PickPlus(PlusRows(XtimeRow(XtimeRow(XtimeRow(r))), XtimeRow(r)), r, x);
    PickPlus(XtimeRow(XtimeRow(XtimeRow(r))), XtimeRow(r), x);
  }

  lemma XtimeDIs(x: bv8)
    ensures XtimeD(x) == Plus(Plus(Xtime(Xtime(Xtime(x))), Xtime(Xtime(x))), x)
  {
    var r := IndexRow(x >> 4);
    XtimeDRows(x >> 4);
    PickIndex(x);
    PickPowers(x);
    PickPlus(PlusRows(XtimeRow(XtimeRow(XtimeRow(r))), XtimeRow(XtimeRow(r))), r, x);
    PickPlus(XtimeRow(XtimeRow(XtimeRow(r))), XtimeRow(XtimeRow(r)), x);
  }

  lemma XtimeEIs(x: bv8)
    ensures XtimeE(x) == Plus(Plus(Xtime(Xtime(Xtime(x))), Xtime(Xtime(x))), Xtime(x))
  {
    var r := IndexRow(x >> 4);
    XtimeERows(x >> 4);
    PickPowers(x);
    PickPlus(PlusRows(XtimeRow(XtimeRow(XtimeRow(r))), XtimeRow(XtimeRow(r))), XtimeRow(r), x);
    PickPlus(XtimeRow(XtimeRow(XtimeRow(r))), XtimeRow(XtimeRow(r)), x);
  }

  lemma PickQuarter0(r: bv128, x: bv8)
    requires (x >> 2) & 3 == 0
    ensures Pick(r >> 96, 12 + (x & 3)) == Pick(r, x)
  {
  }

  lemma PickQuarter1(r: bv128, x: bv8)
    requires (x >> 2) & 3 == 1
    ensures Pick(r >> 64, 12 + (x & 3)) == Pick(r, x)
  {
  }

  lemma PickQuarter2(r: bv128, x: bv8)
    requires (x >> 2) & 3 == 2
    ensures Pick(r >> 32, 12 + (x & 3)) == Pick(r, x)
  {
  }

  lemma PickQuarter3(r: bv128, x: bv8)
    requires (x >> 2) & 3 == 3
    ensures Pick(r, 12 + (x & 3)) == Pick(r, x)
  {
  }

  lemma PickColumnRows(r: bv128, x: bv8)
    ensures PickEntry(ColumnRows(r), x) == PackedColumn(Pick(r, x))
  {
    match (x >> 2) & 3
    case 0 =>
      PickColumns(r >> 96, x);
      PickQuarter0(r, x);
    case 1 =>
      PickColumns(r >> 64, x);
      PickQuarter1(r, x);
    case 2 =>
      PickColumns(r >> 32, x);
      PickQuarter2(r, x);
    case _ =>
      PickColumns(r, x);
      PickQuarter3(r, x);
  }

  lemma SBox0Is(x: bv8)
    ensures SBox0(x) == PackedColumn(Sbox(x))
  {
    TRows0Rows(x >> 4);
    PickColumnRows(SboxRow(x >> 4), x);
  }

  lemma SBox1Is(x: bv8)
    ensures SBox1(x) == RotateWord(SBox0(x))
  {
    TRows1Rows(x >> 4);
    PickRotated(TRows0(x >> 4), x);
  }

  lemma SBox2Is(x: bv8)
    ensures SBox2(x) == RotateWord(SBox1(x))
  {
    TRows2Rows(x >> 4);
    PickRotated(TRows1(x >> 4), x);
  }

  lemma SBox3Is(x: bv8)
    ensures SBox3(x) == RotateWord(SBox2(x))
  {
    TRows3Rows(x >> 4);
    PickRotated(TRows2(x >> 4), x);
  }

  // The S-box of section 5.1.1: an affine map applied to the multiplicative inverse

  function RotateLeftBits(b: bv8, k: bv8): bv8
    requires k < 8
  {
    (b << k) | (b >> (8 - k))
  }

  function Affine(b: bv8): bv8 {
    b ^ RotateLeftBits(b, 1) ^ RotateLeftBits(b, 2) ^ RotateLeftBits(b, 3) ^ RotateLeftBits(b, 4) ^ 0x63
  }

  /** Solves Affine(y) == b. */
  function InvAffine(b: bv8): bv8 {
    RotateLeftBits(b, 1) ^ RotateLeftBits(b, 3) ^ RotateLeftBits(b, 6) ^ 0x05
  }

  lemma AffineInvAffine(b: bv8)
    ensures Affine(InvAffine(b)) == b
  {
  }

  lemma SboxInverts0(x: bv8) requires x >> 2 == 0 && x != 0 ensures Mul(x, InvAffine(Sbox(x))) == 1 { }
  lemma SboxInverts1(x: bv8) requires x >> 2 == 1 ensures Mul(x, InvAffine(Sbox(x))) == 1 { }
  lemma SboxInverts2(x: bv8) requires x >> 2 == 2 ensures Mul(x, InvAffine(Sbox(x))) == 1 { }
  lemma SboxInverts3(x: bv8) requires x >> 2 == 3 ensures Mul(x, InvAffine(Sbox(x))) == 1 { }
  lemma SboxInverts4(x: bv8) requires x >> 2 == 4 ensures Mul(x, InvAffine(Sbox(x))) == 1 { }
  lemma SboxInverts5(x: bv8) requires x >> 2 == 5 ensures Mul(x, InvAffine(Sbox(x))) == 1 { }
  lemma SboxInverts6(x: bv8) requires x >> 2 == 6 ensures Mul(x, InvAffine(Sbox(x))) == 1 { }
  lemma SboxInverts7(x: bv8) requires x >> 2 == 7 ensures Mul(x, InvAffine(Sbox(x))) == 1 { }
  lemma SboxInverts8(x: bv8) requires x >> 2 == 8 ensures Mul(x, InvAffine(Sbox(x))) == 1 { }
  lemma SboxInverts9(x: bv8) requires x >> 2 == 9 ensures Mul(x, InvAffine(Sbox(x))) == 1 { }
  lemma SboxInverts10(x: bv8) requires x >> 2 == 10 ensures Mul(x, InvAffine(Sbox(x))) == 1 { }
  lemma SboxInverts11(x: bv8) requires x >> 2 == 11 ensures Mul(x, InvAffine(Sbox(x))) == 1 { }
  lemma SboxInverts12(x: bv8) requires x >> 2 == 12 ensures Mul(x, InvAffine(Sbox(x))) == 1 { }
  lemma SboxInverts13(x: bv8) requires x >> 2 == 13 ensures Mul(x, InvAffine(Sbox(x))) == 1 { }
  lemma SboxInverts14(x: bv8) requires x >> 2 == 14 ensures Mul(x, InvAffine(Sbox(x))) == 1 { }
  lemma SboxInverts15(x: bv8) requires x >> 2 == 15 ensures Mul(x, InvAffine(Sbox(x))) == 1 { }
  lemma SboxInverts16(x: bv8) requires x >> 2 == 16 ensures Mul(x, InvAffine(Sbox(x))) == 1 { }
  lemma SboxInverts17(x: bv8) requires x >> 2 == 17 ensures Mul(x, InvAffine(Sbox(x))) == 1 { }
  lemma SboxInverts18(x: bv8) requires x >> 2 == 18 ensures Mul(x, InvAffine(Sbox(x))) == 1 { }
  lemma SboxInverts19(x: bv8) requires x >> 2 == 19 ensures Mul(x, InvAffine(Sbox(x))) == 1 { }
  lemma SboxInverts20(x: bv8) requires x >> 2 == 20 ensures Mul(x, InvAffine(Sbox(x))) == 1 { }
  lemma SboxInverts21(x: bv8) requires x >> 2 == 21 ensures Mul(x, InvAffine(Sbox(x))) == 1 { }
  lemma SboxInverts22(x: bv8) requires x >> 2 == 22 ensures Mul(x, InvAffine(Sbox(x))) == 1 { }
  lemma SboxInverts23(x: bv8) requires x >> 2 == 23 ensures Mul(x, InvAffine(Sbox(x))) == 1 { }
  lemma SboxInverts24(x: bv8) requires x >> 2 == 24 ensures Mul(x, InvAffine(Sbox(x))) == 1 { }
  lemma SboxInverts25(x: bv8) requires x >> 2 == 25 ensures Mul(x, InvAffine(Sbox(x))) == 1 { }
  lemma SboxInverts26(x: bv8) requires x >> 2 == 26 ensures Mul(x, InvAffine(Sbox(x))) == 1 { }
  lemma SboxInverts27(x: bv8) requires x >> 2 == 27 ensures Mul(x, InvAffine(Sbox(x))) == 1 { }
  lemma SboxInverts28(x: bv8) requires x >> 2 == 28 ensures Mul(x, InvAffine(Sbox(x))) == 1 { }
  lemma SboxInverts29(x: bv8) requires x >> 2 == 29 ensures Mul(x, InvAffine(Sbox(x))) == 1 { }
  lemma SboxInverts30(x: bv8) requires x >> 2 == 30 ensures Mul(x, InvAffine(Sbox(x))) == 1 { }
  lemma SboxInverts31(x: bv8) requires x >> 2 == 31 ensures Mul(x, InvAffine(Sbox(x))) == 1 { }
  lemma SboxInverts32(x: bv8) requires x >> 2 == 32 ensures Mul(x, InvAffine(Sbox(x))) == 1 { }
  lemma SboxInverts33(x: bv8) requires x >> 2 == 33 ensures Mul(x, InvAffine(Sbox(x))) == 1 { }
  lemma SboxInverts34(x: bv8) requires x >> 2 == 34 ensures Mul(x, InvAffine(Sbox(x))) == 1 { }
  lemma SboxInverts35(x: bv8) requires x >> 2 == 35 ensures Mul(x, InvAffine(Sbox(x))) == 1 { }
  lemma SboxInverts36(x: bv8) requires x >> 2 == 36 ensures Mul(x, InvAffine(Sbox(x))) == 1 { }
  lemma SboxInverts37(x: bv8) requires x >> 2 == 37 ensures Mul(x, InvAffine(Sbox(x))) == 1 { }
  lemma SboxInverts38(x: bv8) requires x >> 2 == 38 ensures Mul(x, InvAffine(Sbox(x))) == 1 { }
  lemma SboxInverts39(x: bv8) requires x >> 2 == 39 ensures Mul(x, InvAffine(Sbox(x))) == 1 { }
  lemma SboxInverts40(x: bv8) requires x >> 2 == 40 ensures Mul(x, InvAffine(Sbox(x))) == 1 { }
  lemma SboxInverts41(x: bv8) requires x >> 2 == 41 ensures Mul(x, InvAffine(Sbox(x))) == 1 { }
  lemma SboxInverts42(x: bv8) requires x >> 2 == 42 ensures Mul(x, InvAffine(Sbox(x))) == 1 { }
  lemma SboxInverts43(x: bv8) requires x >> 2 == 43 ensures Mul(x, InvAffine(Sbox(x))) == 1 { }
  lemma SboxInverts44(x: bv8) requires x >> 2 == 44 ensures Mul(x, InvAffine(Sbox(x))) == 1 { }
  lemma SboxInverts45(x: bv8) requires x >> 2 == 45 ensures Mul(x, InvAffine(Sbox(x))) == 1 { }
  lemma SboxInverts46(x: bv8) requires x >> 2 == 46 ensures Mul(x, InvAffine(Sbox(x))) == 1 { }
  lemma SboxInverts47(x: bv8) requires x >> 2 == 47 ensures Mul(x, InvAffine(Sbox(x))) == 1 { }
  lemma SboxInverts48(x: bv8) requires x >> 2 == 48 ensures Mul(x, InvAffine(Sbox(x))) == 1 { }
  lemma SboxInverts49(x: bv8) requires x >> 2 == 49 ensures Mul(x, InvAffine(Sbox(x))) == 1 { }
  lemma SboxInverts50(x: bv8) requires x >> 2 == 50 ensures Mul(x, InvAffine(Sbox(x))) == 1 { }
  lemma SboxInverts51(x: bv8) requires x >> 2 == 51 ensures Mul(x, InvAffine(Sbox(x))) == 1 { }
  lemma SboxInverts52(x: bv8) requires x >> 2 == 52 ensures Mul(x, InvAffine(Sbox(x))) == 1 { }
  lemma SboxInverts53(x: bv8) requires x >> 2 == 53 ensures Mul(x, InvAffine(Sbox(x))) == 1 { }
  lemma SboxInverts54(x: bv8) requires x >> 2 == 54 ensures Mul(x, InvAffine(Sbox(x))) == 1 { }
  lemma SboxInverts55(x: bv8) requires x >> 2 == 55 ensures Mul(x, InvAffine(Sbox(x))) == 1 { }
  lemma SboxInverts56(x: bv8) requires x >> 2 == 56 ensures Mul(x, InvAffine(Sbox(x))) == 1 { }
  lemma SboxInverts57(x: bv8) requires x >> 2 == 57 ensures Mul(x, InvAffine(Sbox(x))) == 1 { }
  lemma SboxInverts58(x: bv8) requires x >> 2 == 58 ensures Mul(x, InvAffine(Sbox(x))) == 1 { }
  lemma SboxInverts59(x: bv8) requires x >> 2 == 59 ensures Mul(x, InvAffine(Sbox(x))) == 1 { }
  lemma SboxInverts60(x: bv8) requires x >> 2 == 60 ensures Mul(x, InvAffine(Sbox(x))) == 1 { }
  lemma SboxInverts61(x: bv8) requires x >> 2 == 61 ensures Mul(x, InvAffine(Sbox(x))) == 1 { }
  lemma SboxInverts62(x: bv8) requires x >> 2 == 62 ensures Mul(x, InvAffine(Sbox(x))) == 1 { }
  lemma SboxInverts63(x: bv8) requires x >> 2 == 63 ensures Mul(x, InvAffine(Sbox(x))) == 1 { }

  lemma SboxInverts(x: bv8)
    requires x != 0
    ensures Mul(x, InvAffine(Sbox(x))) == 1
  {
    match x >> 2
    case 0 => SboxInverts0(x);
    case 1 => SboxInverts1(x);
    case 2 => SboxInverts2(x);
    case 3 => SboxInverts3(x);
    case 4 => SboxInverts4(x);
    case 5 => SboxInverts5(x);
    case 6 => SboxInverts6(x);
    case 7 => SboxInverts7(x);
    case 8 => SboxInverts8(x);
    case 9 => SboxInverts9(x);
    case 10 => SboxInverts10(x);
    case 11 => SboxInverts11(x);
    case 12 => SboxInverts12(x);
    case 13 => SboxInverts13(x);
    case 14 => SboxInverts14(x);
    case 15 => SboxInverts15(x);
    case 16 => SboxInverts16(x);
    case 17 => SboxInverts17(x);
    case 18 => SboxInverts18(x);
    case 19 => SboxInverts19(x);
    case 20 => SboxInverts20(x);
    case 21 => SboxInverts21(x);
    case 22 => SboxInverts22(x);
    case 23 => SboxInverts23(x);
    case 24 => SboxInverts24(x);
    case 25 => SboxInverts25(x);
    case 26 => SboxInverts26(x);
    case 27 => SboxInverts27(x);
    case 28 => SboxInverts28(x);
    case 29 => SboxInverts29(x);
    case 30 => SboxInverts30(x);
    case 31 => SboxInverts31(x);
    case 32 => SboxInverts32(x);
    case 33 => SboxInverts33(x);
    case 34 => SboxInverts34(x);
    case 35 => SboxInverts35(x);
    case 36 => SboxInverts36(x);
    case 37 => SboxInverts37(x);
    case 38 => SboxInverts38(x);
    case 39 => SboxInverts39(x);
    case 40 => SboxInverts40(x);
    case 41 => SboxInverts41(x);
    case 42 => SboxInverts42(x);
    case 43 => SboxInverts43(x);
    case 44 => SboxInverts44(x);
    case 45 => SboxInverts45(x);
    case 46 => SboxInverts46(x);
    case 47 => SboxInverts47(x);
    case 48 => SboxInverts48(x);
    case 49 => SboxInverts49(x);
    case 50 => SboxInverts50(x);
    case 51 => SboxInverts51(x);
    case 52 => SboxInverts52(x);
    case 53 => SboxInverts53(x);
    case 54 => SboxInverts54(x);
    case 55 => SboxInverts55(x);
    case 56 => SboxInverts56(x);
    case 57 => SboxInverts57(x);
    case 58 => SboxInverts58(x);
    case 59 => SboxInverts59(x);
    case 60 => SboxInverts60(x);
    case 61 => SboxInverts61(x);
    case 62 => SboxInverts62(x);
    case _ => SboxInverts63(x);
  }

  lemma SboxOfZero()
    ensures InvAffine(Sbox(0)) == 0
  {
  }

  /** Every S-box entry is the affine image of the multiplicative inverse (of 0, for 0). */
  lemma SboxDefinition(x: bv8)
    ensures exists y :: Sbox(x) == Affine(y) && if x == 0 then y == 0 else Mul(x, y) == 1
  {
    var y := InvAffine(Sbox(x));
    AffineInvAffine(Sbox(x));
    if x == 0 {
      SboxOfZero();
    } else {
      SboxInverts(x);
    }
    assert Sbox(x) == Affine(y);
  }

  // The products the multiplication tables hold, as products of section 4.2

  lemma Mul3(x: bv8) ensures Mul(x, 3) == Plus(Xtime(x), x) { }
  lemma Mul9(x: bv8) ensures Mul(x, 9) == Plus(Xtime(Xtime(Xtime(x))), x) { }
  lemma Mul11(x: bv8) ensures Mul(x, 11) == Plus(Plus(Xtime(Xtime(Xtime(x))), Xtime(x)), x) { }
  lemma Mul13(x: bv8) ensures Mul(x, 13) == Plus(Plus(Xtime(Xtime(Xtime(x))), Xtime(Xtime(x))), x) { }
  lemma Mul14(x: bv8) ensures Mul(x, 14) == Plus(Plus(Xtime(Xtime(Xtime(x))), Xtime(Xtime(x))), Xtime(x)) { }

  lemma Xtime3SboxMultiplies(x: bv8)
    ensures Xtime3Sbox(x) == Mul(Sbox(x), 3)
  {
    Xtime3SboxIs(x);
    Mul3(Sbox(x));
  }

  lemma Xtime9Multiplies(x: bv8)
    ensures Xtime9(x) == Mul(x, 9)
  {
    Xtime9Is(x);
    Mul9(x);
  }

  lemma XtimeBMultiplies(x: bv8)
    ensures XtimeB(x) == Mul(x, 11)
  {
    XtimeBIs(x);
    Mul11(x);
  }

  lemma XtimeDMultiplies(x: bv8)
    ensures XtimeD(x) == Mul(x, 13)
  {
    XtimeDIs(x);
    Mul13(x);
  }

  lemma XtimeEMultiplies(x: bv8)
    ensures XtimeE(x) == Mul(x, 14)
  {
    XtimeEIs(x);
    Mul14(x);
  }
}
