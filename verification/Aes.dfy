/** The AES-128 routines: two encryptors, a decryptor and two key expansions, each working in
    place on byte arrays. */
module Aes {
  import opened Fips197
  import opened Gf256

  const NB := 4   // columns in the state
  const NK := 4   // words in the key
  const NR := 10  // rounds

  /** The byte-by-byte copy the routines use instead of memcpy. */
  method CopyBlock(src: array<Byte>, dest: array<Byte>)
    requires src.Length == 16 && dest.Length == 16
    modifies dest
    ensures dest[..] == old(src[..])
  {
    for i := 0 to 16
      invariant src == dest ==> src[..] == old(src[..])
      invariant dest[..i] == old(src[..i])
      invariant src != dest ==> src[..] == old(src[..])
    {
      dest[i] := src[i];
    }
    assert dest[..] == dest[..16] && old(src[..]) == old(src[..16]);
  }

  /** A four-byte store. */
  method StoreWord(buf: array<Byte>, at: nat, w: Word)
    requires at + 4 <= buf.Length
    modifies buf
    ensures buf[at] == w.b0 && buf[at + 1] == w.b1 && buf[at + 2] == w.b2 && buf[at + 3] == w.b3
    ensures forall i | 0 <= i < at || at + 4 <= i < buf.Length :: buf[i] == old(buf[i])
  {
    buf[at] := w.b0;
    buf[at + 1] := w.b1;
    buf[at + 2] := w.b2;
    buf[at + 3] := w.b3;
  }

  /** state[idx] ^= key[idx] on words, with `state` at byte `i` and `key` at byte `j`. */
  method XorWordInto(t: Tables, state: array<Byte>, i: nat, key: array<Byte>, j: nat)
    requires i + 4 <= state.Length && j + 4 <= key.Length && state != key
    modifies state
    ensures forall m | 0 <= m < state.Length ::
      state[m] == if i <= m < i + 4 then t.Xor(old(state[m]), key[m - i + j]) else old(state[m])
  {
    StoreWord(state, i, t.XorWords(WordAt(state[..], i), WordAt(key[..], j)));
  }

  /** XORs round key `k` of the schedule into the state, a word at a time. */
  method AddRoundKeyInPlace(t: Tables, state: array<Byte>, w: array<Byte>, k: nat)
    requires state.Length == 16 && 16 * (k + 1) <= w.Length && state != w
    modifies state
    ensures state[..] == AddRoundKey(t, old(state[..]), w[..], k)
  {
    for idx := 0 to 4
      invariant forall i | 0 <= i < 16 ::
        state[i] == if i < 4 * idx then t.Xor(old(state[i]), w[16 * k + i]) else old(state[i])
    {
      XorWordInto(t, state, 4 * idx, w, 16 * k + 4 * idx);
    }
  }

  lemma SameColumns(a: Block, b: Block)
    requires WordAt(a, 0) == WordAt(b, 0) && WordAt(a, 4) == WordAt(b, 4)
    requires WordAt(a, 8) == WordAt(b, 8) && WordAt(a, 12) == WordAt(b, 12)
    ensures a == b
  {
  }

  lemma ShiftedColumn0(t: Tables, s: Block)
    ensures WordAt(ShiftRows(SubBytes(t, s)), 0) == Word(t.S(s[0]), t.S(s[5]), t.S(s[10]), t.S(s[15]))
  {
  }

  lemma ShiftedColumn1(t: Tables, s: Block)
    ensures WordAt(ShiftRows(SubBytes(t, s)), 4) == Word(t.S(s[4]), t.S(s[9]), t.S(s[14]), t.S(s[3]))
  {
  }

  lemma ShiftedColumn2(t: Tables, s: Block)
    ensures WordAt(ShiftRows(SubBytes(t, s)), 8) == Word(t.S(s[8]), t.S(s[13]), t.S(s[2]), t.S(s[7]))
  {
  }

  lemma ShiftedColumn3(t: Tables, s: Block)
    ensures WordAt(ShiftRows(SubBytes(t, s)), 12) == Word(t.S(s[12]), t.S(s[1]), t.S(s[6]), t.S(s[11]))
  {
  }

  lemma ShiftedBlock(t: Tables, s: Block, r: Block)
    requires WordAt(r, 0) == Word(t.S(s[0]), t.S(s[5]), t.S(s[10]), t.S(s[15]))
    requires WordAt(r, 4) == Word(t.S(s[4]), t.S(s[9]), t.S(s[14]), t.S(s[3]))
    requires WordAt(r, 8) == Word(t.S(s[8]), t.S(s[13]), t.S(s[2]), t.S(s[7]))
    requires WordAt(r, 12) == Word(t.S(s[12]), t.S(s[1]), t.S(s[6]), t.S(s[11]))
    ensures r == ShiftRows(SubBytes(t, s))
  {
    ShiftedColumn0(t, s);
    ShiftedColumn1(t, s);
    ShiftedColumn2(t, s);
    ShiftedColumn3(t, s);
    SameColumns(r, ShiftRows(SubBytes(t, s)));
  }

  lemma InvShiftedColumn0(t: Tables, s: Block)
    ensures WordAt(InvSubBytes(t, InvShiftRows(s)), 0) == Word(t.InvS(s[0]), t.InvS(s[13]), t.InvS(s[10]), t.InvS(s[7]))
  {
  }

  lemma InvShiftedColumn1(t: Tables, s: Block)
    ensures WordAt(InvSubBytes(t, InvShiftRows(s)), 4) == Word(t.InvS(s[4]), t.InvS(s[1]), t.InvS(s[14]), t.InvS(s[11]))
  {
  }

  lemma InvShiftedColumn2(t: Tables, s: Block)
    ensures WordAt(InvSubBytes(t, InvShiftRows(s)), 8) == Word(t.InvS(s[8]), t.InvS(s[5]), t.InvS(s[2]), t.InvS(s[15]))
  {
  }

  lemma InvShiftedColumn3(t: Tables, s: Block)
    ensures WordAt(InvSubBytes(t, InvShiftRows(s)), 12) == Word(t.InvS(s[12]), t.InvS(s[9]), t.InvS(s[6]), t.InvS(s[3]))
  {
  }

  lemma InvShiftedBlock(t: Tables, s: Block, r: Block)
    requires WordAt(r, 0) == Word(t.InvS(s[0]), t.InvS(s[13]), t.InvS(s[10]), t.InvS(s[7]))
    requires WordAt(r, 4) == Word(t.InvS(s[4]), t.InvS(s[1]), t.InvS(s[14]), t.InvS(s[11]))
    requires WordAt(r, 8) == Word(t.InvS(s[8]), t.InvS(s[5]), t.InvS(s[2]), t.InvS(s[15]))
    requires WordAt(r, 12) == Word(t.InvS(s[12]), t.InvS(s[9]), t.InvS(s[6]), t.InvS(s[3]))
    ensures r == InvSubBytes(t, InvShiftRows(s))
  {
    InvShiftedColumn0(t, s);
    InvShiftedColumn1(t, s);
    InvShiftedColumn2(t, s);
    InvShiftedColumn3(t, s);
    SameColumns(r, InvSubBytes(t, InvShiftRows(s)));
  }

  /** Row 0 stays where it is. */
  method SubRow0(t: Tables, state: array<Byte>)
    requires state.Length == 16
    modifies state
    ensures state[0] == t.S(old(state[0])) && state[4] == t.S(old(state[4]))
    ensures state[8] == t.S(old(state[8])) && state[12] == t.S(old(state[12]))
    ensures forall i | 0 <= i < 16 && i % 4 != 0 :: state[i] == old(state[i])
  {
    state[0] := t.S(state[0]);
    state[4] := t.S(state[4]);
    state[8] := t.S(state[8]);
    state[12] := t.S(state[12]);
  }

  /** Row 1 rotates by one. */
  method SubShiftRow1(t: Tables, state: array<Byte>)
    requires state.Length == 16
    modifies state
    ensures state[1] == t.S(old(state[5])) && state[5] == t.S(old(state[9]))
    ensures state[9] == t.S(old(state[13])) && state[13] == t.S(old(state[1]))
    ensures forall i | 0 <= i < 16 && i % 4 != 1 :: state[i] == old(state[i])
  {
    var tmp := t.S(state[1]);
    state[1] := t.S(state[5]);
    state[5] := t.S(state[9]);
    state[9] := t.S(state[13]);
    state[13] := tmp;
  }

  /** Row 2 rotates by two. */
  method SubShiftRow2(t: Tables, state: array<Byte>)
    requires state.Length == 16
    modifies state
    ensures state[2] == t.S(old(state[10])) && state[6] == t.S(old(state[14]))
    ensures state[10] == t.S(old(state[2])) && state[14] == t.S(old(state[6]))
    ensures forall i | 0 <= i < 16 && i % 4 != 2 :: state[i] == old(state[i])
  {
    var tmp := t.S(state[2]);
    state[2] := t.S(state[10]);
    state[10] := tmp;
    tmp := t.S(state[6]);
    state[6] := t.S(state[14]);
    state[14] := tmp;
  }

  /** Row 3 rotates by three. */
  method SubShiftRow3(t: Tables, state: array<Byte>)
    requires state.Length == 16
    modifies state
    ensures state[3] == t.S(old(state[15])) && state[7] == t.S(old(state[3]))
    ensures state[11] == t.S(old(state[7])) && state[15] == t.S(old(state[11]))
    ensures forall i | 0 <= i < 16 && i % 4 != 3 :: state[i] == old(state[i])
  {
    var tmp := t.S(state[15]);
    state[15] := t.S(state[11]);
    state[11] := t.S(state[7]);
    state[7] := t.S(state[3]);
    state[3] := tmp;
  }

  /** SubBytes and ShiftRows in place, row by row. */
  method SubShiftRows(t: Tables, state: array<Byte>)
    requires state.Length == 16
    modifies state
    ensures state[..] == ShiftRows(SubBytes(t, old(state[..])))
  {
    SubRow0(t, state);
    SubShiftRow1(t, state);
    SubShiftRow2(t, state);
    SubShiftRow3(t, state);
    ShiftedBlock(t, old(state[..]), state[..]);
  }

  /** Row 0 stays where it is. */
  method InvSubRow0(t: Tables, state: array<Byte>)
    requires state.Length == 16
    modifies state
    ensures state[0] == t.InvS(old(state[0])) && state[4] == t.InvS(old(state[4]))
    ensures state[8] == t.InvS(old(state[8])) && state[12] == t.InvS(old(state[12]))
    ensures forall i | 0 <= i < 16 && i % 4 != 0 :: state[i] == old(state[i])
  {
    state[0] := t.InvS(state[0]);
    state[4] := t.InvS(state[4]);
    state[8] := t.InvS(state[8]);
    state[12] := t.InvS(state[12]);
  }

  /** Row 1 rotates back by one. */
  method InvSubShiftRow1(t: Tables, state: array<Byte>)
    requires state.Length == 16
    modifies state
    ensures state[1] == t.InvS(old(state[13])) && state[5] == t.InvS(old(state[1]))
    ensures state[9] == t.InvS(old(state[5])) && state[13] == t.InvS(old(state[9]))
    ensures forall i | 0 <= i < 16 && i % 4 != 1 :: state[i] == old(state[i])
  {
    var tmp := t.InvS(state[13]);
    state[13] := t.InvS(state[9]);
    state[9] := t.InvS(state[5]);
    state[5] := t.InvS(state[1]);
    state[1] := tmp;
  }

  /** Row 2 rotates back by two. */
  method InvSubShiftRow2(t: Tables, state: array<Byte>)
    requires state.Length == 16
    modifies state
    ensures state[2] == t.InvS(old(state[10])) && state[6] == t.InvS(old(state[14]))
    ensures state[10] == t.InvS(old(state[2])) && state[14] == t.InvS(old(state[6]))
    ensures forall i | 0 <= i < 16 && i % 4 != 2 :: state[i] == old(state[i])
  {
    var tmp := t.InvS(state[2]);
    state[2] := t.InvS(state[10]);
    state[10] := tmp;
    tmp := t.InvS(state[6]);
    state[6] := t.InvS(state[14]);
    state[14] := tmp;
  }

  /** Row 3 rotates back by three. */
  method InvSubShiftRow3(t: Tables, state: array<Byte>)
    requires state.Length == 16
    modifies state
    ensures state[3] == t.InvS(old(state[7])) && state[7] == t.InvS(old(state[11]))
    ensures state[11] == t.InvS(old(state[15])) && state[15] == t.InvS(old(state[3]))
    ensures forall i | 0 <= i < 16 && i % 4 != 3 :: state[i] == old(state[i])
  {
    var tmp := t.InvS(state[3]);
    state[3] := t.InvS(state[7]);
    state[7] := t.InvS(state[11]);
    state[11] := t.InvS(state[15]);
    state[15] := tmp;
  }

  method InvSubShiftRows(t: Tables, state: array<Byte>)
    requires state.Length == 16
    modifies state
    ensures state[..] == InvSubBytes(t, InvShiftRows(old(state[..])))
  {
    InvSubRow0(t, state);
    InvSubShiftRow1(t, state);
    InvSubShiftRow2(t, state);
    InvSubShiftRow3(t, state);
    InvShiftedBlock(t, old(state[..]), state[..]);
  }

  // A column of SubBytes followed by MixColumns, out of the premultiplied tables

  function Xor4(t: Tables, a: Byte, b: Byte, c: Byte, d: Byte): Byte {
    t.Xor(t.Xor(t.Xor(a, b), c), d)
  }

  function SubMixColumn(t: Tables, a: Byte, b: Byte, c: Byte, d: Byte): Word {
    Word(Xor4(t, t.S2(a), t.S3(b), t.S(c), t.S(d)),
         Xor4(t, t.S(a), t.S2(b), t.S3(c), t.S(d)),
         Xor4(t, t.S(a), t.S(b), t.S2(c), t.S3(d)),
         Xor4(t, t.S3(a), t.S(b), t.S(c), t.S2(d)))
  }

  function MixColumn(t: Tables, a: Byte, b: Byte, c: Byte, d: Byte): Word {
    Word(t.Mix(a, b, c, d), t.Mix(b, c, d, a), t.Mix(c, d, a, b), t.Mix(d, a, b, c))
  }

  function UnmixColumn(t: Tables, a: Byte, b: Byte, c: Byte, d: Byte): Word {
    Word(t.Unmix(a, b, c, d), t.Unmix(b, c, d, a), t.Unmix(c, d, a, b), t.Unmix(d, a, b, c))
  }

  lemma SubMixColumnMixes(t: Tables, a: Byte, b: Byte, c: Byte, d: Byte)
    requires t.XorLaws() && t.Products()
    ensures SubMixColumn(t, a, b, c, d) == MixColumn(t, t.S(a), t.S(b), t.S(c), t.S(d))
  {
    assert t.RegroupAt(t.S2(a), t.S3(b), t.S(c), t.S(d));
    assert t.RegroupAt(t.S(a), t.S2(b), t.S3(c), t.S(d));
    assert t.RegroupAt(t.S(a), t.S(b), t.S2(c), t.S3(d));
    assert t.RegroupAt(t.S3(a), t.S(b), t.S(c), t.S2(d));
  }

  function TableUnmixColumn(t: Tables, a: Byte, b: Byte, c: Byte, d: Byte): Word {
    Word(Xor4(t, t.XE(a), t.XB(b), t.XD(c), t.X9(d)),
         Xor4(t, t.X9(a), t.XE(b), t.XB(c), t.XD(d)),
         Xor4(t, t.XD(a), t.X9(b), t.XE(c), t.XB(d)),
         Xor4(t, t.XB(a), t.XD(b), t.X9(c), t.XE(d)))
  }

  lemma TableUnmixColumnUnmixes(t: Tables, a: Byte, b: Byte, c: Byte, d: Byte)
    requires t.XorLaws() && t.Products()
    ensures TableUnmixColumn(t, a, b, c, d) == UnmixColumn(t, a, b, c, d)
  {
    assert t.RegroupAt(t.XE(a), t.XB(b), t.XD(c), t.X9(d));
    assert t.RegroupAt(t.X9(a), t.XE(b), t.XB(c), t.XD(d));
    assert t.RegroupAt(t.XD(a), t.X9(b), t.XE(c), t.XB(d));
    assert t.RegroupAt(t.XB(a), t.XD(b), t.X9(c), t.XE(d));
  }

  /** The cells of a column from row `r` on. */
  lemma RowCells(s: Block, c: nat, r: nat)
    requires c < 4 && r < 4
    ensures Cell(s, c, r) == s[4 * c + r]
    ensures Cell(s, c, r + 1) == s[4 * c + if r < 3 then r + 1 else 0]
    ensures Cell(s, c, r + 2) == s[4 * c + if r < 2 then r + 2 else r - 2]
    ensures Cell(s, c, r + 3) == s[4 * c + if r == 0 then 3 else r - 1]
  {
  }

  lemma MixedRow0(t: Tables, s: Block, c: nat)
    requires c < 4
    ensures MixColumns(t, s)[4 * c] == t.Mix(s[4 * c], s[4 * c + 1], s[4 * c + 2], s[4 * c + 3])
  {
    RowCells(s, c, 0);
    RowCells(MixColumns(t, s), c, 0);
    MixedCell(t, s, c, 0);
  }

  lemma MixedRow1(t: Tables, s: Block, c: nat)
    requires c < 4
    ensures MixColumns(t, s)[4 * c + 1] == t.Mix(s[4 * c + 1], s[4 * c + 2], s[4 * c + 3], s[4 * c])
  {
    RowCells(s, c, 1);
    RowCells(MixColumns(t, s), c, 1);
    MixedCell(t, s, c, 1);
  }

  lemma MixedRow2(t: Tables, s: Block, c: nat)
    requires c < 4
    ensures MixColumns(t, s)[4 * c + 2] == t.Mix(s[4 * c + 2], s[4 * c + 3], s[4 * c], s[4 * c + 1])
  {
    RowCells(s, c, 2);
    RowCells(MixColumns(t, s), c, 2);
    MixedCell(t, s, c, 2);
  }

  lemma MixedRow3(t: Tables, s: Block, c: nat)
    requires c < 4
    ensures MixColumns(t, s)[4 * c + 3] == t.Mix(s[4 * c + 3], s[4 * c], s[4 * c + 1], s[4 * c + 2])
  {
    RowCells(s, c, 3);
    RowCells(MixColumns(t, s), c, 3);
    MixedCell(t, s, c, 3);
  }

  lemma MixedColumn(t: Tables, s: Block, c: nat)
    requires c < 4
    ensures WordAt(MixColumns(t, s), 4 * c) == MixColumn(t, s[4 * c], s[4 * c + 1], s[4 * c + 2], s[4 * c + 3])
  {
    MixedRow0(t, s, c);
    MixedRow1(t, s, c);
    MixedRow2(t, s, c);
    MixedRow3(t, s, c);
  }

  lemma UnmixedRow0(t: Tables, s: Block, c: nat)
    requires c < 4
    ensures InvMixColumns(t, s)[4 * c] == t.Unmix(s[4 * c], s[4 * c + 1], s[4 * c + 2], s[4 * c + 3])
  {
    RowCells(s, c, 0);
    RowCells(InvMixColumns(t, s), c, 0);
    InvMixedCell(t, s, c, 0);
  }

  lemma UnmixedRow1(t: Tables, s: Block, c: nat)
    requires c < 4
    ensures InvMixColumns(t, s)[4 * c + 1] == t.Unmix(s[4 * c + 1], s[4 * c + 2], s[4 * c + 3], s[4 * c])
  {
    RowCells(s, c, 1);
    RowCells(InvMixColumns(t, s), c, 1);
    InvMixedCell(t, s, c, 1);
  }

  lemma UnmixedRow2(t: Tables, s: Block, c: nat)
    requires c < 4
    ensures InvMixColumns(t, s)[4 * c + 2] == t.Unmix(s[4 * c + 2], s[4 * c + 3], s[4 * c], s[4 * c + 1])
  {
    RowCells(s, c, 2);
    RowCells(InvMixColumns(t, s), c, 2);
    InvMixedCell(t, s, c, 2);
  }

  lemma UnmixedRow3(t: Tables, s: Block, c: nat)
    requires c < 4
    ensures InvMixColumns(t, s)[4 * c + 3] == t.Unmix(s[4 * c + 3], s[4 * c], s[4 * c + 1], s[4 * c + 2])
  {
    RowCells(s, c, 3);
    RowCells(InvMixColumns(t, s), c, 3);
    InvMixedCell(t, s, c, 3);
  }

  lemma UnmixedColumn(t: Tables, s: Block, c: nat)
    requires c < 4
    ensures WordAt(InvMixColumns(t, s), 4 * c) == UnmixColumn(t, s[4 * c], s[4 * c + 1], s[4 * c + 2], s[4 * c + 3])
  {
    UnmixedRow0(t, s, c);
    UnmixedRow1(t, s, c);
    UnmixedRow2(t, s, c);
    UnmixedRow3(t, s, c);
  }

  lemma MixedColumn0(t: Tables, s: Block)
    ensures WordAt(MixColumns(t, s), 0) == MixColumn(t, s[0], s[1], s[2], s[3])
  {
    MixedColumn(t, s, 0);
  }

  lemma SubMixedColumn0(t: Tables, s: Block)
    requires t.XorLaws() && t.Products()
    ensures WordAt(MixColumns(t, ShiftRows(SubBytes(t, s))), 0) == SubMixColumn(t, s[0], s[5], s[10], s[15])
  {
    ShiftedColumn0(t, s);
    MixedColumn0(t, ShiftRows(SubBytes(t, s)));
    SubMixColumnMixes(t, s[0], s[5], s[10], s[15]);
  }

  lemma SubMixedColumn1(t: Tables, s: Block)
    requires t.XorLaws() && t.Products()
    ensures WordAt(MixColumns(t, ShiftRows(SubBytes(t, s))), 4) == SubMixColumn(t, s[4], s[9], s[14], s[3])
  {
    ShiftedColumn1(t, s);
    MixedColumn(t, ShiftRows(SubBytes(t, s)), 1);
    SubMixColumnMixes(t, s[4], s[9], s[14], s[3]);
  }

  lemma SubMixedColumn2(t: Tables, s: Block)
    requires t.XorLaws() && t.Products()
    ensures WordAt(MixColumns(t, ShiftRows(SubBytes(t, s))), 8) == SubMixColumn(t, s[8], s[13], s[2], s[7])
  {
    ShiftedColumn2(t, s);
    MixedColumn(t, ShiftRows(SubBytes(t, s)), 2);
    SubMixColumnMixes(t, s[8], s[13], s[2], s[7]);
  }

  lemma SubMixedColumn3(t: Tables, s: Block)
    requires t.XorLaws() && t.Products()
    ensures WordAt(MixColumns(t, ShiftRows(SubBytes(t, s))), 12) == SubMixColumn(t, s[12], s[1], s[6], s[11])
  {
    ShiftedColumn3(t, s);
    MixedColumn(t, ShiftRows(SubBytes(t, s)), 3);
    SubMixColumnMixes(t, s[12], s[1], s[6], s[11]);
  }

  lemma SubMixedBlock(t: Tables, s: Block, r: Block)
    requires t.XorLaws() && t.Products()
    requires WordAt(r, 0) == SubMixColumn(t, s[0], s[5], s[10], s[15])
    requires WordAt(r, 4) == SubMixColumn(t, s[4], s[9], s[14], s[3])
    requires WordAt(r, 8) == SubMixColumn(t, s[8], s[13], s[2], s[7])
    requires WordAt(r, 12) == SubMixColumn(t, s[12], s[1], s[6], s[11])
    ensures r == MixColumns(t, ShiftRows(SubBytes(t, s)))
  {
    SubMixedColumn0(t, s);
    SubMixedColumn1(t, s);
    SubMixedColumn2(t, s);
    SubMixedColumn3(t, s);
    SameColumns(r, MixColumns(t, ShiftRows(SubBytes(t, s))));
  }

  /** Stores the four bytes of a word at four places of a buffer. */
  method Scatter(buf: array<Byte>, i: nat, j: nat, k: nat, l: nat, w: Word)
    requires i < buf.Length && j < buf.Length && k < buf.Length && l < buf.Length
    requires i != j && i != k && i != l && j != k && j != l && k != l
    modifies buf
    ensures buf[i] == w.b0 && buf[j] == w.b1 && buf[k] == w.b2 && buf[l] == w.b3
    ensures forall m | 0 <= m < buf.Length && m != i && m != j && m != k && m != l :: buf[m] == old(buf[m])
  {
    buf[i] := w.b0;
    buf[j] := w.b1;
    buf[k] := w.b2;
    buf[l] := w.b3;
  }

  method StoreColumns(buf: array<Byte>, w0: Word, w1: Word, w2: Word, w3: Word)
    requires buf.Length == 16
    modifies buf
    ensures WordAt(buf[..], 0) == w0 && WordAt(buf[..], 4) == w1
    ensures WordAt(buf[..], 8) == w2 && WordAt(buf[..], 12) == w3
  {
    Scatter(buf, 0, 1, 2, 3, w0);
    Scatter(buf, 4, 5, 6, 7, w1);
    Scatter(buf, 8, 9, 10, 11, w2);
    Scatter(buf, 12, 13, 14, 15, w3);
  }

  method SubMixedWord(t: Tables, state: array<Byte>, i: nat, j: nat, k: nat, l: nat) returns (w: Word)
    requires i < state.Length && j < state.Length && k < state.Length && l < state.Length
    ensures w == SubMixColumn(t, state[..][i], state[..][j], state[..][k], state[..][l])
  {
    w := Word(Xor4(t, t.S2(state[i]), t.S3(state[j]), t.S(state[k]), t.S(state[l])),
              Xor4(t, t.S(state[i]), t.S2(state[j]), t.S3(state[k]), t.S(state[l])),
              Xor4(t, t.S(state[i]), t.S(state[j]), t.S2(state[k]), t.S3(state[l])),
              Xor4(t, t.S3(state[i]), t.S(state[j]), t.S(state[k]), t.S2(state[l])));
  }

  /** SubBytes, ShiftRows and MixColumns, a column at a time. */
  method MixSubColumns(t: Tables, state: array<Byte>)
    requires state.Length == 16 && t.XorLaws() && t.Products()
    modifies state
    ensures state[..] == MixColumns(t, ShiftRows(SubBytes(t, old(state[..]))))
  {
    var w0 := SubMixedWord(t, state, 0, 5, 10, 15);
    var w1 := SubMixedWord(t, state, 4, 9, 14, 3);
    var w2 := SubMixedWord(t, state, 8, 13, 2, 7);
    var w3 := SubMixedWord(t, state, 12, 1, 6, 11);
    var tmp := new Byte[16](_ => Byte(0));
    StoreColumns(tmp, w0, w1, w2, w3);
    SubMixedBlock(t, state[..], tmp[..]);
    CopyBlock(tmp, state);
  }

  // Decryption steps

  lemma Unshifted(v: Block, r: Block)
    requires WordAt(v, 0) == Word(r[0], r[5], r[10], r[15])
    requires WordAt(v, 4) == Word(r[4], r[9], r[14], r[3])
    requires WordAt(v, 8) == Word(r[8], r[13], r[2], r[7])
    requires WordAt(v, 12) == Word(r[12], r[1], r[6], r[11])
    ensures r == InvShiftRows(v)
  {
    var q := InvShiftRows(v);
    assert WordAt(q, 0) == Word(v[0], v[13], v[10], v[7]);
    assert WordAt(q, 4) == Word(v[4], v[1], v[14], v[11]);
    assert WordAt(q, 8) == Word(v[8], v[5], v[2], v[15]);
    assert WordAt(q, 12) == Word(v[12], v[9], v[6], v[3]);
    SameColumns(r, q);
  }

  lemma TableUnmixed(t: Tables, s: Block, c: nat)
    requires t.XorLaws() && t.Products() && c < 4
    ensures WordAt(InvMixColumns(t, s), 4 * c) == TableUnmixColumn(t, s[4 * c], s[4 * c + 1], s[4 * c + 2], s[4 * c + 3])
  {
    UnmixedColumn(t, s, c);
    TableUnmixColumnUnmixes(t, s[4 * c], s[4 * c + 1], s[4 * c + 2], s[4 * c + 3]);
  }

  lemma TableUnmixedBlock(t: Tables, s: Block, r: Block)
    requires t.XorLaws() && t.Products()
    requires Word(r[0], r[5], r[10], r[15]) == TableUnmixColumn(t, s[0], s[1], s[2], s[3])
    requires Word(r[4], r[9], r[14], r[3]) == TableUnmixColumn(t, s[4], s[5], s[6], s[7])
    requires Word(r[8], r[13], r[2], r[7]) == TableUnmixColumn(t, s[8], s[9], s[10], s[11])
    requires Word(r[12], r[1], r[6], r[11]) == TableUnmixColumn(t, s[12], s[13], s[14], s[15])
    ensures r == InvShiftRows(InvMixColumns(t, s))
  {
    TableUnmixed(t, s, 0);
    TableUnmixed(t, s, 1);
    TableUnmixed(t, s, 2);
    TableUnmixed(t, s, 3);
    Unshifted(InvMixColumns(t, s), r);
  }

  method UnmixedWord(t: Tables, state: array<Byte>, i: nat, j: nat, k: nat, l: nat) returns (w: Word)
    requires i < state.Length && j < state.Length && k < state.Length && l < state.Length
    ensures w == TableUnmixColumn(t, state[..][i], state[..][j], state[..][k], state[..][l])
  {
    w := Word(Xor4(t, t.XE(state[i]), t.XB(state[j]), t.XD(state[k]), t.X9(state[l])),
              Xor4(t, t.X9(state[i]), t.XE(state[j]), t.XB(state[k]), t.XD(state[l])),
              Xor4(t, t.XD(state[i]), t.X9(state[j]), t.XE(state[k]), t.XB(state[l])),
              Xor4(t, t.XB(state[i]), t.XD(state[j]), t.X9(state[k]), t.XE(state[l])));
  }

  method UnmixedWords(t: Tables, state: array<Byte>) returns (w0: Word, w1: Word, w2: Word, w3: Word)
    requires state.Length == 16
    ensures var s := state[..];
            && w0 == TableUnmixColumn(t, s[0], s[1], s[2], s[3])
            && w1 == TableUnmixColumn(t, s[4], s[5], s[6], s[7])
            && w2 == TableUnmixColumn(t, s[8], s[9], s[10], s[11])
            && w3 == TableUnmixColumn(t, s[12], s[13], s[14], s[15])
  {
    w0 := UnmixedWord(t, state, 0, 1, 2, 3);
    w1 := UnmixedWord(t, state, 4, 5, 6, 7);
    w2 := UnmixedWord(t, state, 8, 9, 10, 11);
    w3 := UnmixedWord(t, state, 12, 13, 14, 15);
  }

  /** InvMixColumns and InvShiftRows, out of place. */
  method UnmixInto(t: Tables, state: array<Byte>, tmp: array<Byte>)
    requires t.XorLaws() && t.Products() && state.Length == 16 && tmp.Length == 16 && tmp != state
    modifies tmp
    ensures tmp[..] == InvShiftRows(InvMixColumns(t, state[..]))
  {
    var w0, w1, w2, w3 := UnmixedWords(t, state);
    ghost var s := state[..];
    StoreDiagonals(tmp, w0, w1, w2, w3);
    TableUnmixedBlock(t, s, tmp[..]);
    assert state[..] == s;
  }

  method InvMixSubColumns(t: Tables, state: array<Byte>)
    requires state.Length == 16 && t.XorLaws() && t.Products()
    modifies state
    ensures state[..] == InvSubBytes(t, InvShiftRows(InvMixColumns(t, old(state[..]))))
  {
    var tmp := new Byte[16](_ => Byte(0));
    UnmixInto(t, state, tmp);
    InvSubstitute(t, tmp, state);
  }

  method StoreDiagonals(buf: array<Byte>, w0: Word, w1: Word, w2: Word, w3: Word)
    requires buf.Length == 16
    modifies buf
    ensures w0 == Word(buf[..][0], buf[..][5], buf[..][10], buf[..][15])
    ensures w1 == Word(buf[..][4], buf[..][9], buf[..][14], buf[..][3])
    ensures w2 == Word(buf[..][8], buf[..][13], buf[..][2], buf[..][7])
    ensures w3 == Word(buf[..][12], buf[..][1], buf[..][6], buf[..][11])
  {
    Scatter(buf, 0, 5, 10, 15, w0);
    Scatter(buf, 4, 9, 14, 3, w1);
    Scatter(buf, 8, 13, 2, 7, w2);
    Scatter(buf, 12, 1, 6, 11, w3);
  }

  method InvSubstitute(t: Tables, tmp: array<Byte>, state: array<Byte>)
    requires tmp.Length == 16 && state.Length == 16 && tmp != state
    modifies state
    ensures state[..] == InvSubBytes(t, tmp[..])
  {
    for i := 0 to 16
      invariant forall j | 0 <= j < i :: state[j] == t.InvS(tmp[j])
    {
      state[i] := t.InvS(tmp[i]);
    }
  }

  // The block routines

  /** One round, from the state `d`. */
  function Advanced(t: Tables, d: Block, w: seq<Byte>, k: nat): Block
    requires 16 * (k + 1) <= |w|
  {
    AddRoundKey(t, MixColumns(t, ShiftRows(SubBytes(t, d))), w, k)
  }

  /** The last round, which mixes no columns. */
  function Finished(t: Tables, d: Block, w: seq<Byte>, k: nat): Block
    requires 16 * (k + 1) <= |w|
  {
    AddRoundKey(t, ShiftRows(SubBytes(t, d)), w, k)
  }

  ghost predicate FollowsAt<S>(step: (S, nat) -> S, run: seq<S>, k: nat)
    requires k + 1 < |run|
  {
    run[k + 1] == step(run[k], k + 1)
  }

  /** Each of the states of `run` leads to the next by `step`. */
  ghost predicate Run<S>(step: (S, nat) -> S, run: seq<S>) {
    0 < |run| && forall k | 0 <= k < |run| - 1 :: FollowsAt(step, run, k)
  }

  lemma RunOn<S>(step: (S, nat) -> S, run: seq<S>, d: S)
    requires Run(step, run) && d == step(run[|run| - 1], |run|)
    ensures Run(step, run + [d])
  {
    forall k | 0 <= k < |run|
      ensures FollowsAt(step, run + [d], k)
    {
      if k < |run| - 1 {
        assert FollowsAt(step, run, k);
      }
    }
  }

  lemma {:induction false} RunsAgree<S>(step: (S, nat) -> S, run: seq<S>, run': seq<S>, k: nat)
    requires Run(step, run) && Run(step, run') && run[0] == run'[0] && k < |run| && k < |run'|
    ensures run[k] == run'[k]
  {
    if k > 0 {
      RunsAgree(step, run, run', k - 1);
      assert FollowsAt(step, run, k - 1);
      assert FollowsAt(step, run', k - 1);
    }
  }

  /** A round for every key there is. */
  function Rounds(t: Tables, w: seq<Byte>): (Block, nat) -> Block {
    (d: Block, k: nat) => if 16 * (k + 1) <= |w| then Advanced(t, d, w, k) else d
  }

  /** The run has come to the state `d`. */
  ghost predicate Reached(t: Tables, w: seq<Byte>, run: seq<Block>, d: Block) {
    Run(Rounds(t, w), run) && |run| > 0 && d == run[|run| - 1]
  }

  /** The last round has led to `d`. */
  ghost predicate Ended(t: Tables, w: seq<Byte>, run: seq<Block>, d: Block) {
    && Run(Rounds(t, w), run)
    && |run| > 0 && 16 * (|run| + 1) <= |w| && d == Finished(t, run[|run| - 1], w, |run|)
  }

  lemma OneRoundMore(t: Tables, w: seq<Byte>, run: seq<Block>, d: Block)
    requires Run(Rounds(t, w), run) && |run| > 0 && 16 * (|run| + 1) <= |w|
    requires d == Advanced(t, run[|run| - 1], w, |run|)
    ensures Reached(t, w, run + [d], d)
  {
    RunOn(Rounds(t, w), run, d);
  }

  lemma RoundFollows(t: Tables, s: Block, w: seq<Byte>, run: seq<Block>, k: nat)
    requires k + 1 < |run| && 16 * (k + 2) <= |w|
    requires run[k] == Round(t, s, w, k) && run[k + 1] == Round(t, s, w, k + 1)
    ensures FollowsAt(Rounds(t, w), run, k)
  {
  }

  lemma RoundsAreRun(t: Tables, s: Block, w: seq<Byte>, run: seq<Block>)
    requires 0 < |run| && 16 * |run| <= |w|
    requires forall k | 0 <= k < |run| :: run[k] == Round(t, s, w, k)
    ensures Run(Rounds(t, w), run)
  {
    forall k | 0 <= k < |run| - 1
      ensures FollowsAt(Rounds(t, w), run, k)
    {
      RoundFollows(t, s, w, run, k);
    }
  }

  lemma RoundStates(t: Tables, s: Block, w: seq<Byte>, n: nat) returns (run: seq<Block>)
    requires 0 < n && 16 * n <= |w|
    ensures |run| == n && Run(Rounds(t, w), run)
    ensures run[0] == Round(t, s, w, 0) && run[n - 1] == Round(t, s, w, n - 1)
  {
    run := seq(n, k requires 0 <= k < n => Round(t, s, w, k));
    RoundsAreRun(t, s, w, run);
  }

  lemma RunEndsIn(t: Tables, s: Block, w: seq<Byte>, run: seq<Block>)
    requires Run(Rounds(t, w), run) && 0 < |run| && 16 * |run| <= |w| && run[0] == Round(t, s, w, 0)
    ensures run[|run| - 1] == Round(t, s, w, |run| - 1)
  {
    var run' := RoundStates(t, s, w, |run|);
    RunsAgree(Rounds(t, w), run, run', |run| - 1);
  }

  lemma CipherIs(t: Tables, s: Block, w: seq<Byte>, run: seq<Block>, d: Block)
    requires Ended(t, w, run, d) && run[0] == AddRoundKey(t, s, w, 0)
    ensures d == Cipher(t, s, w, |run|)
  {
    RunEndsIn(t, s, w, run);
  }

  /** aes_blockenc_NOacc */
  method EncryptPlain(t: Tables, src: array<Byte>, out: array<Byte>, expkey: array<Byte>)
    requires t.Valid() && src.Length == 16 && out.Length == 16 && expkey.Length == 16 * (NR + 1) && out != expkey
    modifies out
    ensures out[..] == Cipher(t, old(src[..]), expkey[..], NR)
  {
    ghost var s: Block := src[..];
    CopyBlock(src, out);
    AddRoundKeyInPlace(t, out, expkey, 0);
    ghost var run := PlainRounds(t, out, expkey);
    CipherIs(t, s, expkey[..], run, out[..]);
  }

  /** Its loop: all rounds after the first key addition. */
  method PlainRounds(t: Tables, out: array<Byte>, expkey: array<Byte>) returns (ghost run: seq<Block>)
    requires t.Valid() && out.Length == 16 && expkey.Length == 16 * (NR + 1) && out != expkey
    modifies out
    ensures |run| == NR && run[0] == old(out[..]) && Ended(t, expkey[..], run, out[..])
  {
    run := [out[..]];
    ghost var w := expkey[..];
    var round := 1;
    while round < NR + 1
      invariant 1 <= round <= NR + 1
      invariant expkey[..] == w
      invariant |run| == (if round <= NR then round else NR) && run[0] == old(out[..])
      invariant if round <= NR then Reached(t, w, run, out[..]) else Ended(t, w, run, out[..])
    {
      run := PlainRound(t, out, expkey, round, run);
      round := round + 1;
    }
  }

  method PlainRound(t: Tables, out: array<Byte>, expkey: array<Byte>, round: nat, ghost run: seq<Block>)
    returns (ghost run': seq<Block>)
    requires t.Valid() && out.Length == 16 && expkey.Length == 16 * (NR + 1) && out != expkey && 1 <= round <= NR
    requires |run| == round && Reached(t, expkey[..], run, out[..])
    modifies out
    ensures round < NR ==> |run'| == round + 1 && Reached(t, expkey[..], run', out[..]) && run'[0] == run[0]
    ensures round == NR ==> run' == run && Ended(t, expkey[..], run, out[..])
  {
    run' := run;
    ghost var w := expkey[..];
    if round < NR {
      MixSubColumns(t, out);
      AddRoundKeyInPlace(t, out, expkey, round);
      OneRoundMore(t, w, run, out[..]);
      run' := run + [out[..]];
    } else {
      SubShiftRows(t, out);
      AddRoundKeyInPlace(t, out, expkey, round);
    }
  }

  /** Decrypt */
  method Decrypt(t: Tables, src: array<Byte>, expkey: array<Byte>, out: array<Byte>)
    requires t.Valid() && src.Length == 16 && out.Length == 16 && expkey.Length == 16 * (NR + 1) && out != expkey
    modifies out
    ensures out[..] == InvCipher(t, old(src[..]), expkey[..], NR)
  {
    CopyBlock(src, out);
    AddRoundKeyInPlace(t, out, expkey, NR);
    ghost var s: Block := out[..];
    InvSubShiftRows(t, out);
    var round := NR;
    while round > 0
      invariant 0 <= round <= NR
      invariant expkey[..] == old(expkey[..])
      invariant round > 0 ==> out[..] == InvSubBytes(t, InvShiftRows(s))
      invariant round > 0 ==> InvRounds(t, s, expkey[..], round - 1) == InvCipher(t, old(src[..]), expkey[..], NR)
      invariant round == 0 ==> out[..] == InvCipher(t, old(src[..]), expkey[..], NR)
    {
      round := round - 1;
      AddRoundKeyInPlace(t, out, expkey, round);
      if round != 0 {
        s := InvMixColumns(t, out[..]);
        InvMixSubColumns(t, out);
      }
    }
  }

  // The table-driven encryptor

  /** One word of a round out of the four 1024-byte tables. */
  function TableColumn(t: Tables, a: Byte, b: Byte, c: Byte, d: Byte): Word {
    t.XorWords(t.XorWords(t.XorWords(t.T0(a), t.T1(b)), t.T2(c)), t.T3(d))
  }

  lemma TableColumnIsSubMix(t: Tables, a: Byte, b: Byte, c: Byte, d: Byte)
    requires t.Columns()
    ensures TableColumn(t, a, b, c, d) == SubMixColumn(t, a, b, c, d)
  {
  }

  method TableWord(t: Tables, dest: array<Byte>, i: nat, j: nat, k: nat, l: nat) returns (w: Word)
    requires t.Columns()
    requires i < dest.Length && j < dest.Length && k < dest.Length && l < dest.Length
    ensures w == SubMixColumn(t, dest[..][i], dest[..][j], dest[..][k], dest[..][l])
  {
    w := t.XorWords(t.XorWords(t.XorWords(t.T0(dest[i]), t.T1(dest[j])), t.T2(dest[k])), t.T3(dest[l]));
    TableColumnIsSubMix(t, dest[i], dest[j], dest[k], dest[l]);
  }

  method TableWords(t: Tables, dest: array<Byte>) returns (w0: Word, w1: Word, w2: Word, w3: Word)
    requires t.Columns() && dest.Length == 16
    ensures var s := dest[..];
            && w0 == SubMixColumn(t, s[0], s[5], s[10], s[15])
            && w1 == SubMixColumn(t, s[4], s[9], s[14], s[3])
            && w2 == SubMixColumn(t, s[8], s[13], s[2], s[7])
            && w3 == SubMixColumn(t, s[12], s[1], s[6], s[11])
  {
    w0 := TableWord(t, dest, 0, 5, 10, 15);
    w1 := TableWord(t, dest, 4, 9, 14, 3);
    w2 := TableWord(t, dest, 8, 13, 2, 7);
    w3 := TableWord(t, dest, 12, 1, 6, 11);
  }

  /** The round's table lookups, into `temp`, whose first four words are used. */
  method TableRound(t: Tables, dest: array<Byte>, temp: array<Byte>)
    requires t.Valid() && dest.Length == 16 && temp.Length == 16 && temp != dest
    modifies temp
    ensures temp[..] == MixColumns(t, ShiftRows(SubBytes(t, dest[..])))
  {
    var w0, w1, w2, w3 := TableWords(t, dest);
    ghost var s := dest[..];
    StoreColumns(temp, w0, w1, w2, w3);
    SubMixedBlock(t, s, temp[..]);
    assert dest[..] == s;
  }

  /** SubBytes and ShiftRows of the last round: byte i comes from byte (5 * i) & 0x0f. */
  method LastRound(t: Tables, dest: array<Byte>, temp: array<Byte>)
    requires dest.Length == 16 && temp.Length == 16 && temp != dest
    modifies temp
    ensures temp[..] == ShiftRows(SubBytes(t, dest[..]))
  {
    for i := 0 to 16
      invariant forall j | 0 <= j < i :: temp[j] == t.S(dest[(j * 5) % 16])
    {
      temp[i] := t.S(dest[(i * 5) % 16]);
    }
    LastRoundPermutation(t, dest[..], temp[..]);
  }

  lemma TimesFive(j: nat)
    requires j < 16
    ensures (j * 5) % 16 == 4 * Right(j / 4, j % 4) + j % 4
  {
  }

  lemma LastRoundPermutation(t: Tables, s: Block, r: Block)
    requires forall j | 0 <= j < 16 :: r[j] == t.S(s[(j * 5) % 16])
    ensures r == ShiftRows(SubBytes(t, s))
  {
    forall j | 0 <= j < 16
      ensures r[j] == ShiftRows(SubBytes(t, s))[j]
    {
      TimesFive(j);
    }
  }

  /** dest = src ^ round key k, a word at a time; `src` may be `dest`. */
  method XorRoundKey(t: Tables, dest: array<Byte>, src: array<Byte>, keyexp: array<Byte>, k: nat)
    requires dest.Length == 16 && src.Length == 16 && 16 * (k + 1) <= keyexp.Length && dest != keyexp
    modifies dest
    ensures dest[..] == AddRoundKey(t, old(src[..]), keyexp[..], k)
  {
    for idx := 0 to 4
      invariant forall i | 0 <= i < 4 * idx :: dest[i] == t.Xor(old(src[i]), keyexp[16 * k + i])
      invariant forall i | 4 * idx <= i < 16 :: src[i] == old(src[i])
    {
      XorWordFrom(t, dest, src, 4 * idx, keyexp, 16 * k + 4 * idx);
    }
  }

  method XorWordFrom(t: Tables, dest: array<Byte>, src: array<Byte>, i: nat, key: array<Byte>, j: nat)
    requires i + 4 <= dest.Length == src.Length && j + 4 <= key.Length && dest != key
    modifies dest
    ensures forall m | i <= m < i + 4 :: dest[m] == t.Xor(old(src[m]), key[m - i + j])
    ensures forall m | 0 <= m < i || i + 4 <= m < dest.Length :: dest[m] == old(dest[m])
  {
    StoreWord(dest, i, t.XorWords(WordAt(src[..], i), WordAt(key[..], j)));
  }

  /** One pass of the main loop. */
  method RoundOnTables(t: Tables, dest: array<Byte>, temp: array<Byte>, keyexp: array<Byte>, i: nat, ghost run: seq<Block>)
    returns (ghost run': seq<Block>)
    requires t.Valid() && dest.Length == 16 && temp.Length == 16 && 16 * (i + 1) <= keyexp.Length
    requires temp != dest && dest != keyexp && temp != keyexp
    requires 0 < |run| == i && Reached(t, keyexp[..], run, dest[..])
    modifies dest, temp
    ensures |run'| == i + 1 && run'[0] == run[0] && Reached(t, keyexp[..], run', dest[..])
  {
    ghost var w := keyexp[..];
    TableRound(t, dest, temp);
    XorRoundKey(t, dest, temp, keyexp, i);
    OneRoundMore(t, w, run, dest[..]);
    run' := run + [dest[..]];
  }

  method LastRoundOnTables(t: Tables, dest: array<Byte>, temp: array<Byte>, keyexp: array<Byte>, i: nat)
    requires dest.Length == 16 && temp.Length == 16 && 16 * (i + 1) <= keyexp.Length
    requires temp != dest && dest != keyexp && temp != keyexp
    modifies dest, temp
    ensures dest[..] == Finished(t, old(dest[..]), keyexp[..], i)
  {
    LastRound(t, dest, temp);
    XorRoundKey(t, dest, temp, keyexp, i);
    ClearWords(temp);
  }

  /** The main loop of aes_blockenc_SWacc. */
  method RoundsOnTables(t: Tables, dest: array<Byte>, temp: array<Byte>, keyexp: array<Byte>) returns (ghost run: seq<Block>)
    requires t.Valid() && dest.Length == 16 && temp.Length == 16 && keyexp.Length == 16 * (NR + 1)
    requires temp != dest && dest != keyexp && temp != keyexp
    modifies dest, temp
    ensures |run| == NR && run[0] == old(dest[..]) && Reached(t, keyexp[..], run, dest[..])
  {
    run := [dest[..]];
    ghost var w := keyexp[..];
    var i := 1;
    while i < NR
      invariant 1 <= i <= NR && |run| == i
      invariant keyexp[..] == w
      invariant Reached(t, w, run, dest[..]) && run[0] == old(dest[..])
    {
      run := RoundOnTables(t, dest, temp, keyexp, i, run);
      i := i + 1;
    }
  }

  /** aes_blockenc_SWacc */
  method EncryptTables(t: Tables, src: array<Byte>, dest: array<Byte>, keyexp: array<Byte>)
    requires t.Valid() && src.Length == 16 && dest.Length == 16 && keyexp.Length == 16 * (NR + 1) && dest != keyexp
    modifies dest
    ensures dest[..] == Cipher(t, old(src[..]), keyexp[..], NR)
  {
    ghost var s: Block := src[..];
    var temp := new Byte[16](_ => Byte(0));
    XorRoundKey(t, dest, src, keyexp, 0);
    ghost var run := RoundsOnTables(t, dest, temp, keyexp);
    LastRoundOnTables(t, dest, temp, keyexp, NR);
    CipherIs(t, s, keyexp[..], run, dest[..]);
  }

  method ClearWords(temp: array<Byte>)
    requires temp.Length == 16
    modifies temp
    ensures forall i | 0 <= i < 16 :: temp[i] == Byte(0)
  {
    var zero := Word(Byte(0), Byte(0), Byte(0), Byte(0));
    StoreWord(temp, 0, zero);
    StoreWord(temp, 4, zero);
    StoreWord(temp, 8, zero);
    StoreWord(temp, 12, zero);
  }

  // The two key expansions

  /** The round constant for the next round key, by shifts and masks. */
  method StepRcon(t: Tables, r: Byte) returns (r': Byte)
    requires t.Doubles()
    ensures r' == t.X(r)
  {
    r' := Byte(NextRcon(r.v));
    assert t.DoubleAt(r);
    NextRconIsXtime(r.v);
  }

  /** Stores word `n` of the expansion. */
  method StoreNext(t: Tables, ghost key: Block, keyexp: array<Byte>, n: nat, w: Word)
    requires 4 * n + 4 <= keyexp.Length
    requires Expands(t, key, keyexp[..], n) && w == ExpandedWord(t, key, n)
    modifies keyexp
    ensures Expands(t, key, keyexp[..], n + 1)
  {
    ghost var v := keyexp[..];
    StoreWord(keyexp, 4 * n, w);
    ExpandsNext(t, key, v, keyexp[..], n);
  }

  /** The first word of a round key: p is the word four back, q the word before. */
  function FirstWord(t: Tables, p: Word, q: Word, rcon: Byte): Word {
    Word(t.Xor(t.Xor(p.b0, t.S(q.b1)), rcon), t.Xor(p.b1, t.S(q.b2)), t.Xor(p.b2, t.S(q.b3)), t.Xor(p.b3, t.S(q.b0)))
  }

  lemma PreviousWords(t: Tables, key: Block, v: seq<Byte>, n: nat)
    requires 4 <= n && Expands(t, key, v, n)
    ensures WordAt(v, 4 * n - 16) == ExpandedWord(t, key, n - 4)
    ensures WordAt(v, 4 * n - 4) == ExpandedWord(t, key, n - 1)
  {
    assert WordAt(v, 4 * (n - 4)) == ExpandedWord(t, key, n - 4);
    assert WordAt(v, 4 * (n - 1)) == ExpandedWord(t, key, n - 1);
  }

  lemma FirstWordExpands(t: Tables, key: Block, v: seq<Byte>, n: nat)
    requires t.XorLaws() && 4 <= n && n % 4 == 0 && Expands(t, key, v, n)
    ensures FirstWord(t, WordAt(v, 4 * n - 16), WordAt(v, 4 * n - 4), Rcon(t, n / 4)) == ExpandedWord(t, key, n)
  {
    PreviousWords(t, key, v, n);
    RoundKeyWord(t, key, n);
  }

  lemma OtherWordExpands(t: Tables, key: Block, v: seq<Byte>, n: nat)
    requires 4 <= n && n % 4 != 0 && Expands(t, key, v, n)
    ensures t.XorWords(WordAt(v, 4 * n - 16), WordAt(v, 4 * n - 4)) == ExpandedWord(t, key, n)
  {
    PreviousWords(t, key, v, n);
  }

  /** Steps of aes_keyexpand128 for the first word and for each other word of a round key. */
  method ExpandFirst(t: Tables, ghost key: Block, keyexp: array<Byte>, n: nat, rcon: Byte)
    requires t.XorLaws() && 4 <= n && n % 4 == 0 && 4 * n + 4 <= keyexp.Length
    requires Expands(t, key, keyexp[..], n) && rcon == Rcon(t, n / 4)
    modifies keyexp
    ensures Expands(t, key, keyexp[..], n + 1)
  {
    FirstWordExpands(t, key, keyexp[..], n);
    StoreNext(t, key, keyexp, n, FirstWord(t, WordAt(keyexp[..], 4 * n - 16), WordAt(keyexp[..], 4 * n - 4), rcon));
  }

  method ExpandXor(t: Tables, ghost key: Block, keyexp: array<Byte>, n: nat)
    requires 4 <= n && n % 4 != 0 && 4 * n + 4 <= keyexp.Length
    requires Expands(t, key, keyexp[..], n)
    modifies keyexp
    ensures Expands(t, key, keyexp[..], n + 1)
  {
    OtherWordExpands(t, key, keyexp[..], n);
    StoreNext(t, key, keyexp, n, t.XorWords(WordAt(keyexp[..], 4 * n - 16), WordAt(keyexp[..], 4 * n - 4)));
  }

  /** The key itself, copied a word at a time. */
  method CopyKey(t: Tables, key: array<Byte>, keyexp: array<Byte>)
    requires key.Length == 16 && 16 <= keyexp.Length && key != keyexp
    modifies keyexp
    ensures Expands(t, key[..], keyexp[..], 4)
  {
    for i := 0 to 4
      invariant forall j | 0 <= j < 4 * i :: keyexp[j] == key[j]
    {
      StoreWord(keyexp, 4 * i, WordAt(key[..], 4 * i));
    }
  }

  /** aes_keyexpand128: sixteen bytes a step. */
  method KeyExpand128(t: Tables, key: array<Byte>, keyexp: array<Byte>)
    requires t.Valid() && key.Length == 16 && keyexp.Length == 16 * (NR + 1) && key != keyexp
    modifies keyexp
    ensures Expands(t, key[..], keyexp[..], NB * (NR + 1)) && keyexp[..][..16] == key[..]
  {
    ghost var k: Block := key[..];
    CopyKey(t, key, keyexp);
    var rcon := Byte(1);
    var i := 1;
    while i < 11
      invariant 1 <= i <= 11
      invariant rcon == Rcon(t, i)
      invariant Expands(t, k, keyexp[..], 4 * i)
      invariant key[..] == k
    {
      ExpandFirst(t, k, keyexp, 4 * i, rcon);
      rcon := StepRcon(t, rcon);
      ExpandXor(t, k, keyexp, 4 * i + 1);
      ExpandXor(t, k, keyexp, 4 * i + 2);
      ExpandXor(t, k, keyexp, 4 * i + 3);
      i := i + 1;
    }
    ScheduleBeginsWithKey(t, k, keyexp[..], NB * (NR + 1));
  }

  const RCON: seq<bv8> := [0x00, 0x01, 0x02, 0x04, 0x08, 0x10, 0x20, 0x40, 0x80, 0x1b, 0x36]

  lemma {:induction false} RconTable(t: Tables, i: nat)
    requires t.Doubles() && 1 <= i <= 10
    ensures Rcon(t, i) == Byte(RCON[i])
  {
    if i > 1 {
      RconTable(t, i - 1);
      assert t.DoubleAt(Byte(RCON[i - 1]));
      assert i == 2 || i == 3 || i == 4 || i == 5 || i == 6 || i == 7 || i == 8 || i == 9 || i == 10;
    }
  }

  /** ExpandKey: a word a step, the round constants out of a table. */
  method ExpandKey(t: Tables, key: array<Byte>, expkey: array<Byte>)
    requires t.Valid() && key.Length == 16 && expkey.Length == 16 * (NR + 1) && key != expkey
    modifies expkey
    ensures Expands(t, key[..], expkey[..], NB * (NR + 1)) && expkey[..][..16] == key[..]
  {
    ghost var k: Block := key[..];
    CopyKeyBytes(t, key, expkey);
    var idx := NK;
    while idx < NB * (NR + 1)
      invariant NK <= idx <= NB * (NR + 1)
      invariant Expands(t, k, expkey[..], idx)
      invariant key[..] == k
    {
      var tmp := WordAt(expkey[..], 4 * idx - 4);
      if idx % NK == 0 {
        RconTable(t, idx / NK);
        TableFirstExpands(t, k, expkey[..], idx);
        tmp := TableFirst(t, tmp, Byte(RCON[idx / NK]));
      } else {
        OtherWordExpands(t, k, expkey[..], idx);
      }
      StoreNext(t, k, expkey, idx, t.XorWords(WordAt(expkey[..], 4 * idx - 4 * NK), tmp));
      idx := idx + 1;
    }
    ScheduleBeginsWithKey(t, k, expkey[..], NB * (NR + 1));
  }

  method CopyKeyBytes(t: Tables, key: array<Byte>, expkey: array<Byte>)
    requires key.Length == 16 && 16 <= expkey.Length && key != expkey
    modifies expkey
    ensures Expands(t, key[..], expkey[..], 4)
  {
    for i := 0 to 16
      invariant forall j | 0 <= j < i :: expkey[j] == key[j]
    {
      expkey[i] := key[i];
    }
  }

  function TableFirst(t: Tables, q: Word, rcon: Byte): Word {
    Word(t.Xor(t.S(q.b1), rcon), t.S(q.b2), t.S(q.b3), t.S(q.b0))
  }

  lemma TableFirstExpands(t: Tables, key: Block, v: seq<Byte>, n: nat)
    requires t.XorLaws() && 4 <= n && n % 4 == 0 && Expands(t, key, v, n)
    ensures t.XorWords(WordAt(v, 4 * n - 16), TableFirst(t, WordAt(v, 4 * n - 4), Rcon(t, n / 4))) == ExpandedWord(t, key, n)
  {
    PreviousWords(t, key, v, n);
    TableFirstIs(t, ExpandedWord(t, key, n - 1), Rcon(t, n / 4));
  }

  lemma TableFirstIs(t: Tables, q: Word, rcon: Byte)
    requires t.XorLaws()
    ensures t.XorWords(SubWord(t, RotWord(q)), Word(rcon, Byte(0), Byte(0), Byte(0))) == TableFirst(t, q, rcon)
  {
    ZeroesVanish(t, SubWord(t, RotWord(q)));
  }

  lemma ZeroesVanish(t: Tables, w: Word)
    requires t.XorLaws()
    ensures t.Xor(w.b1, Byte(0)) == w.b1 && t.Xor(w.b2, Byte(0)) == w.b2 && t.Xor(w.b3, Byte(0)) == w.b3
  {
    assert t.ZeroAt(w.b1) && t.ZeroAt(w.b2) && t.ZeroAt(w.b3);
  }
}
