/** AES-128 on the real tables. */
module AesInstance {
  import opened Gf256
  import opened Fips197
  import opened AesTables
  import opened AesTableFacts
  import opened Aes

  function Unpack(w: bv32): Word {
    Word(Byte(((w >> 24) & 0xff) as bv8), Byte(((w >> 16) & 0xff) as bv8), Byte(((w >> 8) & 0xff) as bv8), Byte((w & 0xff) as bv8))
  }

  lemma UnpackPacked(a: bv8, b: bv8, c: bv8, d: bv8)
    ensures Unpack(Packed(a, b, c, d)) == Word(Byte(a), Byte(b), Byte(c), Byte(d))
  {
  }

  const AESTAB: Tables := Tables(
    (a: Byte, b: Byte) => Byte(Plus(a.v, b.v)), (a: Byte) => Byte(Xtime(a.v)),
    (b: Byte) => Byte(Sbox(b.v)), (b: Byte) => Byte(InvSbox(b.v)),
    (b: Byte) => Byte(Xtime2Sbox(b.v)), (b: Byte) => Byte(Xtime3Sbox(b.v)),
    (b: Byte) => Byte(Xtime9(b.v)), (b: Byte) => Byte(XtimeB(b.v)),
    (b: Byte) => Byte(XtimeD(b.v)), (b: Byte) => Byte(XtimeE(b.v)),
    (b: Byte) => Unpack(SBox0(b.v)), (b: Byte) => Unpack(SBox1(b.v)),
    (b: Byte) => Unpack(SBox2(b.v)), (b: Byte) => Unpack(SBox3(b.v)))

  lemma CancelHolds(a: Byte, b: Byte)
    ensures AESTAB.CancelAt(a, b)
  {
    PlusTwice(a.v, b.v);
  }

  lemma AssociateHolds(a: Byte, b: Byte, c: Byte)
    ensures AESTAB.AssociateAt(a, b, c)
  {
    PlusAssociates(a.v, b.v, c.v);
  }

  lemma ZeroHolds(a: Byte)
    ensures AESTAB.ZeroAt(a)
  {
    PlusZero(a.v);
  }

  lemma XorIs(a: Byte, b: Byte)
    ensures AESTAB.Xor(a, b) == Byte(Plus(a.v, b.v))
  {
  }

  lemma ChainIs(a: Byte, b: Byte, c: Byte, d: Byte)
    ensures AESTAB.Xor(AESTAB.Xor(AESTAB.Xor(a, b), c), d) == Byte(Plus(Plus(Plus(a.v, b.v), c.v), d.v))
  {
    XorIs(a, b);
    XorIs(AESTAB.Xor(a, b), c);
    XorIs(AESTAB.Xor(AESTAB.Xor(a, b), c), d);
  }

  lemma PairsIs(a: Byte, b: Byte, c: Byte, d: Byte)
    ensures AESTAB.Xor(AESTAB.Xor(a, b), AESTAB.Xor(c, d)) == Byte(Plus(Plus(a.v, b.v), Plus(c.v, d.v)))
  {
    XorIs(a, b);
    XorIs(c, d);
    XorIs(AESTAB.Xor(a, b), AESTAB.Xor(c, d));
  }

  lemma RegroupHolds(a: Byte, b: Byte, c: Byte, d: Byte)
    ensures AESTAB.RegroupAt(a, b, c, d)
  {
    ChainIs(a, b, c, d);
    PairsIs(a, b, c, d);
    PairsIs(b, c, d, a);
    PairsIs(c, d, a, b);
    PairsIs(d, a, b, c);
    PlusAssociates(Plus(a.v, b.v), c.v, d.v);
    RotateLeft(a.v, b.v, c.v, d.v);
    RotateTwo(a.v, b.v, c.v, d.v);
    RotateRight(a.v, b.v, c.v, d.v);
  }

  lemma XorLawsHold()
    ensures AESTAB.XorLaws()
  {
    forall a, b { CancelHolds(a, b); }
    forall a, b, c { AssociateHolds(a, b, c); }
    forall a { ZeroHolds(a); }
    forall a, b, c, d { RegroupHolds(a, b, c, d); }
  }

  ghost function XtimeMap(): Linear {
    XtimeIsLinear();
    Xtime
  }

  lemma MixIs(a: Byte, b: Byte, c: Byte, d: Byte)
    ensures AESTAB.Mix(a, b, c, d) == Byte(Mix(XtimeMap(), a.v, b.v, c.v, d.v))
  {
  }

  lemma UnmixIs(a: Byte, b: Byte, c: Byte, d: Byte)
    ensures AESTAB.Unmix(a, b, c, d) == Byte(Unmix(XtimeMap(), a.v, b.v, c.v, d.v))
  {
  }

  lemma UnmixHolds(a: Byte, b: Byte, c: Byte, d: Byte)
    ensures AESTAB.UnmixAt(a, b, c, d)
  {
    MixIs(a, b, c, d);
    MixIs(b, c, d, a);
    MixIs(c, d, a, b);
    MixIs(d, a, b, c);
    UnmixIs(AESTAB.Mix(a, b, c, d), AESTAB.Mix(b, c, d, a), AESTAB.Mix(c, d, a, b), AESTAB.Mix(d, a, b, c));
    UnmixMix(XtimeMap(), a.v, b.v, c.v, d.v);
  }

  lemma MixLawHolds()
    ensures AESTAB.MixLaw()
  {
    forall a, b, c, d { UnmixHolds(a, b, c, d); }
  }

  lemma BoxesHold()
    ensures AESTAB.Boxes()
  {
    forall b: Byte
      ensures AESTAB.InvS(AESTAB.S(b)) == b
    {
      InvSboxAfterSbox(b.v);
    }
    forall b: Byte
      ensures AESTAB.S(AESTAB.InvS(b)) == b
    {
      SboxAfterInvSbox(b.v);
    }
  }

  lemma ProductsHold()
    ensures AESTAB.Products()
  {
    forall b: Byte ensures AESTAB.S2(b) == AESTAB.X(AESTAB.S(b)) { Xtime2SboxIs(b.v); }
    forall b: Byte ensures AESTAB.S3(b) == AESTAB.Times3(AESTAB.S(b)) { Xtime3SboxIs(b.v); }
    forall b: Byte ensures AESTAB.X9(b) == AESTAB.Times9(b) { Xtime9Is(b.v); }
    forall b: Byte ensures AESTAB.XB(b) == AESTAB.TimesB(b) { XtimeBIs(b.v); }
    forall b: Byte ensures AESTAB.XD(b) == AESTAB.TimesD(b) { XtimeDIs(b.v); }
    forall b: Byte ensures AESTAB.XE(b) == AESTAB.TimesE(b) { XtimeEIs(b.v); }
  }

  lemma Column0Is(x: bv8)
    ensures SBox0(x) == Packed(Xtime(Sbox(x)), Sbox(x), Sbox(x), Plus(Xtime(Sbox(x)), Sbox(x)))
  {
    SBox0Is(x);
  }

  lemma Column0Holds(b: Byte)
    ensures AESTAB.T0(b) == Word(AESTAB.S2(b), AESTAB.S(b), AESTAB.S(b), AESTAB.S3(b))
  {
    Column0Is(b.v);
    UnpackPacked(Xtime(Sbox(b.v)), Sbox(b.v), Sbox(b.v), Plus(Xtime(Sbox(b.v)), Sbox(b.v)));
    Xtime2SboxIs(b.v);
    Xtime3SboxIs(b.v);
  }

  lemma Column1Is(x: bv8)
    ensures SBox1(x) == Packed(Plus(Xtime(Sbox(x)), Sbox(x)), Xtime(Sbox(x)), Sbox(x), Sbox(x))
  {
    Column0Is(x);
    SBox1Is(x);
    RotateWordBytes(Xtime(Sbox(x)), Sbox(x), Sbox(x), Plus(Xtime(Sbox(x)), Sbox(x)));
  }

  lemma Column1Holds(b: Byte)
    ensures AESTAB.T1(b) == Word(AESTAB.S3(b), AESTAB.S2(b), AESTAB.S(b), AESTAB.S(b))
  {
    Column1Is(b.v);
    UnpackPacked(Plus(Xtime(Sbox(b.v)), Sbox(b.v)), Xtime(Sbox(b.v)), Sbox(b.v), Sbox(b.v));
    Xtime2SboxIs(b.v);
    Xtime3SboxIs(b.v);
  }

  lemma Column2Is(x: bv8)
    ensures SBox2(x) == Packed(Sbox(x), Plus(Xtime(Sbox(x)), Sbox(x)), Xtime(Sbox(x)), Sbox(x))
  {
    Column1Is(x);
    SBox2Is(x);
    RotateWordBytes(Plus(Xtime(Sbox(x)), Sbox(x)), Xtime(Sbox(x)), Sbox(x), Sbox(x));
  }

  lemma Column2Holds(b: Byte)
    ensures AESTAB.T2(b) == Word(AESTAB.S(b), AESTAB.S3(b), AESTAB.S2(b), AESTAB.S(b))
  {
    Column2Is(b.v);
    UnpackPacked(Sbox(b.v), Plus(Xtime(Sbox(b.v)), Sbox(b.v)), Xtime(Sbox(b.v)), Sbox(b.v));
    Xtime2SboxIs(b.v);
    Xtime3SboxIs(b.v);
  }

  lemma Column3Is(x: bv8)
    ensures SBox3(x) == Packed(Sbox(x), Sbox(x), Plus(Xtime(Sbox(x)), Sbox(x)), Xtime(Sbox(x)))
  {
    Column2Is(x);
    SBox3Is(x);
    RotateWordBytes(Sbox(x), Plus(Xtime(Sbox(x)), Sbox(x)), Xtime(Sbox(x)), Sbox(x));
  }

  lemma Column3Holds(b: Byte)
    ensures AESTAB.T3(b) == Word(AESTAB.S(b), AESTAB.S(b), AESTAB.S3(b), AESTAB.S2(b))
  {
    Column3Is(b.v);
    UnpackPacked(Sbox(b.v), Sbox(b.v), Plus(Xtime(Sbox(b.v)), Sbox(b.v)), Xtime(Sbox(b.v)));
    Xtime2SboxIs(b.v);
    Xtime3SboxIs(b.v);
  }

  lemma ColumnsHold()
    ensures AESTAB.Columns()
  {
    forall b: Byte ensures AESTAB.T0(b) == Word(AESTAB.S2(b), AESTAB.S(b), AESTAB.S(b), AESTAB.S3(b)) { Column0Holds(b); }
    forall b: Byte ensures AESTAB.T1(b) == Word(AESTAB.S3(b), AESTAB.S2(b), AESTAB.S(b), AESTAB.S(b)) { Column1Holds(b); }
    forall b: Byte ensures AESTAB.T2(b) == Word(AESTAB.S(b), AESTAB.S3(b), AESTAB.S2(b), AESTAB.S(b)) { Column2Holds(b); }
    forall b: Byte ensures AESTAB.T3(b) == Word(AESTAB.S(b), AESTAB.S(b), AESTAB.S3(b), AESTAB.S2(b)) { Column3Holds(b); }
  }

  lemma DoublesHold()
    ensures AESTAB.Doubles()
  {
  }

  lemma TablesAreValid()
    ensures AESTAB.Valid()
  {
    XorLawsHold();
    MixLawHolds();
    DoublesHold();
    BoxesHold();
    ProductsHold();
    ColumnsHold();
  }

  /** On the real tables, and for every block and every 176-byte schedule, decryption undoes
      encryption. */
  lemma DecryptionUndoesEncryption(s: Block, w: seq<Byte>)
    requires |w| == 16 * (NR + 1)
    ensures InvCipher(AESTAB, Cipher(AESTAB, s, w, NR), w, NR) == s
  {
    TablesAreValid();
    InvCipherUndoesCipher(AESTAB, s, w, NR);
  }

  /** The combined decryption step undoes the combined encryption step. */
  lemma CombinedStepUndone(s: Block)
    ensures InvSubBytes(AESTAB, InvShiftRows(InvMixColumns(AESTAB, MixColumns(AESTAB, ShiftRows(SubBytes(AESTAB, s)))))) == s
  {
    TablesAreValid();
    InvMixColumnsAfterMixColumns(AESTAB, ShiftRows(SubBytes(AESTAB, s)));
    InvShiftRowsAfterShiftRows(SubBytes(AESTAB, s));
    InvSubBytesAfterSubBytes(AESTAB, s);
  }

  /** ... and so does the code, whatever the state. */
  method MixAndUnmix(block: array<Byte>) returns (state: array<Byte>)
    requires block.Length == 16
    ensures state[..] == block[..]
  {
    TablesAreValid();
    state := new Byte[16](_ => Byte(0));
    CopyBlock(block, state);
    MixSubColumns(AESTAB, state);
    InvMixSubColumns(AESTAB, state);
    CombinedStepUndone(block[..]);
  }

  /** The two key expansions fill the same schedule, the one of section 5.2. */
  method ExpandBothWays(key: array<Byte>) returns (w: array<Byte>, v: array<Byte>)
    requires key.Length == 16
    ensures w.Length == v.Length == 176 && w[..] == v[..] && Expands(AESTAB, key[..], w[..], 44)
  {
    TablesAreValid();
    w := new Byte[176](_ => Byte(0));
    v := new Byte[176](_ => Byte(0));
    ExpandKey(AESTAB, key, w);
    KeyExpand128(AESTAB, key, v);
    ExpansionIsUnique(AESTAB, key[..], v[..], w[..], 44);
  }

  /** The two encryptors give the same block, whatever the block and the schedule. */
  method EncryptBothWays(src: array<Byte>, w: array<Byte>) returns (a: array<Byte>, b: array<Byte>)
    requires src.Length == 16 && w.Length == 176
    ensures a[..] == b[..] == Cipher(AESTAB, src[..], w[..], NR)
  {
    TablesAreValid();
    a := new Byte[16](_ => Byte(0));
    b := new Byte[16](_ => Byte(0));
    EncryptPlain(AESTAB, src, a, w);
    EncryptTables(AESTAB, src, b, w);
  }

  /** Either key expansion, either encryptor, then Decrypt under the other expansion: the block
      comes back. */
  method RoundTrip(key: array<Byte>, src: array<Byte>, wordwise: bool, tables: bool) returns (out: array<Byte>)
    requires key.Length == 16 && src.Length == 16
    ensures out[..] == src[..]
  {
    var w, v := ExpandBothWays(key);
    TablesAreValid();
    if wordwise {
      out := EncryptThenDecrypt(src, w, v, tables);
    } else {
      out := EncryptThenDecrypt(src, v, w, tables);
    }
  }

  method EncryptThenDecrypt(src: array<Byte>, w: array<Byte>, v: array<Byte>, tables: bool) returns (out: array<Byte>)
    requires AESTAB.Valid() && src.Length == 16 && w.Length == v.Length == 176 && w[..] == v[..]
    ensures out[..] == src[..]
  {
    var block := new Byte[16](_ => Byte(0));
    out := new Byte[16](_ => Byte(0));
    if tables {
      EncryptTables(AESTAB, src, block, w);
    } else {
      EncryptPlain(AESTAB, src, block, w);
    }
    Decrypt(AESTAB, block, v, out);
    DecryptionUndoesEncryption(src[..], w[..]);
  }

  // The beginning of the example in appendix B of FIPS 197, whose key and block are those of the main program

  const EXAMPLE_KEY0 := Word(Byte(0x2b), Byte(0x7e), Byte(0x15), Byte(0x16))
  const EXAMPLE_KEY3 := Word(Byte(0x09), Byte(0xcf), Byte(0x4f), Byte(0x3c))

  lemma Box19() ensures AESTAB.S(Byte(0x19)) == Byte(0xd4) { }
  lemma Boxf4() ensures AESTAB.S(Byte(0xf4)) == Byte(0xbf) { }
  lemma Box8d() ensures AESTAB.S(Byte(0x8d)) == Byte(0x5d) { }
  lemma Box08() ensures AESTAB.S(Byte(0x08)) == Byte(0x30) { }
  lemma Boxcf() ensures AESTAB.S(Byte(0xcf)) == Byte(0x8a) { }
  lemma Box4f() ensures AESTAB.S(Byte(0x4f)) == Byte(0x84) { }
  lemma Box3c() ensures AESTAB.S(Byte(0x3c)) == Byte(0xeb) { }
  lemma Box09() ensures AESTAB.S(Byte(0x09)) == Byte(0x01) { }

  lemma Xor322b() ensures AESTAB.Xor(Byte(0x32), Byte(0x2b)) == Byte(0x19) { }
  lemma Xor5aae() ensures AESTAB.Xor(Byte(0x5a), Byte(0xae)) == Byte(0xf4) { }
  lemma Xor9815() ensures AESTAB.Xor(Byte(0x98), Byte(0x15)) == Byte(0x8d) { }
  lemma Xor343c() ensures AESTAB.Xor(Byte(0x34), Byte(0x3c)) == Byte(0x08) { }
  lemma Xor2b8a() ensures AESTAB.Xor(Byte(0x2b), Byte(0x8a)) == Byte(0xa1) { }
  lemma Xora101() ensures AESTAB.Xor(Byte(0xa1), Byte(0x01)) == Byte(0xa0) { }
  lemma Xor7e84() ensures AESTAB.Xor(Byte(0x7e), Byte(0x84)) == Byte(0xfa) { }
  lemma Xor15eb() ensures AESTAB.Xor(Byte(0x15), Byte(0xeb)) == Byte(0xfe) { }
  lemma Xor1601() ensures AESTAB.Xor(Byte(0x16), Byte(0x01)) == Byte(0x17) { }
  lemma Xor04a0() ensures AESTAB.Xor(Byte(0x04), Byte(0xa0)) == Byte(0xa4) { }
  lemma Xor66fa() ensures AESTAB.Xor(Byte(0x66), Byte(0xfa)) == Byte(0x9c) { }
  lemma Xor81fe() ensures AESTAB.Xor(Byte(0x81), Byte(0xfe)) == Byte(0x7f) { }
  lemma Xore517() ensures AESTAB.Xor(Byte(0xe5), Byte(0x17)) == Byte(0xf2) { }

  lemma Mixd4() ensures AESTAB.Mix(Byte(0xd4), Byte(0xbf), Byte(0x5d), Byte(0x30)) == Byte(0x04) { }
  lemma Mixbf() ensures AESTAB.Mix(Byte(0xbf), Byte(0x5d), Byte(0x30), Byte(0xd4)) == Byte(0x66) { }
  lemma Mix5d() ensures AESTAB.Mix(Byte(0x5d), Byte(0x30), Byte(0xd4), Byte(0xbf)) == Byte(0x81) { }
  lemma Mix30() ensures AESTAB.Mix(Byte(0x30), Byte(0xd4), Byte(0xbf), Byte(0x5d)) == Byte(0xe5) { }

  /** The first word after the key is a0fafe17. */
  lemma ExampleKey(key: Block)
    requires WordAt(key, 0) == EXAMPLE_KEY0 && WordAt(key, 12) == EXAMPLE_KEY3
    ensures ExpandedWord(AESTAB, key, 4) == Word(Byte(0xa0), Byte(0xfa), Byte(0xfe), Byte(0x17))
  {
    XorLawsHold();
    RoundKeyWord(AESTAB, key, 4);
    Boxcf();
    Box4f();
    Box3c();
    Box09();
    Xor2b8a();
    Xora101();
    Xor7e84();
    Xor15eb();
    Xor1601();
  }

  /** The first column after round 1, step by step. */
  lemma FirstColumn(t: Tables, s: Block, w: seq<Byte>, x: Word, y: Word)
    requires |w| >= 32
    requires x == t.XorWords(Diagonal(s), Diagonal(w))
    requires y == Word(t.S(x.b0), t.S(x.b1), t.S(x.b2), t.S(x.b3))
    ensures WordAt(Round(t, s, w, 1), 0) == t.XorWords(MixColumn(t, y.b0, y.b1, y.b2, y.b3), WordAt(w, 16))
  {
    var u := Round(t, s, w, 0);
    ShiftedColumn0(t, u);
    MixedColumn0(t, ShiftRows(SubBytes(t, u)));
    FirstRound(t, s, w);
  }

  lemma FirstRound(t: Tables, s: Block, w: seq<Byte>)
    requires |w| >= 32
    ensures WordAt(Round(t, s, w, 1), 0)
         == t.XorWords(WordAt(MixColumns(t, ShiftRows(SubBytes(t, Round(t, s, w, 0)))), 0), WordAt(w, 16))
  {
  }

  lemma ExampleSchedule(key: Block, w: seq<Byte>)
    requires WordAt(key, 0) == EXAMPLE_KEY0 && WordAt(key, 12) == EXAMPLE_KEY3
    requires |w| == 176 && Expands(AESTAB, key, w, 44)
    ensures Diagonal(w) == Diagonal(key) && WordAt(w, 16) == Word(Byte(0xa0), Byte(0xfa), Byte(0xfe), Byte(0x17))
  {
    FirstRoundKeys(AESTAB, key, w);
    ExampleKey(key);
  }

  lemma FirstRoundKeys(t: Tables, key: Block, w: seq<Byte>)
    requires |w| == 176 && Expands(t, key, w, 44)
    ensures Diagonal(w) == Diagonal(key) && WordAt(w, 16) == ExpandedWord(t, key, 4)
  {
    ScheduleBeginsWithKey(t, key, w, 44);
    assert w[0] == key[0] && w[5] == key[5] && w[10] == key[10] && w[15] == key[15];
    assert WordAt(w, 4 * 4) == ExpandedWord(t, key, 4);
  }

  function Diagonal(s: seq<Byte>): Word
    requires |s| >= 16
  {
    Word(s[0], s[5], s[10], s[15])
  }

  /** It is a49c7ff2. */
  lemma ExampleRound(s: Block, key: Block, w: seq<Byte>)
    requires Diagonal(s) == Word(Byte(0x32), Byte(0x5a), Byte(0x98), Byte(0x34)) && Diagonal(key) == Word(Byte(0x2b), Byte(0xae), Byte(0x15), Byte(0x3c))
    requires WordAt(key, 0) == EXAMPLE_KEY0 && WordAt(key, 12) == EXAMPLE_KEY3
    requires |w| == 176 && Expands(AESTAB, key, w, 44)
    ensures WordAt(Round(AESTAB, s, w, 1), 0) == Word(Byte(0xa4), Byte(0x9c), Byte(0x7f), Byte(0xf2))
  {
    ExampleSchedule(key, w);
    ExampleInput();
    ExampleBoxes();
    FirstColumn(AESTAB, s, w, Word(Byte(0x19), Byte(0xf4), Byte(0x8d), Byte(0x08)), Word(Byte(0xd4), Byte(0xbf), Byte(0x5d), Byte(0x30)));
    ExampleMix();
    ExampleOutput();
  }

  lemma ExampleInput()
    ensures AESTAB.XorWords(Word(Byte(0x32), Byte(0x5a), Byte(0x98), Byte(0x34)), Word(Byte(0x2b), Byte(0xae), Byte(0x15), Byte(0x3c)))
         == Word(Byte(0x19), Byte(0xf4), Byte(0x8d), Byte(0x08))
  {
    Xor322b();
    Xor5aae();
    Xor9815();
    Xor343c();
  }

  lemma ExampleBoxes()
    ensures Word(AESTAB.S(Byte(0x19)), AESTAB.S(Byte(0xf4)), AESTAB.S(Byte(0x8d)), AESTAB.S(Byte(0x08)))
         == Word(Byte(0xd4), Byte(0xbf), Byte(0x5d), Byte(0x30))
  {
    Box19();
    Boxf4();
    Box8d();
    Box08();
  }

  lemma ExampleMix()
    ensures MixColumn(AESTAB, Byte(0xd4), Byte(0xbf), Byte(0x5d), Byte(0x30)) == Word(Byte(0x04), Byte(0x66), Byte(0x81), Byte(0xe5))
  {
    Mixd4();
    Mixbf();
    Mix5d();
    Mix30();
  }

  lemma ExampleOutput()
    ensures AESTAB.XorWords(Word(Byte(0x04), Byte(0x66), Byte(0x81), Byte(0xe5)), Word(Byte(0xa0), Byte(0xfa), Byte(0xfe), Byte(0x17)))
         == Word(Byte(0xa4), Byte(0x9c), Byte(0x7f), Byte(0xf2))
  {
    Xor04a0();
    Xor66fa();
    Xor81fe();
    Xore517();
  }
}
