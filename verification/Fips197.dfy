/** The AES cipher as FIPS 197 writes it, over an arbitrary number of rounds and over lookup
    tables of which only their defining relations are known. */
module Fips197 {
  import opened Gf256

  datatype Byte = Byte(v: bv8)

  /** Four bytes in the order they have in memory. */
  datatype Word = Word(b0: Byte, b1: Byte, b2: Byte, b3: Byte)

  /** What the routines compute with: exclusive or, multiplication by {02}, and the lookup
      tables.  The predicates say all that is used of them. */
  datatype Tables = Tables(
    plus: (Byte, Byte) -> Byte, xtime: Byte -> Byte,
    sbox: Byte -> Byte, invSbox: Byte -> Byte,
    xtime2Sbox: Byte -> Byte, xtime3Sbox: Byte -> Byte,
    xtime9: Byte -> Byte, xtimeB: Byte -> Byte, xtimeD: Byte -> Byte, xtimeE: Byte -> Byte,
    sbox0: Byte -> Word, sbox1: Byte -> Word, sbox2: Byte -> Word, sbox3: Byte -> Word)
  {
    function Xor(a: Byte, b: Byte): Byte { plus(a, b) }
    function X(a: Byte): Byte { xtime(a) }
    function S(b: Byte): Byte { sbox(b) }
    function InvS(b: Byte): Byte { invSbox(b) }
    function S2(b: Byte): Byte { xtime2Sbox(b) }
    function S3(b: Byte): Byte { xtime3Sbox(b) }
    function X9(b: Byte): Byte { xtime9(b) }
    function XB(b: Byte): Byte { xtimeB(b) }
    function XD(b: Byte): Byte { xtimeD(b) }
    function XE(b: Byte): Byte { xtimeE(b) }
    function T0(b: Byte): Word { sbox0(b) }
    function T1(b: Byte): Word { sbox1(b) }
    function T2(b: Byte): Word { sbox2(b) }
    function T3(b: Byte): Word { sbox3(b) }

    // Products by constants, section 4.2.1

    function Times3(a: Byte): Byte { Xor(X(a), a) }
    function Times9(a: Byte): Byte { Xor(X(X(X(a))), a) }
    function TimesB(a: Byte): Byte { Xor(Xor(X(X(X(a))), X(a)), a) }
    function TimesD(a: Byte): Byte { Xor(Xor(X(X(X(a))), X(X(a))), a) }
    function TimesE(a: Byte): Byte { Xor(Xor(X(X(X(a))), X(X(a))), X(a)) }

    /** One output byte of MixColumns, section 5.1.3. */
    function Mix(a: Byte, b: Byte, c: Byte, d: Byte): Byte {
      Xor(Xor(X(a), Times3(b)), Xor(c, d))
    }

    /** One output byte of InvMixColumns, section 5.3.3. */
    function Unmix(a: Byte, b: Byte, c: Byte, d: Byte): Byte {
      Xor(Xor(TimesE(a), TimesB(b)), Xor(TimesD(c), Times9(d)))
    }

    function XorWords(a: Word, b: Word): Word {
      Word(Xor(a.b0, b.b0), Xor(a.b1, b.b1), Xor(a.b2, b.b2), Xor(a.b3, b.b3))
    }

    // Laws

    ghost predicate CancelAt(a: Byte, b: Byte) {
      Xor(Xor(a, b), b) == a
    }

    ghost predicate RegroupAt(a: Byte, b: Byte, c: Byte, d: Byte) {
      && Xor(Xor(Xor(a, b), c), d) == Xor(Xor(a, b), Xor(c, d))
      && Xor(Xor(Xor(a, b), c), d) == Xor(Xor(b, c), Xor(d, a))
      && Xor(Xor(Xor(a, b), c), d) == Xor(Xor(c, d), Xor(a, b))
      && Xor(Xor(Xor(a, b), c), d) == Xor(Xor(d, a), Xor(b, c))
    }

    ghost predicate UnmixAt(a: Byte, b: Byte, c: Byte, d: Byte) {
      Unmix(Mix(a, b, c, d), Mix(b, c, d, a), Mix(c, d, a, b), Mix(d, a, b, c)) == a
    }

    ghost predicate AssociateAt(a: Byte, b: Byte, c: Byte) {
      Xor(Xor(a, b), c) == Xor(a, Xor(b, c))
    }

    ghost predicate ZeroAt(a: Byte) {
      Xor(a, Byte(0)) == a
    }

    ghost predicate DoubleAt(a: Byte) {
      X(a) == Byte(Xtime(a.v))
    }

    ghost predicate XorLaws() {
      && (forall a, b :: CancelAt(a, b))
      && (forall a, b, c :: AssociateAt(a, b, c))
      && (forall a :: ZeroAt(a))
      && (forall a, b, c, d :: RegroupAt(a, b, c, d))
    }

    ghost predicate MixLaw() {
      forall a, b, c, d :: UnmixAt(a, b, c, d)
    }

    ghost predicate Doubles() {
      forall a :: DoubleAt(a)
    }

    ghost predicate Boxes() {
      && (forall b :: InvS(S(b)) == b)
      && (forall b :: S(InvS(b)) == b)
    }

    ghost predicate Products() {
      && (forall b :: S2(b) == X(S(b)))
      && (forall b :: S3(b) == Times3(S(b)))
      && (forall b :: X9(b) == Times9(b))
      && (forall b :: XB(b) == TimesB(b))
      && (forall b :: XD(b) == TimesD(b))
      && (forall b :: XE(b) == TimesE(b))
    }

    ghost predicate Columns() {
      && (forall b :: T0(b) == Word(S2(b), S(b), S(b), S3(b)))
      && (forall b :: T1(b) == Word(S3(b), S2(b), S(b), S(b)))
      && (forall b :: T2(b) == Word(S(b), S3(b), S2(b), S(b)))
      && (forall b :: T3(b) == Word(S(b), S(b), S3(b), S2(b)))
    }

    ghost predicate Valid() {
      XorLaws() && MixLaw() && Doubles() && Boxes() && Products() && Columns()
    }
  }

  /** The state: byte r + 4c is row r of column c. */
  type Block = s: seq<Byte> | |s| == 16 witness seq(16, _ => Byte(0))

  function SubBytes(t: Tables, s: Block): Block {
    seq(16, i requires 0 <= i < 16 => t.S(s[i]))
  }

  function InvSubBytes(t: Tables, s: Block): Block {
    seq(16, i requires 0 <= i < 16 => t.InvS(s[i]))
  }

  /** Row k mod 4 of column c. */
  function Cell(s: Block, c: nat, k: nat): Byte
    requires c < 4
  {
    s[4 * c + k % 4]
  }

  /** (c + r) mod 4. */
  function Right(c: nat, r: nat): nat
    requires c < 4 && r < 4
  {
    if c + r < 4 then c + r else c + r - 4
  }

  /** (c - r) mod 4. */
  function Left(c: nat, r: nat): nat
    requires c < 4 && r < 4
  {
    if r <= c then c - r else c + 4 - r
  }

  /** Row r moves r columns to the left. */
  function ShiftRows(s: Block): Block {
    seq(16, i requires 0 <= i < 16 => s[4 * Right(i / 4, i % 4) + i % 4])
  }

  /** Row r moves r columns to the right. */
  function InvShiftRows(s: Block): Block {
    seq(16, i requires 0 <= i < 16 => s[4 * Left(i / 4, i % 4) + i % 4])
  }

  function MixAt(t: Tables, s: Block, c: nat, r: nat): Byte
    requires c < 4
  {
    t.Mix(Cell(s, c, r), Cell(s, c, r + 1), Cell(s, c, r + 2), Cell(s, c, r + 3))
  }

  function UnmixAt(t: Tables, s: Block, c: nat, r: nat): Byte
    requires c < 4
  {
    t.Unmix(Cell(s, c, r), Cell(s, c, r + 1), Cell(s, c, r + 2), Cell(s, c, r + 3))
  }

  function MixColumns(t: Tables, s: Block): Block {
    seq(16, i requires 0 <= i < 16 => MixAt(t, s, i / 4, i % 4))
  }

  function InvMixColumns(t: Tables, s: Block): Block {
    seq(16, i requires 0 <= i < 16 => UnmixAt(t, s, i / 4, i % 4))
  }

  function AddRoundKey(t: Tables, s: Block, w: seq<Byte>, k: nat): Block
    requires 16 * (k + 1) <= |w|
  {
    seq(16, i requires 0 <= i < 16 => t.Xor(s[i], w[16 * k + i]))
  }

  // The cipher, section 5.1, and the inverse cipher, section 5.3

  /** The state after round `k`. */
  function Round(t: Tables, s: Block, w: seq<Byte>, k: nat): Block
    requires 16 * (k + 1) <= |w|
  {
    if k == 0 then AddRoundKey(t, s, w, 0)
    else AddRoundKey(t, MixColumns(t, ShiftRows(SubBytes(t, Round(t, s, w, k - 1)))), w, k)
  }

  function Cipher(t: Tables, s: Block, w: seq<Byte>, nr: nat): Block
    requires 0 < nr && 16 * (nr + 1) <= |w|
  {
    AddRoundKey(t, ShiftRows(SubBytes(t, Round(t, s, w, nr - 1))), w, nr)
  }

  /** Rounds `k` down to 0 of the inverse cipher. */
  function InvRounds(t: Tables, s: Block, w: seq<Byte>, k: nat): Block
    requires 16 * (k + 1) <= |w|
    decreases k
  {
    var u := AddRoundKey(t, InvSubBytes(t, InvShiftRows(s)), w, k);
    if k == 0 then u else InvRounds(t, InvMixColumns(t, u), w, k - 1)
  }

  function InvCipher(t: Tables, s: Block, w: seq<Byte>, nr: nat): Block
    requires 0 < nr && 16 * (nr + 1) <= |w|
  {
    InvRounds(t, AddRoundKey(t, s, w, nr), w, nr - 1)
  }

  // Each inverse step undoes its forward step

  lemma AddRoundKeyTwice(t: Tables, s: Block, w: seq<Byte>, k: nat)
    requires t.XorLaws() && 16 * (k + 1) <= |w|
    ensures AddRoundKey(t, AddRoundKey(t, s, w, k), w, k) == s
  {
    forall i | 0 <= i < 16
      ensures AddRoundKey(t, AddRoundKey(t, s, w, k), w, k)[i] == s[i]
    {
      assert t.CancelAt(s[i], w[16 * k + i]);
    }
  }

  lemma InvSubBytesAfterSubBytes(t: Tables, s: Block)
    requires t.Boxes()
    ensures InvSubBytes(t, SubBytes(t, s)) == s
  {
    forall i | 0 <= i < 16
      ensures InvSubBytes(t, SubBytes(t, s))[i] == s[i]
    {
      assert SubBytes(t, s)[i] == t.S(s[i]);
    }
  }

  lemma CellIndex(c: nat, r: nat)
    requires c < 4 && r < 4
    ensures (4 * c + r) / 4 == c && (4 * c + r) % 4 == r
  {
  }

  lemma InvShiftRowsAfterShiftRows(s: Block)
    ensures InvShiftRows(ShiftRows(s)) == s
  {
    forall i | 0 <= i < 16
      ensures InvShiftRows(ShiftRows(s))[i] == s[i]
    {
      CellIndex(Left(i / 4, i % 4), i % 4);
    }
  }

  lemma CellPeriod(s: Block, c: nat, k: nat)
    requires c < 4
    ensures Cell(s, c, k + 4) == Cell(s, c, k)
  {
  }

  lemma CellMod(s: Block, c: nat, k: nat)
    requires c < 4
    ensures Cell(s, c, k % 4) == Cell(s, c, k)
    ensures Cell(s, c, k % 4 + 1) == Cell(s, c, k + 1)
    ensures Cell(s, c, k % 4 + 2) == Cell(s, c, k + 2)
    ensures Cell(s, c, k % 4 + 3) == Cell(s, c, k + 3)
  {
  }

  lemma MixAtMod(t: Tables, s: Block, c: nat, k: nat)
    requires c < 4
    ensures MixAt(t, s, c, k % 4) == MixAt(t, s, c, k)
  {
    CellMod(s, c, k);
  }

  lemma UnmixAtMod(t: Tables, s: Block, c: nat, k: nat)
    requires c < 4
    ensures UnmixAt(t, s, c, k % 4) == UnmixAt(t, s, c, k)
  {
    CellMod(s, c, k);
  }

  lemma MixedCell(t: Tables, s: Block, c: nat, k: nat)
    requires c < 4
    ensures Cell(MixColumns(t, s), c, k) == MixAt(t, s, c, k)
  {
    CellIndex(c, k % 4);
    MixAtMod(t, s, c, k);
  }

  lemma InvMixedCell(t: Tables, s: Block, c: nat, k: nat)
    requires c < 4
    ensures Cell(InvMixColumns(t, s), c, k) == UnmixAt(t, s, c, k)
  {
    CellIndex(c, k % 4);
    UnmixAtMod(t, s, c, k);
  }

  lemma UnmixedCell(t: Tables, s: Block, c: nat, r: nat)
    requires t.MixLaw() && c < 4
    ensures UnmixAt(t, MixColumns(t, s), c, r) == Cell(s, c, r)
  {
    MixedCell(t, s, c, r);
    MixedCell(t, s, c, r + 1);
    MixedCell(t, s, c, r + 2);
    MixedCell(t, s, c, r + 3);
    CellPeriod(s, c, r);
    CellPeriod(s, c, r + 1);
    CellPeriod(s, c, r + 2);
    assert t.UnmixAt(Cell(s, c, r), Cell(s, c, r + 1), Cell(s, c, r + 2), Cell(s, c, r + 3));
  }

  lemma CellAt(s: Block, i: nat)
    requires i < 16
    ensures Cell(s, i / 4, i % 4) == s[i]
  {
  }

  lemma InvMixColumnsAfterMixColumns(t: Tables, s: Block)
    requires t.MixLaw()
    ensures InvMixColumns(t, MixColumns(t, s)) == s
  {
    forall i | 0 <= i < 16
      ensures InvMixColumns(t, MixColumns(t, s))[i] == s[i]
    {
      UnmixedCell(t, s, i / 4, i % 4);
      CellAt(s, i);
    }
  }

  lemma {:induction false} InvRoundsUndoRound(t: Tables, s: Block, w: seq<Byte>, k: nat)
    requires t.XorLaws() && t.MixLaw() && t.Boxes() && 16 * (k + 1) <= |w|
    ensures InvRounds(t, ShiftRows(SubBytes(t, Round(t, s, w, k))), w, k) == s
  {
    var u := Round(t, s, w, k);
    InvShiftRowsAfterShiftRows(SubBytes(t, u));
    InvSubBytesAfterSubBytes(t, u);
    if k == 0 {
      AddRoundKeyTwice(t, s, w, 0);
    } else {
      var v := ShiftRows(SubBytes(t, Round(t, s, w, k - 1)));
      AddRoundKeyTwice(t, MixColumns(t, v), w, k);
      InvMixColumnsAfterMixColumns(t, v);
      InvRoundsUndoRound(t, s, w, k - 1);
    }
  }

  /** The inverse cipher undoes the cipher, whatever the block, the key schedule and the number
      of rounds. */
  lemma InvCipherUndoesCipher(t: Tables, s: Block, w: seq<Byte>, nr: nat)
    requires t.XorLaws() && t.MixLaw() && t.Boxes() && 0 < nr && 16 * (nr + 1) <= |w|
    ensures InvCipher(t, Cipher(t, s, w, nr), w, nr) == s
  {
    AddRoundKeyTwice(t, ShiftRows(SubBytes(t, Round(t, s, w, nr - 1))), w, nr);
    InvRoundsUndoRound(t, s, w, nr - 1);
  }

  // Key expansion, section 5.2, for a key of four words

  function Rcon(t: Tables, i: nat): Byte
    requires 0 < i
  {
    if i == 1 then Byte(1) else t.X(Rcon(t, i - 1))
  }

  function WordAt(s: seq<Byte>, i: nat): Word
    requires i + 4 <= |s|
  {
    Word(s[i], s[i + 1], s[i + 2], s[i + 3])
  }

  function RotWord(a: Word): Word {
    Word(a.b1, a.b2, a.b3, a.b0)
  }

  function SubWord(t: Tables, a: Word): Word {
    Word(t.S(a.b0), t.S(a.b1), t.S(a.b2), t.S(a.b3))
  }

  /** Word `i` of the expanded key. */
  function ExpandedWord(t: Tables, key: Block, i: nat): Word {
    if i < 4 then WordAt(key, 4 * i)
    else
      var temp := ExpandedWord(t, key, i - 1);
      t.XorWords(ExpandedWord(t, key, i - 4),
               if i % 4 == 0
               then t.XorWords(SubWord(t, RotWord(temp)), Word(Rcon(t, i / 4), Byte(0), Byte(0), Byte(0)))
               else temp)
  }

  /** `w` starts with the first `n` words of the key expansion of `key`. */
  ghost predicate Expands(t: Tables, key: Block, w: seq<Byte>, n: nat) {
    4 * n <= |w| && forall i: nat | i < n :: WordAt(w, 4 * i) == ExpandedWord(t, key, i)
  }

  lemma ExpandsNext(t: Tables, key: Block, v: seq<Byte>, w: seq<Byte>, n: nat)
    requires Expands(t, key, v, n) && 4 * n + 4 <= |w|
    requires forall j | 0 <= j < 4 * n :: w[j] == v[j]
    requires WordAt(w, 4 * n) == ExpandedWord(t, key, n)
    ensures Expands(t, key, w, n + 1)
  {
    forall i: nat | i < n + 1
      ensures WordAt(w, 4 * i) == ExpandedWord(t, key, i)
    {
      assert i < n ==> WordAt(v, 4 * i) == ExpandedWord(t, key, i);
    }
  }

  /** The word that starts a round key, with the round constant added last. */
  lemma RoundKeyWord(t: Tables, key: Block, i: nat)
    requires t.XorLaws() && 4 <= i && i % 4 == 0
    ensures var p, q := ExpandedWord(t, key, i - 4), ExpandedWord(t, key, i - 1);
            ExpandedWord(t, key, i)
            == Word(t.Xor(t.Xor(p.b0, t.S(q.b1)), Rcon(t, i / 4)), t.Xor(p.b1, t.S(q.b2)), t.Xor(p.b2, t.S(q.b3)), t.Xor(p.b3, t.S(q.b0)))
  {
    var p, q := ExpandedWord(t, key, i - 4), ExpandedWord(t, key, i - 1);
    assert t.AssociateAt(p.b0, t.S(q.b1), Rcon(t, i / 4));
    assert t.ZeroAt(t.S(q.b2));
    assert t.ZeroAt(t.S(q.b3));
    assert t.ZeroAt(t.S(q.b0));
  }

  /** The first round key is the key itself. */
  lemma ScheduleBeginsWithKey(t: Tables, key: Block, w: seq<Byte>, n: nat)
    requires 4 <= n && Expands(t, key, w, n)
    ensures w[..16] == key
  {
    forall j | 0 <= j < 16
      ensures w[j] == key[j]
    {
      WordsAgree(w, key, j);
    }
  }

  lemma WordsAgree(w: seq<Byte>, key: Block, j: nat)
    requires j < 16 <= |w| && forall i: nat | i < 4 :: WordAt(w, 4 * i) == WordAt(key, 4 * i)
    ensures w[j] == key[j]
  {
    var i := j / 4;
    assert WordAt(w, 4 * i) == WordAt(key, 4 * i);
    assert j == 4 * i || j == 4 * i + 1 || j == 4 * i + 2 || j == 4 * i + 3;
  }

  /** A schedule is determined by its key. */
  lemma ExpansionIsUnique(t: Tables, key: Block, v: seq<Byte>, w: seq<Byte>, n: nat)
    requires Expands(t, key, v, n) && Expands(t, key, w, n) && |v| == |w| == 4 * n
    ensures v == w
  {
    forall j | 0 <= j < 4 * n
      ensures v[j] == w[j]
    {
      var i := j / 4;
      assert WordAt(v, 4 * i) == WordAt(w, 4 * i);
      assert j == 4 * i || j == 4 * i + 1 || j == 4 * i + 2 || j == 4 * i + 3;
    }
  }
}
