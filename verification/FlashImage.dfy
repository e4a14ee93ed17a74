/** What programming and erasing make of a flash memory, as whole memory images. */
module FlashImage {
  import opened FlashChip

  /** The part of `data`, to go to `off`, that falls into the block from `lo` to `hi` is there already. */
  ghost predicate Agrees(m: seq<Byte>, lo: int, hi: int, off: int, data: seq<Byte>) {
    forall q | 0 <= q < |m| && lo <= q < hi && off <= q < off + |data| :: m[q] == data[q - off]
  }

  function BlockStart(p: nat, s: nat): nat
    requires s > 0
  {
    p / s * s
  }

  /** Writing `data` at `off`: the range holds the data; a block of size `s` in which the data was
      not there already is erased, that is all ones, outside the range; everything else is kept. */
  ghost function NewByte(m: seq<Byte>, s: nat, off: int, data: seq<Byte>, p: nat): Byte
    requires p < |m| && s > 0
  {
    if off <= p < off + |data| then data[p - off]
    else if Agrees(m, BlockStart(p, s), BlockStart(p, s) + s, off, data) then m[p]
    else 0xFF
  }

  ghost function Image(m: seq<Byte>, s: nat, off: int, data: seq<Byte>): seq<Byte>
    requires s > 0
  {
    seq(|m|, p requires 0 <= p < |m| => NewByte(m, s, off, data, p))
  }

  /** What page programming makes of a range. */
  function Overlaid(m: seq<Byte>, off: nat, data: seq<Byte>): seq<Byte> {
    seq(|m|, p requires 0 <= p < |m| => if off <= p < off + |data| then ByteAnd(m[p], data[p - off]) else m[p])
  }

  /** A page program that does not cross a page boundary programs the range and nothing else. */
  lemma ProgrammedInPage(m: seq<Byte>, a: nat, data: seq<Byte>)
    requires a % PAGE + |data| <= PAGE
    ensures Programmed(m, a, data) == Overlaid(m, a, data)
  {
    forall p: nat | p < |m| ensures Programmed(m, a, data)[p] == Overlaid(m, a, data)[p] {
      ProgrammedAt(m, a, data, p);
    }
  }

  lemma ProgrammedAt(m: seq<Byte>, a: nat, data: seq<Byte>, p: nat)
    requires a % PAGE + |data| <= PAGE && p < |m|
    ensures Programmed(m, a, data)[p] == if a <= p < a + |data| then ByteAnd(m[p], data[p - a]) else m[p]
  {
    PagePosition(p, a);
  }

  lemma PagePosition(p: nat, a: nat)
    ensures p / PAGE == a / PAGE && p >= a ==> (p - a) % PAGE == p - a
    ensures p / PAGE == a / PAGE && p < a ==> (p - a) % PAGE == p - a + PAGE
    ensures a <= p && a % PAGE + (p - a) < PAGE ==> p / PAGE == a / PAGE
  {
  }

  /** Contiguous ranges add up. */
  lemma OverlaidAppend(m: seq<Byte>, off: nat, d: seq<Byte>, e: seq<Byte>)
    ensures Overlaid(Overlaid(m, off, d), off + |d|, e) == Overlaid(m, off, d + e)
  {
  }

  // Page by page

  datatype Page = Page(offset: nat, data: seq<Byte>)

  /** How much of `n` bytes for `a` there is room for up to the end of the page. */
  function InPage(a: nat, n: nat): nat {
    if n <= PAGE - a % PAGE then n else PAGE - a % PAGE
  }

  /** The data for `start` cut up at the page boundaries. */
  function Pages(start: nat, data: seq<Byte>): seq<Page>
    decreases |data|
  {
    if data == [] then [] else
    var n := InPage(start, |data|);
    [Page(start, data[..n])] + Pages(start + n, data[n..])
  }

  /** The pages are not empty, lie within one page each, follow on each other from `start` on, all but
      the first from a page boundary, and make up the data. */
  ghost predicate Partition(pages: seq<Page>, start: nat, data: seq<Byte>) {
    if pages == [] then data == [] else
    var first := pages[0].data;
    && pages[0].offset == start && first != [] && start % PAGE + |first| <= PAGE && first <= data
    && (first == data || (start + |first|) % PAGE == 0)
    && Partition(pages[1..], start + |first|, data[|first|..])
  }

  lemma {:induction false} PagesPartition(start: nat, data: seq<Byte>)
    ensures Partition(Pages(start, data), start, data)
    decreases |data|
  {
    if data != [] {
      var n := InPage(start, |data|);
      PagesHead(start, data);
      PagesPartition(start + n, data[n..]);
    }
  }

  lemma PagesHead(start: nat, data: seq<Byte>)
    requires data != []
    ensures var n := InPage(start, |data|);
            && Pages(start, data) != [] && Pages(start, data)[0] == Page(start, data[..n])
            && Pages(start, data)[1..] == Pages(start + n, data[n..])
  {
    var n := InPage(start, |data|);
    assert Pages(start, data)[1..] == Pages(start + n, data[n..]);
  }

  lemma NothingLeft(start: nat, start': nat, rest: seq<Byte>)
    requires rest == [] || start == start'
    ensures Pages(start, rest) == Pages(start', rest)
  {
  }

  /** The memory after a page program, the address of which is cut to the width of the mode and wraps at
      the end of the memory ... */
  function PageProgrammed(m: seq<Byte>, four: bool, start: nat, data: seq<Byte>): seq<Byte>
    requires m != []
  {
    Programmed(m, Wrap(Truncated(start, four), |m|), data)
  }

  /** ... and after several. */
  function PagesProgrammed(m: seq<Byte>, four: bool, pages: seq<Page>): (r: seq<Byte>)
    requires m != []
    ensures |r| == |m|
    decreases |pages|
  {
    if pages == [] then m
    else PagesProgrammed(PageProgrammed(m, four, pages[0].offset, pages[0].data), four, pages[1..])
  }

  lemma PagesNext(m: seq<Byte>, four: bool, start: nat, data: seq<Byte>)
    requires m != [] && data != []
    ensures PagesProgrammed(m, four, Pages(start, data))
         == PagesProgrammed(PageProgrammed(m, four, start, data[..InPage(start, |data|)]), four,
                            Pages(start + InPage(start, |data|), data[InPage(start, |data|)..]))
  {
    PagesHead(start, data);
  }

  /** Within the memory the pages together program the range and nothing else. */
  lemma {:induction false} PagesInRange(m: seq<Byte>, four: bool, start: nat, data: seq<Byte>)
    requires m != [] && start + |data| <= |m| <= Limit(four)
    ensures PagesProgrammed(m, four, Pages(start, data)) == Overlaid(m, start, data)
    decreases |data|
  {
    if data == [] {
      assert Overlaid(m, start, data) == m;
    } else {
      var n := InPage(start, |data|);
      PagesNext(m, four, start, data);
      PageInRange(m, four, start, data[..n]);
      PagesInRange(Overlaid(m, start, data[..n]), four, start + n, data[n..]);
      SplitOverlay(m, start, data, n);
    }
  }

  lemma PageInRange(m: seq<Byte>, four: bool, start: nat, data: seq<Byte>)
    requires start < |m| <= Limit(four) && start % PAGE + |data| <= PAGE
    ensures PageProgrammed(m, four, start, data) == Overlaid(m, start, data)
  {
    ProgrammedInPage(m, start, data);
  }

  lemma SplitOverlay(m: seq<Byte>, start: nat, data: seq<Byte>, n: nat)
    requires n <= |data|
    ensures Overlaid(Overlaid(m, start, data[..n]), start + n, data[n..]) == Overlaid(m, start, data)
  {
    OverlaidAppend(m, start, data[..n], data[n..]);
    assert data[..n] + data[n..] == data;
  }

  /** What one block is left with: nothing is done if the data is there already. */
  function BlockWritten(m: seq<Byte>, s: nat, lo: nat, off: nat, data: seq<Byte>): seq<Byte>
    requires s > 0 && off + |data| <= |m|
  {
    if m[off..off + |data|] == data then m else Overlaid(Erased(m, s, lo), off, data)
  }

  /** The size of that many blocks. */
  function Extent(blocks: int, blockSize: nat): int
    decreases blocks
  {
    if blocks <= 0 then 0 else Extent(blocks - 1, blockSize) + blockSize
  }

  lemma {:induction false} ExtentIsProduct(blocks: nat, blockSize: nat)
    ensures Extent(blocks, blockSize) == blocks * blockSize
  {
    if blocks > 0 {
      ExtentIsProduct(blocks - 1, blockSize);
      assert blocks * blockSize == (blocks - 1) * blockSize + blockSize;
    }
  }

  lemma {:induction false} ExtentMonotone(a: nat, b: nat, blockSize: nat)
    requires a <= b
    ensures 0 <= Extent(a, blockSize) <= Extent(b, blockSize)
  {
    if a < b {
      ExtentMonotone(a, b - 1, blockSize);
    } else if a > 0 {
      ExtentMonotone(a - 1, a - 1, blockSize);
    }
  }

  lemma {:induction false} ExtentSum(a: nat, b: nat, blockSize: nat)
    ensures Extent(a + b, blockSize) == Extent(a, blockSize) + Extent(b, blockSize)
  {
    if b > 0 {
      ExtentSum(a, b - 1, blockSize);
    }
  }

  /** `lo` is where block number `k` starts. */
  ghost predicate Starts(lo: int, k: nat, s: nat) { lo == Extent(k, s) }

  lemma SameBlock(p: nat, lo: nat, k: nat, s: nat)
    requires s > 0 && Starts(lo, k, s)
    ensures p / s == lo / s <==> lo <= p < lo + s
    ensures lo <= p < lo + s ==> BlockStart(p, s) == lo
    ensures p < lo ==> BlockStart(p, s) + s <= lo
    ensures p >= lo + s ==> BlockStart(p, s) >= lo + s
  {
    ExtentIsProduct(k, s);
    Quotient(lo, k, s);
    Quotient(p, k, s);
  }

  lemma Quotient(p: nat, k: nat, s: nat)
    requires s > 0
    ensures k * s <= p < k * s + s ==> p / s == k
    ensures p < k * s ==> p / s < k && (p / s) * s + s <= k * s
    ensures p >= k * s + s ==> p / s > k && (p / s) * s >= k * s + s
  {
    var q := p / s;
    assert q * s <= p < q * s + s;
    if q < k {
      assert (q + 1) * s <= k * s;
    } else if q > k {
      assert (k + 1) * s <= q * s;
    }
  }

  lemma NothingWritten(m: seq<Byte>, s: nat, off: int)
    requires s > 0
    ensures Image(m, s, off, []) == m
  {
  }

  /** Outside the block nothing is touched, and what counts there is what was written before. */
  lemma ElsewhereStep(m: seq<Byte>, s: nat, off0: nat, done: seq<Byte>, lo: nat, k: nat, data: seq<Byte>, p: nat)
    requires s > 0 && Starts(lo, k, s) && p < |m| && !(lo <= p < lo + s)
    requires lo <= off0 + |done| && off0 + |done| + |data| <= lo + s
    ensures NewByte(m, s, off0, done + data, p) == NewByte(m, s, off0, done, p)
  {
    SameBlock(p, lo, k, s);
    var b := BlockStart(p, s);
    assert Agrees(m, b, b + s, off0, done + data) <==> Agrees(m, b, b + s, off0, done);
  }

  /** Inside the block, nothing had been written before. */
  lemma BlockFresh(m: seq<Byte>, s: nat, off0: nat, done: seq<Byte>, lo: nat, k: nat, p: nat)
    requires s > 0 && Starts(lo, k, s) && p < |m| && lo <= p < lo + s
    requires done != [] ==> off0 + |done| == lo
    ensures NewByte(m, s, off0, done, p) == m[p]
  {
    SameBlock(p, lo, k, s);
    assert Agrees(m, lo, lo + s, off0, done);
  }

  lemma BlockAgrees(m: seq<Byte>, s: nat, off0: nat, done: seq<Byte>, lo: nat, data: seq<Byte>)
    requires lo <= off0 + |done| && off0 + |done| + |data| <= lo + s && lo + s <= |m|
    requires done != [] ==> off0 + |done| == lo
    ensures Agrees(m, lo, lo + s, off0, done + data) <==> m[off0 + |done|..off0 + |done| + |data|] == data
  {
    var off := off0 + |done|;
    if m[off..off + |data|] == data {
      forall q | 0 <= q < |m| && lo <= q < lo + s && off0 <= q < off0 + |done + data|
        ensures m[q] == (done + data)[q - off0]
      {
        assert q >= off && m[q] == m[off..off + |data|][q - off];
      }
    }
    if Agrees(m, lo, lo + s, off0, done + data) {
      forall i | 0 <= i < |data| ensures m[off..off + |data|][i] == data[i] {
        assert m[off + i] == (done + data)[off + i - off0];
      }
    }
  }

  /** One more block is written. */
  lemma ImageStep(m': seq<Byte>, m: seq<Byte>, s: nat, off0: nat, done: seq<Byte>, lo: nat, k: nat,
                  off: nat, data: seq<Byte>, whole: seq<Byte>)
    requires s > 0 && Starts(lo, k, s) && m' == Image(m, s, off0, done)
    requires lo <= off == off0 + |done| && off + |data| <= lo + s && lo + s <= |m|
    requires done != [] ==> off == lo
    requires whole == done + data
    ensures BlockWritten(m', s, lo, off, data) == Image(m, s, off0, whole)
  {
    var m'' := BlockWritten(m', s, lo, off, data);
    BlockAgrees(m, s, off0, done, lo, data);
    forall p: nat | p < |m| && lo <= p < lo + s ensures m'[p] == m[p] {
      BlockFresh(m, s, off0, done, lo, k, p);
    }
    assert m'[off..off + |data|] == m[off..off + |data|];
    forall p: nat | p < |m| ensures m''[p] == NewByte(m, s, off0, whole, p) {
      SameBlock(p, lo, k, s);
      if lo <= p < lo + s {
        InBlockStep(m', m, s, off0, done, lo, k, data, p);
      } else {
        ElsewhereStep(m, s, off0, done, lo, k, data, p);
      }
    }
  }

  lemma InBlockStep(m': seq<Byte>, m: seq<Byte>, s: nat, off0: nat, done: seq<Byte>, lo: nat, k: nat, data: seq<Byte>, p: nat)
    requires s > 0 && Starts(lo, k, s) && |m'| == |m| && lo <= p < lo + s <= |m| && m'[p] == m[p]
    requires lo <= off0 + |done| && off0 + |done| + |data| <= lo + s
    requires done != [] ==> off0 + |done| == lo
    requires m'[off0 + |done|..off0 + |done| + |data|] == m[off0 + |done|..off0 + |done| + |data|]
    requires Agrees(m, lo, lo + s, off0, done + data) <==> m[off0 + |done|..off0 + |done| + |data|] == data
    ensures BlockWritten(m', s, lo, off0 + |done|, data)[p] == NewByte(m, s, off0, done + data, p)
  {
    var off := off0 + |done|;
    SameBlock(p, lo, k, s);
    if off <= p < off + |data| {
      AndErased(data[p - off]);
      assert (done + data)[p - off0] == data[p - off];
      assert m'[off..off + |data|] == data ==> m'[p] == m'[off..off + |data|][p - off];
    }
  }

  /** What an image is good for: the data is where it belongs, blocks that it does not reach are
      kept, and the rest of a block that it does reach is kept or erased, whole blocks at a time. */
  lemma ImageMeaning(m': seq<Byte>, m: seq<Byte>, s: nat, off: nat, data: seq<Byte>, p: nat)
    requires s > 0 && m' == Image(m, s, off, data) && p < |m| && off + |data| <= |m|
    ensures m'[off..off + |data|] == data
    ensures var b := BlockStart(p, s);
            && (b + s <= off || off + |data| <= b ==> m'[p] == m[p])
            && (p < off || off + |data| <= p ==> m'[p] == m[p] || m'[p] == 0xFF)
            && (Agrees(m, b, b + s, off, data) ==> m'[p] == m[p])
            && (!Agrees(m, b, b + s, off, data) && !(off <= p < off + |data|) ==> m'[p] == 0xFF)
  {
    var b := BlockStart(p, s);
    assert b <= p < b + s;
    assert b + s <= off || off + |data| <= b ==> Agrees(m, b, b + s, off, data);
  }
}
