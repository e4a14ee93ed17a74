/** The flash device: which part is attached, and reading, erasing and writing it. */
module EpcsFlash {
  import opened FlashChip
  import opened SpiMaster
  import opened EpcsCommands
  import opened FlashImage
  import opened EpcsParts

  const EIO := 5
  const ENODEV := 19

  datatype Region = Region(offset: int, size: int, blocks: int, blockSize: int)

  function Min(a: int, b: int): int { if a <= b then a else b }

  function U32(x: int): nat { x % 0x1_0000_0000 }

  /** memcmp of two equally long strings: the difference at the first place they differ. */
  function Compare(a: seq<Byte>, b: seq<Byte>): int
    requires |a| == |b|
  {
    if a == [] then 0 else if a[0] != b[0] then (a[0] as int) - b[0] else Compare(a[1..], b[1..])
  }

  lemma {:induction false} CompareZero(a: seq<Byte>, b: seq<Byte>)
    requires |a| == |b|
    ensures Compare(a, b) == 0 <==> a == b
  {
    if a != [] {
      CompareZero(a[1..], b[1..]);
      assert a == [a[0]] + a[1..] && b == [b[0]] + b[1..];
    }
  }

  lemma MemoryInRange(m: seq<Byte>, a: nat, n: nat)
    requires m != [] && a + n <= |m|
    ensures MemoryFrom(m, a, n) == m[a..a + n]
  {
    forall k | 0 <= k < n ensures MemoryFrom(m, a, n)[k] == m[a + k] {
      assert At(m, a + k) == m[a + k];
    }
  }

  /** The comparison reads this much at a time. */
  const CHUNK := 32

  /** The first `n` bytes of the data are found at `offset`.  Reading goes on at the start at the end of
      the memory, but no chunk is read from beyond it. */
  ghost predicate Found(m: seq<Byte>, offset: int, src: seq<Byte>, n: nat)
    requires m != [] && n <= |src|
  {
    n == 0 || (0 <= offset && offset + (n - 1) / CHUNK * CHUNK < |m| && MemoryFrom(m, offset, n) == src[..n])
  }

  lemma FoundNext(m: seq<Byte>, offset: int, src: seq<Byte>, i: nat, n: nat)
    requires m != [] && 0 < n <= CHUNK && i + n <= |src| && i % CHUNK == 0 && Found(m, offset, src, i)
    requires n < CHUNK ==> i + n == |src|
    ensures var found := 0 <= offset + i < |m| && MemoryFrom(m, offset + i, n) == src[i..i + n];
            if found then Found(m, offset, src, i + n) else !Found(m, offset, src, |src|)
  {
    ChunkStart(i, n, |src|);
    if 0 <= offset {
      MemoryAppend(m, offset, i, n);
      assert src[..i + n] == src[..i] + src[i..i + n];
      if Found(m, offset, src, |src|) {
        FoundPart(m, offset, src, i, n);
      }
    }
  }

  lemma ChunkStart(i: nat, n: nat, length: nat)
    requires 0 < n <= CHUNK && i % CHUNK == 0 && i + n <= length
    ensures (i + n - 1) / CHUNK * CHUNK == i <= (length - 1) / CHUNK * CHUNK
  {
  }

  lemma MemoryAppend(m: seq<Byte>, a: nat, i: nat, n: nat)
    requires m != []
    ensures MemoryFrom(m, a, i + n) == MemoryFrom(m, a, i) + MemoryFrom(m, a + i, n)
  {
  }

  lemma FoundPart(m: seq<Byte>, offset: nat, src: seq<Byte>, i: nat, n: nat)
    requires m != [] && i + n <= |src| && MemoryFrom(m, offset, |src|) == src
    ensures MemoryFrom(m, offset + i, n) == src[i..i + n]
  {
    var part := MemoryFrom(m, offset + i, n);
    forall k: nat | k < n ensures part[k] == src[i..i + n][k] {
      assert MemoryFrom(m, offset, |src|)[i + k] == At(m, offset + i + k);
    }
  }

  lemma FoundInRange(m: seq<Byte>, offset: nat, src: seq<Byte>)
    requires m != [] && offset + |src| <= |m|
    ensures Found(m, offset, src, |src|) <==> m[offset..offset + |src|] == src
  {
    MemoryInRange(m, offset, |src|);
    assert src[..|src|] == src;
    if src != [] {
      assert (|src| - 1) / CHUNK * CHUNK <= |src| - 1;
    }
  }

  lemma NextPage(a: nat)
    ensures a < (a + PAGE) / PAGE * PAGE && a % PAGE + ((a + PAGE) / PAGE * PAGE - a) == PAGE
    ensures (a + PAGE) / PAGE * PAGE % PAGE == 0
  {
  }

  /** What programming the pages sends to the chip. */
  function PageSessions(pages: seq<Page>, four: bool): seq<seq<Byte>> {
    if pages == [] then [] else ProgramSessions(pages[0].offset, pages[0].data, four) + PageSessions(pages[1..], four)
  }

  lemma Regroup(a: seq<seq<Byte>>, b: seq<seq<Byte>>, c: seq<seq<Byte>>)
    ensures a + (b + c) == (a + b) + c
  {
  }

  /** What is left to do after the first page. */
  lemma PagesOn(m: seq<Byte>, log: seq<seq<Byte>>, four: bool, start: nat, rest: seq<Byte>, n: nat, next: nat)
    requires m != [] && rest != [] && n == InPage(start, |rest|) && (n < |rest| ==> next == start + n)
    ensures var pages, more := Pages(start, rest), Pages(next, rest[n..]);
            && pages != [] && pages[1..] == more
            && PagesProgrammed(m, four, pages) == PagesProgrammed(PageProgrammed(m, four, start, rest[..n]), four, more)
            && log + PageSessions(pages, four) == log + ProgramSessions(start, rest[..n], four) + PageSessions(more, four)
  {
    PagesHead(start, rest);
    NothingLeft(start + n, next, rest[n..]);
    Regroup(log, ProgramSessions(start, rest[..n], four), PageSessions(Pages(next, rest[n..]), four));
  }

  /** `m'` is `m` with the first `done` bytes of `src` written to `start` on. */
  ghost predicate WrittenUpTo(m': seq<Byte>, m: seq<Byte>, s: nat, start: int, src: seq<Byte>, done: int) {
    0 <= done <= |src| && s > 0 && m' == Image(m, s, start, src[..done])
  }

  lemma OnceMore(src: seq<Byte>, rest: seq<Byte>, done: nat, n: nat)
    requires done + |rest| == |src| && rest == src[done..] && n <= |rest|
    ensures src[..done + n] == src[..done] + rest[..n] && rest[n..] == src[done + n..]
  {
  }

  lemma WrittenStep(m': seq<Byte>, m: seq<Byte>, s: nat, start: nat, src: seq<Byte>, rest: seq<Byte>,
                    current: nat, k: nat, offset: nat, n: nat)
    requires n <= |rest| <= |src| && rest == src[|src| - |rest|..] && offset == start + |src| - |rest|
    requires WrittenUpTo(m', m, s, start, src, |src| - |rest|) && Starts(current, k, s)
    requires current <= offset && offset + n <= current + s <= |m|
    requires |rest| < |src| ==> offset == current
    ensures rest[n..] == src[|src| - |rest[n..]|..]
    ensures WrittenUpTo(BlockWritten(m', s, current, offset, rest[..n]), m, s, start, src, |src| - |rest[n..]|)
  {
    var done := |src| - |rest|;
    OnceMore(src, rest, done, n);
    ImageStep(m', m, s, start, src[..done], current, k, offset, rest[..n], src[..done + n]);
  }

  function RegionOf(p: Part): Region { Region(0, Size(p), p.blocks, p.blockSize) }

  /** The parts that answer the electronic signature command. */
  method SignatureRegion(siliconId: Byte, ghost id: nat) returns (region: Option<Region>)
    ensures var n := FirstMatch(0, siliconId, id);
            if n < 5 then region == Some(RegionOf(PARTS[n])) else region == None
  {
    region := None;
    if siliconId == 0x16 {
      region := Some(Region(0, 64 * 1024 * 1024 / 8, 128, 65536));
    } else if siliconId == 0x14 {
      region := Some(Region(0, 16 * 1024 * 1024 / 8, 32, 65536));
    } else if siliconId == 0x13 {
      region := Some(Region(0, 8 * 1024 * 1024 / 8, 16, 65536));
    } else if siliconId == 0x12 {
      region := Some(Region(0, 4 * 1024 * 1024 / 8, 8, 65536));
    } else if siliconId == 0x10 {
      region := Some(Region(0, 1 * 1024 * 1024 / 8, 4, 32768));
    }
  }

  /** The newer parts, by their device id; the last byte stands for the density. */
  method IdRegion(siliconId: nat, ghost signature: Byte) returns (region: Option<Region>, four: bool)
    requires siliconId < 0x100_0000 && FirstMatch(0, signature, siliconId) >= 5
    ensures var n := FirstMatch(0, signature, siliconId);
            if n == |PARTS| then region == None && !four
            else region == Some(RegionOf(PARTS[n])) && (four <==> Size(PARTS[n]) > Limit(false))
  {
    region, four := None, false;
    if siliconId == 0x20BA15 {
      region := Some(Region(0, 16 * 1024 * 1024 / 8, 32, 65536));
    } else if siliconId == 0x20BA16 {
      region := Some(Region(0, 32 * 1024 * 1024 / 8, 64, 65536));
    } else if siliconId == 0x20BA17 {
      region := Some(Region(0, 64 * 1024 * 1024 / 8, 128, 65536));
    } else if siliconId == 0x20BA18 {
      region := Some(Region(0, 128 * 1024 * 1024 / 8, 256, 65536));
    } else {
      region, four := DensityRegion(siliconId, signature);
    }
  }

  method DensityRegion(siliconId: nat, ghost signature: Byte) returns (region: Option<Region>, four: bool)
    requires FirstMatch(0, signature, siliconId) >= 9
    ensures var n := FirstMatch(0, signature, siliconId);
            if n == |PARTS| then region == None && !four
            else region == Some(RegionOf(PARTS[n])) && (four <==> Size(PARTS[n]) > Limit(false))
  {
    region, four := None, false;
    if siliconId % 0x100 == 0x18 {
      region := Some(Region(0, 128 * 1024 * 1024 / 8, 64, 262144));
    } else if siliconId % 0x100 == 0x19 {
      region := Some(Region(0, 256 * 1024 * 1024 / 8, 512, 65536));
      four := true;
    } else if siliconId % 0x100 == 0x20 {
      region := Some(Region(0, 512 * 1024 * 1024 / 8, 1024, 65536));
      four := true;
    } else if siliconId % 0x100 == 0x21 {
      region := Some(Region(0, 1024 * 1024 * 1024 / 8, 2048, 65536));
      four := true;
    }
  }

  /** The size of a part in bytes, as its own answers tell it: the signature of the older parts and the
      last id byte of the newer ones are logarithms, but for the two largest; 0 if the part is unknown. */
  function DeviceSize(signature: Byte, id: seq<Byte>): nat
    requires |id| == 3
  {
    if signature in {0x10, 0x12, 0x13, 0x14, 0x16} then Pow2(signature + 1)
    else if Numbered(id) then Pow2(id[2])
    else if id[2] == 0x18 || id[2] == 0x19 then Pow2(id[2])
    else if id[2] == 0x20 || id[2] == 0x21 then Pow2(id[2] - 6)
    else 0
  }

  /** An EPCQ of up to 128 megabits. */
  predicate Numbered(id: seq<Byte>)
    requires |id| == 3
  {
    id[0] == 0x20 && id[1] == 0xBA && 0x15 <= id[2] <= 0x18
  }

  /** The block size: the smallest and the largest of the EPCS parts have their own. */
  function BlockSize(signature: Byte, id: seq<Byte>): nat
    requires |id| == 3
  {
    if signature == 0x10 then 0x8000
    else if signature !in {0x12, 0x13, 0x14, 0x16} && !Numbered(id) && id[2] == 0x18 then 0x4_0000
    else 0x1_0000
  }

  lemma Powers()
    ensures Pow2(17) == 0x2_0000 && Pow2(19) == 0x8_0000 && Pow2(20) == 0x10_0000 && Pow2(21) == 0x20_0000
    ensures Pow2(22) == 0x40_0000 && Pow2(23) == 0x80_0000 && Pow2(24) == 0x100_0000 && Pow2(25) == 0x200_0000
    ensures Pow2(26) == 0x400_0000 && Pow2(27) == 0x800_0000
  {
    assert Pow2(4) == 0x10;
    assert Pow2(8) == 0x100;
    assert Pow2(12) == 0x1000;
    assert Pow2(16) == 0x1_0000;
    assert Pow2(20) == 0x10_0000;
    assert Pow2(24) == 0x100_0000;
  }

  lemma NumberedIs(id: seq<Byte>)
    requires |id| == 3
    ensures Numbered(id) <==> 0x20_BA15 <= IdNumber(id) <= 0x20_BA18
    ensures Numbered(id) ==> IdNumber(id) == 0x20_BA00 + id[2] as int
    ensures IdNumber(id) % 256 == id[2] as int
  {
    IdBytes(id);
  }

  lemma Passes(i: nat, signature: Byte, number: nat)
    requires i < |PARTS| && !Matches(PARTS[i], signature, number)
    ensures FirstMatch(i, signature, number) == FirstMatch(i + 1, signature, number)
  {
  }

  lemma Stops(i: nat, signature: Byte, number: nat)
    requires i < |PARTS| && Matches(PARTS[i], signature, number)
    ensures FirstMatch(i, signature, number) == i
  {
  }

  /** The first part of the list that matches has the size and the blocks that the answers tell. */
  ghost predicate PartTold(signature: Byte, id: seq<Byte>)
    requires |id| == 3
  {
    var n, size := FirstMatch(0, signature, IdNumber(id)), DeviceSize(signature, id);
    if n == |PARTS| then size == 0 else size == Size(PARTS[n]) > 0 && PARTS[n].blockSize == BlockSize(signature, id)
  }

  lemma OlderPart(signature: Byte, id: seq<Byte>)
    requires |id| == 3 && signature in {0x10, 0x12, 0x13, 0x14, 0x16}
    ensures PartTold(signature, id)
  {
    Powers();
    var number := IdNumber(id);
    if signature == 0x16 {
      Stops(0, signature, number);
    } else {
      Passes(0, signature, number);
      if signature == 0x14 {
        Stops(1, signature, number);
      } else {
        Passes(1, signature, number);
        if signature == 0x13 {
          Stops(2, signature, number);
        } else {
          Passes(2, signature, number);
          if signature == 0x12 {
            Stops(3, signature, number);
          } else {
            Passes(3, signature, number);
            Stops(4, signature, number);
          }
        }
      }
    }
  }

  lemma NoOlderPart(signature: Byte, number: nat)
    requires signature !in {0x10, 0x12, 0x13, 0x14, 0x16}
    ensures FirstMatch(0, signature, number) == FirstMatch(5, signature, number)
  {
    Passes(0, signature, number);
    Passes(1, signature, number);
    Passes(2, signature, number);
    Passes(3, signature, number);
    Passes(4, signature, number);
  }

  lemma NumberedPart(signature: Byte, id: seq<Byte>)
    requires |id| == 3 && signature !in {0x10, 0x12, 0x13, 0x14, 0x16} && Numbered(id)
    ensures PartTold(signature, id)
  {
    Powers();
    NumberedIs(id);
    var number := IdNumber(id);
    NoOlderPart(signature, number);
    if id[2] == 0x15 {
      Stops(5, signature, number);
    } else {
      Passes(5, signature, number);
      if id[2] == 0x16 {
        Stops(6, signature, number);
      } else {
        Passes(6, signature, number);
        if id[2] == 0x17 {
          Stops(7, signature, number);
        } else {
          Passes(7, signature, number);
          Stops(8, signature, number);
        }
      }
    }
  }

  lemma NoNumberedPart(signature: Byte, number: nat)
    requires !(0x20_BA15 <= number <= 0x20_BA18)
    ensures FirstMatch(5, signature, number) == FirstMatch(9, signature, number)
  {
    Passes(5, signature, number);
    Passes(6, signature, number);
    Passes(7, signature, number);
    Passes(8, signature, number);
  }

  lemma DensityPart(signature: Byte, id: seq<Byte>)
    requires |id| == 3 && signature !in {0x10, 0x12, 0x13, 0x14, 0x16} && !Numbered(id)
    ensures PartTold(signature, id)
  {
    Powers();
    NumberedIs(id);
    var number := IdNumber(id);
    NoOlderPart(signature, number);
    NoNumberedPart(signature, number);
    if id[2] == 0x18 {
      Stops(9, signature, number);
    } else {
      Passes(9, signature, number);
      if id[2] == 0x19 {
        Stops(10, signature, number);
      } else {
        Passes(10, signature, number);
        if id[2] == 0x20 {
          Stops(11, signature, number);
        } else {
          Passes(11, signature, number);
          if id[2] == 0x21 {
            Stops(12, signature, number);
          } else {
            Passes(12, signature, number);
          }
        }
      }
    }
  }

  lemma PartByAnswers(signature: Byte, id: seq<Byte>)
    requires |id| == 3
    ensures PartTold(signature, id)
  {
    if signature in {0x10, 0x12, 0x13, 0x14, 0x16} {
      OlderPart(signature, id);
    } else if Numbered(id) {
      NumberedPart(signature, id);
    } else {
      DensityPart(signature, id);
    }
  }

  class Flash {
    const spi: Spi
    var regions: seq<Region>
    var numberOfRegions: nat
    var four: bool
    var siliconId: nat
    var size: int
    var pageSize: int

    constructor (spi: Spi)
      ensures this.spi == spi && numberOfRegions == 0 && |regions| == 8
    {
      this.spi := spi;
      regions := seq(8, _ => Region(0, 0, 0, 0));
      numberOfRegions, four, siliconId, size, pageSize := 0, false, 0, 0, 0;
    }

    ghost predicate Online()
      reads this, spi
    {
      Ready(spi) && AtRest(spi.chip)
    }

    /** The regions in use tile the memory, and their blocks are the chip's sectors. */
    ghost predicate Tiled()
      reads this, spi
    {
      && 0 < numberOfRegions <= |regions|
      && regions[0].offset == 0
      && (forall i | 0 <= i < numberOfRegions :: RegionFits(regions[i], spi.chip.sector))
      && (forall i | 0 < i < numberOfRegions :: regions[i].offset == End(regions[i - 1]))
      && End(regions[numberOfRegions - 1]) == |spi.chip.mem|
    }

    ghost predicate Valid()
      reads this, spi
    {
      && Online() && Tiled() && pageSize == PAGE
      && |spi.chip.mem| + PAGE < 0x8000_0000 && |spi.chip.mem| <= Limit(four)
    }

    /** Finds out which part is attached.  -ENODEV if it is none of the known ones; then the old
        region stays in place. */
    method Query() returns (r: int)
      requires Online() && |regions| > 0
      modifies this, spi
      ensures spi.chip == old(spi.chip) && Online() && |regions| == |old(regions)|
      ensures var n := FirstMatch(0, spi.chip.signature, IdNumber(spi.chip.id));
              if n == |PARTS| then r == -ENODEV && !four && regions[0] == old(regions)[0].(offset := 0)
              else r == 0 && regions[0] == RegionOf(PARTS[n]) && (four <==> Size(PARTS[n]) > Limit(false))
      ensures numberOfRegions == 1 && size == regions[0].size && pageSize == PAGE
      ensures var bytes := DeviceSize(spi.chip.signature, spi.chip.id);
              && r == (if bytes == 0 then -ENODEV else 0)
              && (bytes > 0 ==> regions[0].size == bytes && (four <==> bytes > 0x100_0000))
              && (bytes > 0 ==> regions[0].blockSize == BlockSize(spi.chip.signature, spi.chip.id))
    {
      r := 0;
      PartByAnswers(spi.chip.signature, spi.chip.id);
      var region := Identify();
      if region == None {
        r := -ENODEV;
        regions := regions[0 := regions[0].(offset := 0)];
      } else {
        regions := regions[0 := region.value];
      }
      size := regions[0].size;
      numberOfRegions := 1;
      pageSize := 256;
    }

    /** Asks for the signature, and for the device id if the signature is none of the known ones. */
    method Identify() returns (region: Option<Region>)
      requires Online()
      modifies this`four, this`siliconId, spi
      ensures spi.chip == old(spi.chip) && Online()
      ensures var n := FirstMatch(0, spi.chip.signature, IdNumber(spi.chip.id));
              if n == |PARTS| then region == None && !four
              else region == Some(RegionOf(PARTS[n])) && (four <==> Size(PARTS[n]) > Limit(false))
    {
      four := false;
      var signature := ReadSignature(spi);
      siliconId := signature;
      region := SignatureRegion(signature, IdNumber(spi.chip.id));
      if region == None {
        siliconId := ReadDeviceId(spi);
        region, four := IdRegion(siliconId, signature);
      }
    }

    /** Is the address within the device?  The comparison is an unsigned one. */
    method TestAddress(offset: int) returns (r: int)
      requires Valid() && -0x8000_0000 <= offset < 0x8000_0000
      ensures r == if 0 <= offset < |spi.chip.mem| then 0 else -EIO
    {
      var last := regions[numberOfRegions - 1];
      var lastAddress := U32(-1 + last.offset + last.size);
      r := if U32(offset) > lastAddress then -EIO else 0;
    }

    method EraseBlock(blockOffset: int) returns (r: int)
      requires Valid() && -0x8000_0000 <= blockOffset < 0x8000_0000
      modifies spi
      ensures Valid()
      ensures var c := old(spi.chip);
              if 0 <= blockOffset < |c.mem| then r == 0 && spi.chip == c.(mem := Erased(c.mem, c.sector, blockOffset))
              else r == -EIO && spi.chip == c
    {
      r := TestAddress(blockOffset);
      if r >= 0 {
        SectorErase(spi, blockOffset, four);
      }
    }

    method Read(offset: int, n: nat) returns (r: int, data: seq<Byte>)
      requires Valid() && -0x8000_0000 <= offset < 0x8000_0000
      modifies spi
      ensures Valid() && spi.chip == old(spi.chip)
      ensures if 0 <= offset < |spi.chip.mem| then r == 0 && data == MemoryFrom(spi.chip.mem, offset, n) else r == -EIO
    {
      data := [];
      r := TestAddress(offset);
      if r >= 0 {
        data := ReadBuffer(spi, offset, n, four);
      }
    }

    method CompareChunk(src: seq<Byte>, offset: int) returns (r: int)
      requires Valid() && -0x8000_0000 <= offset < 0x8000_0000
      modifies spi
      ensures Valid() && spi.chip == old(spi.chip)
      ensures r == 0 <==> 0 <= offset < |spi.chip.mem| && MemoryFrom(spi.chip.mem, offset, |src|) == src
    {
      var status, data := Read(offset, |src|);
      if status < 0 {
        r := -1;
      } else {
        r := Compare(src, data);
        CompareZero(src, data);
      }
    }

    /** Compares with the source buffer, 32 bytes at a time. */
    method Memcmp(src: seq<Byte>, offset: int) returns (r: int)
      requires Valid() && -0x8000_0000 <= offset && offset + |src| < 0x8000_0000
      modifies spi
      ensures Valid() && spi.chip == old(spi.chip)
      ensures r == 0 <==> Found(spi.chip.mem, offset, src, |src|)
    {
      var n, current := |src|, 0;
      ghost var mem := spi.chip.mem;
      while n > 0
        invariant Valid() && spi.chip == old(spi.chip)
        invariant 0 <= n && current + n == |src| && (n > 0 ==> current % CHUNK == 0) && Found(mem, offset, src, current)
      {
        var chunk := if n > CHUNK then CHUNK else n;
        r := CompareChunk(src[current..current + chunk], offset + current);
        FoundNext(mem, offset, src, current, chunk);
        if r != 0 {
          return;
        }
        n := n - chunk;
        current := current + chunk;
      }
      r := 0;
    }

    /** Programs what there is of `data` for the page that holds `dataOffset`. */
    method WritePage(dataOffset: nat, data: seq<Byte>) returns (n: nat, nextPageStart: nat)
      requires Valid() && data != []
      modifies spi
      ensures Valid() && n == InPage(dataOffset, |data|)
      ensures 0 < n && dataOffset % PAGE + n <= PAGE && nextPageStart % PAGE == 0
      ensures n < |data| ==> nextPageStart == dataOffset + n
      ensures var c := old(spi.chip);
              spi.chip == c.(mem := PageProgrammed(c.mem, four, dataOffset, data[..n]))
      ensures spi.log == old(spi.log) + ProgramSessions(dataOffset, data[..n], four)
    {
      NextPage(dataOffset);
      nextPageStart := (dataOffset + pageSize) / pageSize * pageSize;
      n := Min(|data|, nextPageStart - dataOffset);
      WriteBuffer(spi, dataOffset, data[..n], four);
    }

    /** Programs a range, page by page. */
    method WriteBlock(blockOffset: int, start: int, data: seq<Byte>) returns (r: int)
      requires Valid() && -0x8000_0000 <= start && start + |data| + PAGE < 0x8000_0000
      modifies spi
      ensures Valid()
      ensures var c := old(spi.chip);
              if 0 <= start < |c.mem| then
                && r == 0 && spi.chip == c.(mem := PagesProgrammed(c.mem, four, Pages(start, data)))
                && spi.log == old(spi.log) + PageSessions(Pages(start, data), four)
              else r == -EIO && spi.chip == c && spi.log == old(spi.log)
    {
      r := TestAddress(start);
      if r >= 0 {
        WritePages(start, data);
      }
    }

    method WritePages(start: nat, data: seq<Byte>)
      requires Valid()
      modifies spi
      ensures Valid()
      ensures var c := old(spi.chip); spi.chip == c.(mem := PagesProgrammed(c.mem, four, Pages(start, data)))
      ensures spi.log == old(spi.log) + PageSessions(Pages(start, data), four)
    {
      ghost var pages, rest := Pages(start, data), data;
      ghost var c := spi.chip.(mem := PagesProgrammed(spi.chip.mem, four, pages));
      ghost var log := spi.log + PageSessions(pages, four);
      var dataOffset: nat, length: nat, bufferOffset: nat := start, |data|, 0;
      while length > 0
        invariant Valid() && bufferOffset + length == |data|
        invariant rest == data[bufferOffset..] && Remaining(dataOffset, rest, pages, c, log)
      {
        var n, nextPageStart := WriteNext(dataOffset, data[bufferOffset..], pages, c, log);
        length := length - n;
        bufferOffset := bufferOffset + n;
        dataOffset := nextPageStart;
        rest, pages := rest[n..], pages[1..];
      }
    }

    /** Programming these pages, which the rest of the data is cut into, will lead to that chip and log. */
    ghost predicate Remaining(dataOffset: nat, rest: seq<Byte>, pages: seq<Page>, c: Chip, log: seq<seq<Byte>>)
      reads this, spi
    {
      && pages == Pages(dataOffset, rest) && spi.chip.mem != []
      && spi.chip.(mem := PagesProgrammed(spi.chip.mem, four, pages)) == c
      && spi.log + PageSessions(pages, four) == log
    }

    method WriteNext(dataOffset: nat, rest: seq<Byte>, ghost pages: seq<Page>, ghost c: Chip, ghost log: seq<seq<Byte>>)
      returns (n: nat, nextPageStart: nat)
      requires Valid() && rest != [] && Remaining(dataOffset, rest, pages, c, log)
      modifies spi
      ensures Valid() && 0 < n <= |rest| && pages != []
      ensures Remaining(nextPageStart, rest[n..], pages[1..], c, log)
    {
      ghost var m, wasLog := spi.chip.mem, spi.log;
      n, nextPageStart := WritePage(dataOffset, rest);
      PagesOn(m, wasLog, four, dataOffset, rest, n, nextPageStart);
    }

    /** Brings one block up to date: nothing is done if the data is there already. */
    method UpdateBlock(current: nat, offset: nat, data: seq<Byte>) returns (r: int)
      requires Valid() && current <= offset < |spi.chip.mem| && offset + |data| <= |spi.chip.mem|
      modifies spi
      ensures Valid() && r == 0
      ensures var c := old(spi.chip); spi.chip == c.(mem := BlockWritten(c.mem, c.sector, current, offset, data))
    {
      r := 0;
      var differs := Memcmp(data, offset);
      FoundInRange(spi.chip.mem, offset, data);
      if differs != 0 {
        r := EraseBlock(current);
        if r == 0 {
          PagesInRange(spi.chip.mem, four, offset, data);
          r := WriteBlock(current, offset, data);
        }
      }
    }

    ghost predicate Written(c: Chip, start: int, src: seq<Byte>, rest: seq<Byte>)
      reads this, spi
    {
      && |rest| <= |src| && rest == src[|src| - |rest|..]
      && spi.chip == c.(mem := spi.chip.mem)
      && WrittenUpTo(spi.chip.mem, c.mem, c.sector, start, src, |src| - |rest|)
    }

    /** One turn of the loop over the blocks that finds `offset` in the block at `current`. */
    method WriteInBlock(current: nat, blockSize: int, offset: nat, rest: seq<Byte>,
                        ghost k: nat, ghost c: Chip, ghost start: nat, ghost src: seq<Byte>)
      returns (r: int, n: nat)
      requires Valid() && Written(c, start, src, rest) && blockSize == c.sector && Starts(current, k, c.sector)
      requires current <= offset < current + blockSize <= |c.mem|
      requires offset == start + |src| - |rest| && (|rest| < |src| ==> offset == current)
      modifies spi
      ensures Valid() && r == 0 && n == Min(current + blockSize - offset, |rest|)
      ensures Written(c, start, src, rest[n..])
    {
      n := Min(current + blockSize - offset, |rest|);
      WrittenStep(spi.chip.mem, c.mem, c.sector, start, src, rest, current, k, offset, n);
      r := UpdateBlock(current, offset, rest[..n]);
    }

    /** Where a write stands before the block or the region at `current`: it has not begun, or it
        goes on right there. */
    ghost predicate Standing(current: int, offset: int, start: int, src: seq<Byte>, rest: seq<Byte>)
    {
      && |rest| <= |src| && offset == start + |src| - |rest|
      && (offset < 0 || current <= offset)
      && (|rest| < |src| ==> 0 <= start && offset == current && rest != [])
    }

    ghost predicate Complete(c: Chip, start: int, src: seq<Byte>, rest: seq<Byte>)
    {
      rest == [] && 0 <= start < |c.mem| && start + |src| <= |c.mem|
    }

    /** Writes what belongs into the block at `current`, if it is the turn of that block. */
    method TryBlock(current: nat, blockSize: int, offset: int, rest: seq<Byte>,
                    ghost k: nat, ghost c: Chip, ghost start: int, ghost src: seq<Byte>)
      returns (done: bool, r: int, offset': int, rest': seq<Byte>)
      requires Valid() && Written(c, start, src, rest) && blockSize == c.sector && Starts(current, k, c.sector)
      requires current + blockSize <= |c.mem| && Standing(current, offset, start, src, rest)
      modifies spi
      ensures Valid() && r == 0 && Written(c, start, src, rest')
      ensures if done then Complete(c, start, src, rest') else Standing(current + blockSize, offset', start, src, rest')
    {
      done, r, offset', rest' := false, 0, offset, rest;
      if offset >= current && offset < current + blockSize {
        var n;
        r, n := WriteInBlock(current, blockSize, offset, rest, k, c, start, src);
        done := |rest| == n || r != 0;
        rest' := rest[n..];
        if !done {
          offset' := current + blockSize;
        }
      }
    }

    /** The blocks of one region; `done` once all of the data is in place. */
    method WriteRegion(region: Region, offset: int, rest: seq<Byte>,
                       ghost k: nat, ghost c: Chip, ghost start: int, ghost src: seq<Byte>)
      returns (done: bool, r: int, offset': int, rest': seq<Byte>)
      requires Valid() && Written(c, start, src, rest) && RegionFits(region, c.sector) && End(region) <= |c.mem|
      requires Starts(region.offset, k, c.sector) && Standing(region.offset, offset, start, src, rest)
      modifies spi
      ensures Valid() && r == 0 && Written(c, start, src, rest')
      ensures if done then Complete(c, start, src, rest') else Standing(End(region), offset', start, src, rest')
    {
      offset', rest', r := offset, rest, 0;
      var current := region.offset;
      for j := 0 to region.blocks
        invariant Valid() && r == 0 && Written(c, start, src, rest')
        invariant current == region.offset + Extent(j, c.sector) && Starts(current, k + j, c.sector)
        invariant Standing(current, offset', start, src, rest')
      {
        ExtentMonotone(j + 1, region.blocks, c.sector);
        ExtentMonotone(0, j, c.sector);
        done, r, offset', rest' := TryBlock(current, region.blockSize, offset', rest', k + j, c, start, src);
        if done {
          return;
        }
        current := current + region.blockSize;
      }
      done := false;
    }

    /** Where the first region comes to an end, and the second begins, and so on. */
    ghost function Boundary(i: nat): int
      requires i <= |regions|
      reads this
    {
      if i == 0 then 0 else End(regions[i - 1])
    }

    lemma {:induction false} BoundaryWithin(i: nat)
      requires Valid() && i <= numberOfRegions
      ensures 0 <= Boundary(i) <= |spi.chip.mem|
      ensures i < numberOfRegions ==> regions[i].offset == Boundary(i) < Boundary(i + 1) <= |spi.chip.mem|
      decreases numberOfRegions - i
    {
      if i < numberOfRegions {
        BoundaryWithin(i + 1);
        ExtentMonotone(1, regions[i].blocks, spi.chip.sector);
      }
    }

    lemma WrittenWhatFits(c: Chip, offset: int, start: int, src: seq<Byte>, rest: seq<Byte>)
      requires Written(c, start, src, rest)
      requires Complete(c, start, src, rest) || Standing(|c.mem|, offset, start, src, rest)
      ensures spi.chip == c.(mem := Image(c.mem, c.sector, start, src[..Covered(|c.mem|, start, |src|)]))
    {
    }

    /** Writes `src` to `start` on.  As much is written as there is room for up to the end of the
        device, and 0 is returned in any case. */
    method Write(start: int, src: seq<Byte>) returns (r: int)
      requires Valid() && -0x8000_0000 <= start < 0x8000_0000
      modifies spi
      ensures Valid() && r == 0
      ensures var c := old(spi.chip);
              spi.chip == c.(mem := Image(c.mem, c.sector, start, src[..Covered(|c.mem|, start, |src|)]))
    {
      r := 0;
      var offset, rest := start, src;
      ghost var c := spi.chip;
      ghost var k: nat := 0;
      NothingWritten(c.mem, c.sector, start);
      for i := 0 to numberOfRegions
        invariant Valid() && r == 0 && Written(c, start, src, rest)
        invariant Starts(Boundary(i), k, c.sector) && Standing(Boundary(i), offset, start, src, rest)
      {
        var region := regions[i];
        BoundaryWithin(i);
        ExtentSum(k, region.blocks, c.sector);
        if offset >= region.offset && offset < region.offset + region.size {
          var done;
          done, r, offset, rest := WriteRegion(region, offset, rest, k, c, start, src);
          if done {
            WrittenWhatFits(c, offset, start, src, rest);
            return;
          }
        }
        k := k + region.blocks;
      }
      WrittenWhatFits(c, offset, start, src, rest);
    }

    /** The chip is one of the known parts. */
    ghost predicate Genuine()
      reads spi
    {
      |spi.chip.id| == 3 &&
      var n := FirstMatch(0, spi.chip.signature, IdNumber(spi.chip.id));
      n < |PARTS| && |spi.chip.mem| == Size(PARTS[n]) && spi.chip.sector == PARTS[n].blockSize
    }

    /** What Query finds out about a known part is right. */
    lemma QueryFits(n: nat)
      requires Online() && n < |PARTS| && |spi.chip.mem| == Size(PARTS[n]) && spi.chip.sector == PARTS[n].blockSize
      requires |regions| > 0 && regions[0] == RegionOf(PARTS[n]) && (four <==> Size(PARTS[n]) > Limit(false))
      requires numberOfRegions == 1 && pageSize == PAGE
      ensures Valid()
    {
      PartsAddUp(n);
      ExtentIsProduct(PARTS[n].blocks, PARTS[n].blockSize);
    }

    /** On any known part, Query makes the device ready for use. */
    method QueryGenuine() returns (r: int)
      requires Online() && |regions| > 0 && Genuine()
      modifies this, spi
      ensures Valid() && r == 0 && spi.chip == old(spi.chip)
    {
      ghost var n := FirstMatch(0, spi.chip.signature, IdNumber(spi.chip.id));
      r := Query();
      QueryFits(n);
    }

    /** What has been written is read back. */
    method WriteAndReadBack(start: nat, src: seq<Byte>) returns (r: int, data: seq<Byte>)
      requires Valid() && start < |spi.chip.mem| && start + |src| <= |spi.chip.mem|
      modifies spi
      ensures Valid() && r == 0 && data == src
    {
      ghost var c := spi.chip;
      r := Write(start, src);
      assert src[..|src|] == src;
      ImageMeaning(spi.chip.mem, c.mem, c.sector, start, src, start);
      MemoryInRange(spi.chip.mem, start, |src|);
      r, data := Read(start, |src|);
    }
  }

  /** How much of `n` bytes for `start` the device has room for. */
  function Covered(size: nat, start: int, n: nat): (m: nat)
    ensures m <= n
  {
    if 0 <= start < size then Min(n, size - start) else 0
  }

  /** The memory holds the data from `start` on. */
  ghost predicate HoldsAt(m: seq<Byte>, start: int, data: seq<Byte>) {
    data == [] || (0 <= start && start + |data| <= |m| && m[start..start + |data|] == data)
  }

  /** After a write the memory holds the data if and only if the range lies within the device.  A
      range that does not is cut short, and the write returns 0 all the same. */
  lemma WrittenIffItFits(m: seq<Byte>, s: nat, start: int, src: seq<Byte>)
    requires s > 0
    ensures HoldsAt(Image(m, s, start, src[..Covered(|m|, start, |src|)]), start, src)
       <==> src == [] || (0 <= start && start + |src| <= |m|)
    ensures var m' := Image(m, s, start, src[..Covered(|m|, start, |src|)]);
            if start < 0 then m' == m
            else |m'| == |m| && forall p | start <= p < |m| && p < start + |src| :: m'[p] == src[p - start]
  {
    var n := Covered(|m|, start, |src|);
    if n == 0 {
      assert src[..n] == [];
      NothingWritten(m, s, start);
    } else {
      ImageMeaning(Image(m, s, start, src[..n]), m, s, start, src[..n], start);
    }
    if n == |src| {
      assert src[..n] == src;
    }
  }

  /** Two bytes at the last address of an EPCS64: they are not both written. */
  lemma WriteCutShort(m: seq<Byte>)
    requires |m| == 0x80_0000
    ensures !HoldsAt(Image(m, 0x1_0000, 0x7F_FFFF, [1, 2][..Covered(|m|, 0x7F_FFFF, 2)]), 0x7F_FFFF, [1, 2])
  {
    WrittenIffItFits(m, 0x1_0000, 0x7F_FFFF, [1, 2]);
  }

  function End(r: Region): int { r.offset + r.size }

  ghost predicate RegionFits(r: Region, sector: nat) {
    r.blocks > 0 && r.blockSize == sector && r.size == Extent(r.blocks, sector) && r.offset >= 0
  }
}
