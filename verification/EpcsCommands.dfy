/** The flash commands: what one session of each does to the chip, and the routines that send them. */
module EpcsCommands {
  import opened FlashChip
  import opened SpiMaster

  // Addresses on the wire

  /** The address bytes of a command, as the driver shifts and masks them out. */
  function AddressBytes(offset: int, four: bool): seq<Byte> {
    if four then [offset / 0x100_0000 % 256] + LowBytes(offset) else LowBytes(offset)
  }

  function LowBytes(offset: int): seq<Byte> { [offset / 0x1_0000 % 256, offset / 0x100 % 256, offset % 256] }

  lemma LowTwo(x: int)
    ensures x / 0x100 % 256 * 0x100 + x % 0x100 == x % 0x1_0000
  {
    assert x == x / 0x100 / 256 * 0x1_0000 + x / 0x100 % 256 * 0x100 + x % 0x100;
  }

  lemma LowThree(x: int)
    ensures x / 0x1_0000 % 256 * 0x1_0000 + x % 0x1_0000 == x % 0x100_0000
  {
    assert 0 <= x / 0x1_0000 % 256 * 0x1_0000 + x % 0x1_0000 < 0x100_0000;
    assert x == x / 0x1_0000 / 256 * 0x100_0000 + x / 0x1_0000 % 256 * 0x1_0000 + x % 0x1_0000;
  }

  lemma LowFour(x: int)
    ensures x / 0x100_0000 % 256 * 0x100_0000 + x % 0x100_0000 == x % 0x1_0000_0000
  {
    assert x == x / 0x100_0000 / 256 * 0x1_0000_0000 + x / 0x100_0000 % 256 * 0x100_0000 + x % 0x100_0000;
  }

  /** The chip takes them for the address, up to the width of the mode. */
  lemma AddressRoundTrip(offset: int, four: bool)
    ensures |AddressBytes(offset, four)| == AddressLength(four)
    ensures AddressOf(AddressBytes(offset, four)) == Truncated(offset, four)
  {
    LowTwo(offset);
    LowThree(offset);
    LowFour(offset);
  }

  // Sessions

  /** What a whole session leaves behind. */
  function Session(c: Chip, bytes: seq<Byte>, delay: nat): Chip {
    Released(Clocked(c, bytes), delay)
  }

  /** Ready for a command other than a status read. */
  ghost predicate Listens(c: Chip) {
    WellFormed(c) && c.session == [] && !c.ignored && c.busy == 0
  }

  lemma Taken(c: Chip, bytes: seq<Byte>)
    requires Listens(c)
    ensures Clocked(c, bytes) == c.(session := bytes)
  {
    ClockedCollects(c, bytes);
    assert c.session + bytes == bytes;
  }

  lemma ShortSession(c: Chip, opcode: Byte, delay: nat)
    requires Listens(c)
    ensures opcode == WREN ==> Session(c, [opcode], delay) == c.(wel := true)
    ensures opcode == EN4B && c.wel ==> Session(c, [opcode], delay) == c.(wel := false, four := true)
    ensures opcode == EX4B && c.wel ==> Session(c, [opcode], delay) == c.(wel := false, four := false)
  {
    Taken(c, [opcode]);
  }

  lemma EraseSession(c: Chip, offset: int, delay: nat)
    requires Listens(c) && c.wel
    ensures Session(c, [SE] + AddressBytes(offset, c.four), delay)
         == c.(mem := Erased(c.mem, c.sector, Wrap(Truncated(offset, c.four), |c.mem|)), wel := false, busy := delay)
  {
    var bytes := [SE] + AddressBytes(offset, c.four);
    AddressRoundTrip(offset, c.four);
    Taken(c, bytes);
    assert bytes[1..] == AddressBytes(offset, c.four);
  }

  /** A program session, in the two halves in which the driver sends it. */
  lemma ProgramSession(c: Chip, offset: int, data: seq<Byte>, delay: nat)
    requires Listens(c) && c.wel && data != []
    ensures Session(Clocked(c, [PP] + AddressBytes(offset, c.four)), data, delay)
         == c.(mem := Programmed(c.mem, Wrap(Truncated(offset, c.four), |c.mem|), data), wel := false, busy := delay)
  {
    var head := [PP] + AddressBytes(offset, c.four);
    AddressRoundTrip(offset, c.four);
    Taken(c, head);
    ClockedCollects(Clocked(c, head), data);
    var bytes := head + data;
    var al := AddressLength(c.four);
    assert bytes[1..1 + al] == AddressBytes(offset, c.four) && bytes[1 + al..] == data;
  }

  lemma ReadAnswer(c: Chip, address: seq<Byte>, taken: seq<Byte>, k: nat)
    requires Listens(c) && |address| == AddressLength(c.four) && |taken| == 1 + |address| + k
    requires taken[0] == READ && taken[1..1 + |address|] == address
    ensures Answer(Clocked(c, taken)) == At(c.mem, AddressOf(address) + k)
  {
    Taken(c, taken);
  }

  lemma Leading(b: Byte, address: seq<Byte>, rest: seq<Byte>, n: nat)
    requires 1 + |address| <= n <= 1 + |address| + |rest|
    ensures var taken := ([b] + address + rest)[..n]; taken[0] == b && taken[1..1 + |address|] == address
  {
  }

  lemma AnswerAt(c: Chip, address: seq<Byte>, n: nat, k: nat)
    requires Listens(c) && |address| == AddressLength(c.four) && k < n
    ensures |[READ] + address + Zeros(n)| == 1 + |address| + n
    ensures var bytes := [READ] + address + Zeros(n);
            Answers(c, bytes)[1 + |address| + k] == At(c.mem, AddressOf(address) + k)
  {
    Leading(READ, address, Zeros(n), 1 + |address| + k);
    ReadAnswer(c, address, ([READ] + address + Zeros(n))[..1 + |address| + k], k);
  }

  lemma AnswersFrom(c: Chip, address: seq<Byte>, n: nat)
    requires Listens(c) && |address| == AddressLength(c.four)
    ensures Answers(c, [READ] + address + Zeros(n))[1 + |address|..] == MemoryFrom(c.mem, AddressOf(address), n)
  {
    var bytes := [READ] + address + Zeros(n);
    assert |bytes| == 1 + |address| + n;
    var answers, memory := Answers(c, bytes), MemoryFrom(c.mem, AddressOf(address), n);
    assert |answers| == |bytes|;
    forall k: nat | k < n ensures answers[1 + |address| + k] == memory[k] {
      AnswerAt(c, address, n, k);
    }
    SuffixIs(answers, 1 + |address|, memory);
  }

  lemma SuffixIs(s: seq<Byte>, n: nat, t: seq<Byte>)
    requires |s| == n + |t| && forall k: nat | k < |t| :: s[n + k] == t[k]
    ensures s[n..] == t
  {
  }

  /** A read session changes nothing ... */
  lemma ReadSession(c: Chip, offset: int, n: nat, delay: nat)
    requires Listens(c)
    ensures Session(c, [READ] + AddressBytes(offset, c.four) + Zeros(n), delay) == c
  {
    Taken(c, [READ] + AddressBytes(offset, c.four) + Zeros(n));
  }

  /** ... and answers from the address on, around the end if need be. */
  lemma ReadAnswers(c: Chip, offset: int, n: nat)
    requires Listens(c)
    ensures Answers(c, [READ] + AddressBytes(offset, c.four) + Zeros(n))[1 + AddressLength(c.four)..]
         == MemoryFrom(c.mem, Truncated(offset, c.four), n)
  {
    AddressRoundTrip(offset, c.four);
    AnswersFrom(c, AddressBytes(offset, c.four), n);
  }

  /** `n` bytes from `a` on, going on at the start when the end is reached. */
  function MemoryFrom(mem: seq<Byte>, a: nat, n: nat): (r: seq<Byte>)
    requires mem != []
    ensures |r| == n && forall k | 0 <= k < n :: r[k] == At(mem, a + k)
  {
    seq<Byte>(n, k requires 0 <= k < n => At(mem, a + k))
  }

  /** A status read is answered at any time, and says whether a write is in progress. */
  lemma StatusSession(c: Chip, delay: nat)
    requires c.session == [] && !c.ignored
    ensures Session(c, [RDSR] + Zeros(1), delay) == c.(busy := if c.busy > 2 then c.busy - 2 else 0)
    ensures Answers(c, [RDSR] + Zeros(1))[1] == Status(c.(busy := if c.busy > 1 then c.busy - 1 else 0))
  {
    var bytes := [RDSR] + Zeros(1);
    assert bytes == [RDSR, 0];
    ClockedOneMore(c, bytes, 0);
    ClockedOneMore(c, bytes, 1);
    assert bytes[..0] == [] && bytes[..2] == bytes;
    assert c.session + [RDSR] == [RDSR] && [RDSR] + [0] == [RDSR, 0];
  }

  lemma SignatureSession(c: Chip, delay: nat)
    requires Listens(c)
    ensures Session(c, [RES, 0, 0, 0] + Zeros(1), delay) == c
    ensures Answers(c, [RES, 0, 0, 0] + Zeros(1))[4] == c.signature
  {
    var bytes := [RES, 0, 0, 0] + Zeros(1);
    Taken(c, bytes);
    Taken(c, bytes[..4]);
  }

  lemma IdAnswer(c: Chip, taken: seq<Byte>)
    requires Listens(c) && 1 <= |taken| <= 3 && taken[0] == RDID
    ensures Answer(Clocked(c, taken)) == c.id[|taken| - 1]
  {
    Taken(c, taken);
  }

  lemma IdSession(c: Chip, delay: nat)
    requires Listens(c)
    ensures Session(c, [RDID] + Zeros(3), delay) == c
    ensures Answers(c, [RDID] + Zeros(3))[1..] == c.id
  {
    var bytes := [RDID] + Zeros(3);
    Taken(c, bytes);
    IdAnswer(c, bytes[..1]);
    IdAnswer(c, bytes[..2]);
    IdAnswer(c, bytes[..3]);
  }

  // What the chip is sent

  /** A command of any mode, with the commands that switch to 4-byte mode and back. */
  function InMode(four: bool, sessions: seq<seq<Byte>>): seq<seq<Byte>> {
    if four then [[WREN], [EN4B]] + sessions + [[WREN], [EX4B]] else sessions
  }

  function EraseSessions(offset: int, four: bool): seq<seq<Byte>> {
    InMode(four, [[WREN], [SE] + AddressBytes(offset, four)])
  }

  function ProgramSessions(offset: int, src: seq<Byte>, four: bool): seq<seq<Byte>> {
    InMode(four, [[WREN], [PP] + AddressBytes(offset, four) + src])
  }

  function ReadSessions(offset: int, n: nat, four: bool): seq<seq<Byte>> {
    InMode(four, [[READ] + AddressBytes(offset, four) + Zeros(n)])
  }

  /** The address bytes are the digits of the address to base 256, high byte first. */
  lemma AddressDigits(a: Byte, b: Byte, c: Byte, d: Byte)
    ensures var offset := ((a as int * 0x100 + b) * 0x100 + c) * 0x100 + d;
            AddressBytes(offset, true) == [a, b, c, d] && AddressBytes(offset, false) == [b, c, d]
  {
    var x := a as int * 0x100 + b;
    var y := x * 0x100 + c;
    ByteOf(0, a);
    ByteOf(a as int, b);
    ByteOf(x, c);
    ByteOf(y, d);
    assert (y * 0x100 + d) / 0x1_0000 == x && (y * 0x100 + d) / 0x100_0000 == a as int;
  }

  lemma ByteOf(x: int, b: Byte)
    ensures (x * 0x100 + b) / 0x100 == x && (x * 0x100 + b) % 0x100 == b as int
  {
  }

  /** What goes over the wire in 3-byte mode ... */
  lemma WireInThreeByteMode(b: Byte, c: Byte, d: Byte, src: seq<Byte>, n: nat)
    ensures var offset := (b as int * 0x100 + c) * 0x100 + d;
            && EraseSessions(offset, false) == [[0x06], [0xD8, b, c, d]]
            && ProgramSessions(offset, src, false) == [[0x06], [0x02, b, c, d] + src]
            && ReadSessions(offset, n, false) == [[0x03, b, c, d] + Zeros(n)]
  {
    AddressDigits(0, b, c, d);
    Opcode(b, c, d);
  }

  lemma Opcode(b: Byte, c: Byte, d: Byte)
    ensures [SE] + [b, c, d] == [0xD8, b, c, d] && [PP] + [b, c, d] == [0x02, b, c, d] && [READ] + [b, c, d] == [0x03, b, c, d]
  {
  }

  /** ... and in 4-byte mode, which is entered before and left after. */
  lemma WireInFourByteMode(a: Byte, b: Byte, c: Byte, d: Byte, src: seq<Byte>, n: nat)
    ensures var offset := ((a as int * 0x100 + b) * 0x100 + c) * 0x100 + d;
            && EraseSessions(offset, true) == [[0x06], [0xB7], [0x06], [0xD8, a, b, c, d], [0x06], [0xE9]]
            && ProgramSessions(offset, src, true) == [[0x06], [0xB7], [0x06], [0x02, a, b, c, d] + src, [0x06], [0xE9]]
            && ReadSessions(offset, n, true) == [[0x06], [0xB7], [0x03, a, b, c, d] + Zeros(n), [0x06], [0xE9]]
  {
    AddressDigits(a, b, c, d);
    assert [SE] + [a, b, c, d] == [0xD8, a, b, c, d];
    assert [PP] + [a, b, c, d] == [0x02, a, b, c, d];
    assert [READ] + [a, b, c, d] == [0x03, a, b, c, d];
  }

  // The routines.  Between any two of them the bus is quiet and the chip deselected.

  ghost predicate Ready(spi: Spi)
    reads spi
  {
    spi.Quiet() && !spi.sso && WellFormed(spi.chip)
  }

  /** A command of no answers, in a session of its own. */
  method Send(spi: Spi, bytes: seq<Byte>) returns (ghost delay: nat)
    requires Ready(spi) && bytes != [] && bytes[0] != RDSR
    modifies spi
    ensures spi.Quiet() && !spi.sso && spi.chip == Session(old(spi.chip), bytes, delay)
    ensures spi.log == old(spi.log) + [bytes]
  {
    var _, d := spi.Command(bytes, 0, false);
    delay := d;
    assert old(spi.chip).session + bytes + Zeros(0) == bytes && bytes + Zeros(0) == bytes;
  }

  method WriteEnable(spi: Spi)
    requires Ready(spi) && Listens(spi.chip)
    modifies spi
    ensures Ready(spi) && Listens(spi.chip) && spi.chip == old(spi.chip).(wel := true)
    ensures spi.log == old(spi.log) + [[WREN]]
  {
    var delay := Send(spi, [WREN]);
    ShortSession(old(spi.chip), WREN, delay);
  }

  method EnterFourByteMode(spi: Spi)
    requires Ready(spi) && Listens(spi.chip)
    modifies spi
    ensures Ready(spi) && Listens(spi.chip) && spi.chip == old(spi.chip).(wel := false, four := true)
    ensures spi.log == old(spi.log) + [[WREN], [EN4B]]
  {
    WriteEnable(spi);
    ghost var c := spi.chip;
    var delay := Send(spi, [EN4B]);
    ShortSession(c, EN4B, delay);
  }

  method ExitFourByteMode(spi: Spi)
    requires Ready(spi) && Listens(spi.chip)
    modifies spi
    ensures Ready(spi) && Listens(spi.chip) && spi.chip == old(spi.chip).(wel := false, four := false)
    ensures spi.log == old(spi.log) + [[WREN], [EX4B]]
  {
    WriteEnable(spi);
    ghost var c := spi.chip;
    var delay := Send(spi, [EX4B]);
    ShortSession(c, EX4B, delay);
  }

  method ReadStatus(spi: Spi) returns (status: Byte)
    requires Ready(spi) && spi.chip.session == [] && !spi.chip.ignored
    modifies spi
    ensures Ready(spi) && spi.log == old(spi.log)
    ensures var c := old(spi.chip);
            && spi.chip == c.(busy := if c.busy > 2 then c.busy - 2 else 0)
            && status % 2 == if c.busy > 1 then 1 else 0
  {
    var read, delay := spi.Command([RDSR], 1, false);
    StatusSession(old(spi.chip), delay);
    status := read[0];
  }

  /** Polls the status register until the write in progress, if any, has ended. */
  method AwaitWritten(spi: Spi)
    requires Ready(spi) && spi.chip.session == [] && !spi.chip.ignored
    modifies spi
    ensures Ready(spi) && Listens(spi.chip) && spi.chip == old(spi.chip).(busy := 0) && spi.log == old(spi.log)
  {
    var status := ReadStatus(spi);
    while status % 2 == 1
      invariant Ready(spi) && spi.chip == old(spi.chip).(busy := spi.chip.busy) && spi.log == old(spi.log)
      invariant status % 2 == 0 ==> spi.chip.busy == 0
      decreases status % 2, spi.chip.busy
    {
      status := ReadStatus(spi);
    }
  }

  /** Erases the sector that holds `offset`. */
  method SectorErase(spi: Spi, offset: int, four: bool)
    requires Ready(spi) && AtRest(spi.chip)
    modifies spi
    ensures Ready(spi) && AtRest(spi.chip)
    ensures var c := old(spi.chip);
            spi.chip == c.(mem := Erased(c.mem, c.sector, Wrap(Truncated(offset, four), |c.mem|)))
    ensures spi.log == old(spi.log) + EraseSessions(offset, four)
  {
    if four {
      EnterFourByteMode(spi);
    }
    WriteEnable(spi);
    ghost var c := spi.chip;
    var delay := Send(spi, [SE] + AddressBytes(offset, four));
    EraseSession(c, offset, delay);
    AwaitWritten(spi);
    if four {
      ExitFourByteMode(spi);
    }
  }

  /** The address and the data of a page program are two commands, merged into one session. */
  method SendProgram(spi: Spi, offset: int, src: seq<Byte>, four: bool) returns (ghost delay: nat)
    requires Ready(spi) && Listens(spi.chip) && src != [] && four == spi.chip.four
    modifies spi
    ensures spi.Quiet() && !spi.sso
    ensures spi.chip == Session(Clocked(old(spi.chip), [PP] + AddressBytes(offset, four)), src, delay)
    ensures spi.log == old(spi.log) + [[PP] + AddressBytes(offset, four) + src]
  {
    var pp := [PP] + AddressBytes(offset, four);
    var _, _ := spi.Command(pp, 0, true);
    assert pp + Zeros(0) == pp;
    Taken(old(spi.chip), pp);
    var _, d := spi.Command(src, 0, false);
    delay := d;
    assert src + Zeros(0) == src && pp + src + Zeros(0) == pp + src;
  }

  method WriteInMode(spi: Spi, offset: int, src: seq<Byte>, four: bool)
    requires Ready(spi) && Listens(spi.chip) && src != [] && four == spi.chip.four
    modifies spi
    ensures Ready(spi) && Listens(spi.chip)
    ensures var c := old(spi.chip);
            spi.chip == c.(mem := Programmed(c.mem, Wrap(Truncated(offset, four), |c.mem|), src), wel := false)
    ensures spi.log == old(spi.log) + [[WREN], [PP] + AddressBytes(offset, four) + src]
  {
    WriteEnable(spi);
    ghost var c := spi.chip;
    var delay := SendProgram(spi, offset, src, four);
    ProgramSession(c, offset, src, delay);
    AwaitWritten(spi);
  }

  /** Programs one page. */
  method WriteBuffer(spi: Spi, offset: int, src: seq<Byte>, four: bool)
    requires Ready(spi) && AtRest(spi.chip) && src != []
    modifies spi
    ensures Ready(spi) && AtRest(spi.chip)
    ensures var c := old(spi.chip);
            spi.chip == c.(mem := Programmed(c.mem, Wrap(Truncated(offset, four), |c.mem|), src))
    ensures spi.log == old(spi.log) + ProgramSessions(offset, src, four)
  {
    if four {
      EnterFourByteMode(spi);
    }
    WriteInMode(spi, offset, src, four);
    if four {
      ExitFourByteMode(spi);
    }
  }

  /** Reads `n` bytes, once a write in progress has ended, and leaves the chip as it was. */
  method ReadBuffer(spi: Spi, offset: int, n: nat, four: bool) returns (data: seq<Byte>)
    requires Ready(spi) && AtRest(spi.chip.(busy := 0)) && (four ==> spi.chip.busy == 0)
    modifies spi
    ensures Ready(spi) && spi.chip == old(spi.chip).(busy := 0)
    ensures data == MemoryFrom(spi.chip.mem, Truncated(offset, four), n)
    ensures spi.log == old(spi.log) + ReadSessions(offset, n, four)
  {
    if four {
      EnterFourByteMode(spi);
    }
    AwaitWritten(spi);
    ghost var c := spi.chip;
    data := SendRead(spi, offset, n, four);
    if four {
      ExitFourByteMode(spi);
    }
  }

  method SendRead(spi: Spi, offset: int, n: nat, four: bool) returns (data: seq<Byte>)
    requires Ready(spi) && Listens(spi.chip) && four == spi.chip.four
    modifies spi
    ensures Ready(spi) && spi.chip == old(spi.chip)
    ensures data == MemoryFrom(spi.chip.mem, Truncated(offset, four), n)
    ensures spi.log == old(spi.log) + [[READ] + AddressBytes(offset, four) + Zeros(n)]
  {
    ghost var c, log := spi.chip, spi.log;
    var command := [READ] + AddressBytes(offset, four);
    ghost var delay;
    data, delay := spi.Command(command, n, false);
    ReadLogged(log, command, n);
    ReadLength(offset, four);
    ReadAnswers(c, offset, n);
    ReadSession(c, offset, n, delay);
  }

  lemma ReadLength(offset: int, four: bool)
    ensures |[READ] + AddressBytes(offset, four)| == 1 + AddressLength(four)
  {
  }

  lemma ReadLogged(log: seq<seq<Byte>>, command: seq<Byte>, n: nat)
    requires command != [] && command[0] != RDSR
    ensures Logged(log, [] + command + Zeros(n)) == log + [command + Zeros(n)]
  {
    assert [] + command + Zeros(n) == command + Zeros(n);
  }

  method ReadSignature(spi: Spi) returns (signature: Byte)
    requires Ready(spi) && AtRest(spi.chip)
    modifies spi
    ensures Ready(spi) && spi.chip == old(spi.chip) && signature == spi.chip.signature
  {
    var read, delay := spi.Command([RES, 0, 0, 0], 1, false);
    SignatureSession(old(spi.chip), delay);
    signature := read[0];
  }

  function IdNumber(id: seq<Byte>): nat
    requires |id| == 3
  {
    (id[0] as int) * 0x1_0000 + (id[1] as int) * 0x100 + id[2]
  }

  lemma IdBytes(id: seq<Byte>)
    requires |id| == 3
    ensures IdNumber(id) / 0x1_0000 == id[0] as int && IdNumber(id) / 0x100 % 0x100 == id[1] as int && IdNumber(id) % 0x100 == id[2] as int
  {
    var high := id[0] as int * 0x100 + id[1];
    ByteOf(id[0] as int, id[1]);
    ByteOf(high, id[2]);
    assert IdNumber(id) == high * 0x100 + id[2];
    Halves(IdNumber(id));
  }

  lemma Halves(x: nat)
    ensures x / 0x1_0000 == x / 0x100 / 0x100
  {
  }

  /** The three id bytes, high byte first. */
  method ReadDeviceId(spi: Spi) returns (id: nat)
    requires Ready(spi) && AtRest(spi.chip)
    modifies spi
    ensures Ready(spi) && spi.chip == old(spi.chip) && id == IdNumber(spi.chip.id)
    ensures id / 0x1_0000 == spi.chip.id[0] as int && id / 0x100 % 0x100 == spi.chip.id[1] as int && id % 0x100 == spi.chip.id[2] as int
  {
    var read, delay := spi.Command([RDID], 3, false);
    IdSession(old(spi.chip), delay);
    id := IdNumber(read);
    IdBytes(read);
  }
}
