/** A serial flash memory, seen from its pins: it takes one byte at a time while it is selected,
    answers each of them, and acts when it is deselected. */
module FlashChip {

  type Byte = b: int | 0 <= b < 256

  const WREN: Byte := 0x06
  const READ: Byte := 0x03
  const PP: Byte := 0x02
  const SE: Byte := 0xD8
  const RDSR: Byte := 0x05
  const EN4B: Byte := 0xB7
  const EX4B: Byte := 0xE9
  const RES: Byte := 0xAB
  const RDID: Byte := 0x9F

  const PAGE := 256

  datatype Chip = Chip(
    mem: seq<Byte>, sector: nat,      // the memory and its erase unit
    signature: Byte, id: seq<Byte>,   // what RES and RDID answer
    idle: Byte,                       // what is read from a line that nobody drives
    four: bool,                       // 4-byte address mode
    wel: bool,                        // write enable latch
    busy: nat,                        // byte times until the write in progress ends
    session: seq<Byte>,               // taken since the chip was selected
    ignored: bool)                    // the opcode came while a write was in progress

  ghost predicate WellFormed(c: Chip) {
    c.mem != [] && c.sector > 0 && |c.id| == 3
  }

  /** Deselected and at rest, in the mode other masters expect. */
  ghost predicate AtRest(c: Chip) {
    WellFormed(c) && c.session == [] && !c.ignored && c.busy == 0 && !c.wel && !c.four
  }

  // Addresses are sent high byte first

  function Limit(four: bool): nat { if four then 0x1_0000_0000 else 0x100_0000 }

  /** The part of an address that is sent. */
  function Truncated(offset: int, four: bool): (a: nat)
    ensures 0 <= offset < Limit(four) ==> a == offset
  {
    if four then offset % 0x1_0000_0000 else offset % 0x100_0000
  }

  function AddressLength(four: bool): nat { if four then 4 else 3 }

  function AddressOf(bytes: seq<Byte>): nat
    requires 3 <= |bytes| <= 4
  {
    var low := bytes[|bytes| - 3..];
    (if |bytes| == 4 then (bytes[0] as int) * 0x100_0000 else 0)
      + (low[0] as int) * 0x1_0000 + (low[1] as int) * 0x100 + low[2]
  }

  // What the memory holds after an erase or a program

  /** Bitwise and: programming can only clear bits. */
  function And(a: nat, b: nat): nat {
    if a == 0 then 0 else 2 * And(a / 2, b / 2) + (if a % 2 == 1 && b % 2 == 1 then 1 else 0)
  }

  lemma {:induction false} AndBounded(a: nat, b: nat)
    ensures And(a, b) <= a && And(a, b) <= b
  {
    if a != 0 {
      AndBounded(a / 2, b / 2);
    }
  }

  function ByteAnd(a: Byte, b: Byte): Byte {
    AndBounded(a, b);
    And(a, b)
  }

  /** An erased byte takes on any value. */
  lemma AndErased(b: Byte)
    ensures ByteAnd(0xFF, b) == b
  {
    AndOnes(8, b);
  }

  function Pow2(n: nat): nat { if n == 0 then 1 else 2 * Pow2(n - 1) }

  lemma {:induction false} AndOnes(n: nat, b: nat)
    requires b < Pow2(n)
    ensures And(Pow2(n) - 1, b) == b
  {
    if n > 0 {
      assert (Pow2(n) - 1) / 2 == Pow2(n - 1) - 1;
      AndOnes(n - 1, b / 2);
    }
  }

  function Erased(mem: seq<Byte>, sector: nat, a: nat): seq<Byte>
    requires sector > 0
  {
    seq(|mem|, p requires 0 <= p < |mem| => if p / sector == a / sector then 0xFF else mem[p])
  }

  /** Programs one page: the data starts at `a` and wraps around at the end of the page, and where
      there is more than a page of it the last byte for an address counts. */
  function Programmed(mem: seq<Byte>, a: nat, data: seq<Byte>): seq<Byte> {
    seq(|mem|, p requires 0 <= p < |mem| =>
      var k := (p - a) % PAGE;
      if p / PAGE == a / PAGE && k < |data| then ByteAnd(mem[p], data[LastFor(k, |data|)]) else mem[p])
  }

  function LastFor(k: nat, n: nat): (i: nat)
    requires k < n
    ensures i < n && i % PAGE == k % PAGE
    ensures i + PAGE >= n
  {
    k + (n - 1 - k) / PAGE * PAGE
  }

  // One byte time

  function Status(c: Chip): Byte {
    (if c.busy > 0 then 1 else 0) + (if c.wel then 2 else 0)
  }

  /** Reads go on at the start when they reach the end. */
  function At(mem: seq<Byte>, a: nat): Byte
    requires mem != []
  {
    mem[Wrap(a, |mem|)]
  }

  /** An address beyond the end of the memory starts again at 0. */
  function Wrap(a: nat, n: nat): (r: nat)
    requires n > 0
    ensures r < n && (a < n ==> r == a)
  {
    if a < n then a else Wrap(a - n, n)
  }

  /** What the chip puts on the line while it takes its next byte. */
  function Answer(c: Chip): Byte {
    if c.session == [] || c.ignored then c.idle else
    var n := |c.session| - 1;
    var al := AddressLength(c.four);
    if c.session[0] == READ && n >= al && c.mem != [] then
      At(c.mem, AddressOf(c.session[1..1 + al]) + (n - al))
    else if c.session[0] == RDSR then Status(c)
    else if c.session[0] == RES && n >= 3 then c.signature
    else if c.session[0] == RDID && n < |c.id| then c.id[n]
    else c.idle
  }

  function Clock(c: Chip, b: Byte): Chip {
    c.(session := c.session + [b],
       ignored := if c.session == [] then c.busy > 0 && b != RDSR else c.ignored,
       busy := if c.busy > 0 then c.busy - 1 else 0)
  }

  /** What the chip does when it is deselected.  A write takes `delay` byte times. */
  function Released(c: Chip, delay: nat): Chip {
    Execute(c, delay).(session := [], ignored := false)
  }

  function Execute(c: Chip, delay: nat): Chip {
    if c.session == [] || c.ignored then c else
    var al := AddressLength(c.four);
    var n := |c.session| - 1;
    if c.session[0] == WREN && n == 0 then c.(wel := true)
    else if !c.wel then c
    else if c.session[0] == EN4B && n == 0 then c.(four := true, wel := false)
    else if c.session[0] == EX4B && n == 0 then c.(four := false, wel := false)
    else if c.session[0] == SE && n == al && c.mem != [] && c.sector > 0 then
      c.(mem := Erased(c.mem, c.sector, Wrap(AddressOf(c.session[1..]), |c.mem|)), wel := false, busy := delay)
    else if c.session[0] == PP && n > al && c.mem != [] then
      c.(mem := Programmed(c.mem, Wrap(AddressOf(c.session[1..1 + al]), |c.mem|), c.session[1 + al..]),
         wel := false, busy := delay)
    else c
  }

  /** The chip after a run of bytes, that is after one `Clock` for each of them: see ClockedOneMore. */
  function Clocked(c: Chip, bytes: seq<Byte>): Chip {
    if bytes == [] then c else
    c.(session := c.session + bytes,
       ignored := if c.session == [] then c.busy > 0 && bytes[0] != RDSR else c.ignored,
       busy := if c.busy > |bytes| then c.busy - |bytes| else 0)
  }

  /** The answers to a run of bytes. */
  function Answers(c: Chip, bytes: seq<Byte>): (r: seq<Byte>)
    ensures |r| == |bytes| && forall i | 0 <= i < |bytes| :: r[i] == Answer(Clocked(c, bytes[..i]))
  {
    seq(|bytes|, i requires 0 <= i < |bytes| => Answer(Clocked(c, bytes[..i])))
  }

  lemma ClockedOneMore(c: Chip, bytes: seq<Byte>, i: nat)
    requires i < |bytes|
    ensures Clocked(c, bytes[..i + 1]) == Clock(Clocked(c, bytes[..i]), bytes[i])
    ensures Clocked(c, bytes[..0]) == c
  {
    assert bytes[..i + 1] == bytes[..i] + [bytes[i]];
    assert c.session + (bytes[..i] + [bytes[i]]) == c.session + bytes[..i] + [bytes[i]];
  }

  /** A chip that is at rest while a run of bytes comes in just collects them. */
  lemma ClockedCollects(c: Chip, bytes: seq<Byte>)
    requires !c.ignored && c.busy == 0
    ensures Clocked(c, bytes) == c.(session := c.session + bytes)
  {
    if bytes == [] {
      assert c.session + bytes == c.session;
    }
  }
}
