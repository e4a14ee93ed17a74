/** The JTAG UART driver as a step system: one writer, one reader, the interrupt routine and the
    device, interleaved in every way the hardware allows.  A foreground step or a device step is
    atomic; the interrupt routine runs one register access at a time, and no foreground step
    happens while it runs. */
module JtagProtocol {
  import opened Ring

  /** Where the writer is: between chunks, or with the first |done| of the characters of `chunk`
      copied into the transmit buffer and the index not yet moved. */
  datatype Writer = WriterIdle | Writing(chunk: seq<char>, done: nat)

  /** Where the reader is: between chunks, or with `got` copied out of a run of `n`. */
  datatype Reader = ReaderIdle | Reading(n: nat, got: seq<char>)

  /** Where the interrupt routine is.  `wi` and `space` are what it read from the control
      register; `ravail` is whether the last data read said that more is waiting. */
  datatype Isr =
    | Off
    | Receiving(wi: bool, space: nat, ravail: bool)
    | Masking(wi: bool, space: nat, ravail: bool)
    | Sending(space: nat)

  /** The pending bits, as the control register shows them. */
  datatype Pending = Pending(ri: bool, wi: bool)

  datatype State = State(
    // the driver's record
    txIn: nat, txOut: nat, txBuf: Buffer,
    rxIn: nat, rxOut: nat, rxBuf: Buffer,
    re: bool, we: bool,
    // the device's two FIFOs and their depth
    rxFifo: seq<char>, txFifo: seq<char>, depth: nat,
    // how long the host has been silent, in seconds
    inactive: nat,
    // control
    writer: Writer, reader: Reader, isr: Isr,
    kickTx: bool,   // the writer has moved txIn and not yet enabled the interrupt
    kickRx: bool,   // the reader has moved rxOut and not yet enabled the interrupt
    // history
    controls: seq<Pending>,  // what the reads of the control register showed
    accepted: seq<char>,   // taken from write() callers
    sent: seq<char>,       // given to the device
    drained: seq<char>,    // taken from the device by the host
    arrived: seq<char>,    // given to the device by the host
    delivered: seq<char>)  // given to read() callers

  ghost predicate Init(s: State) {
    && s.txIn == s.txOut == s.rxIn == s.rxOut == 0
    && s.re && !s.we
    && s.rxFifo == s.txFifo == []
    && s.writer == WriterIdle && s.reader == ReaderIdle && s.isr == Off && !s.kickTx && !s.kickRx
    && s.controls == [] && s.accepted == s.sent == s.drained == s.arrived == s.delivered == []
  }

  function Min(a: nat, b: nat): nat { if a <= b then a else b }

  ghost predicate Indices(s: State) {
    s.txIn < BUF_LEN && s.txOut < BUF_LEN && s.rxIn < BUF_LEN && s.rxOut < BUF_LEN
  }

  // The writer: altera_avalon_jtag_uart_write

  /** Read both indices and settle on the next chunk out of what is left to write. */
  ghost predicate WriteSnapshot(s: State, s': State, rest: seq<char>) {
    && s.isr == Off && s.writer == WriterIdle && Indices(s)
    && var n := Min(Room(s.txIn, s.txOut), |rest|);
    && n > 0
    && s' == s.(writer := Writing(rest[..n], 0))
  }

  ghost predicate WriteCopy(s: State, s': State) {
    && s.isr == Off && s.writer.Writing? && s.writer.done < |s.writer.chunk|
    && var i := s.txIn + s.writer.done;
    && i < BUF_LEN
    && s' == s.(txBuf := s.txBuf[i := s.writer.chunk[s.writer.done]], writer := s.writer.(done := s.writer.done + 1))
  }

  ghost predicate WriteCommit(s: State, s': State) {
    && s.isr == Off && s.writer.Writing? && s.writer.done == |s.writer.chunk|
    && s' == s.(txIn := (s.txIn + s.writer.done) % BUF_LEN, writer := WriterIdle, kickTx := true,
                accepted := s.accepted + s.writer.chunk)
  }

  ghost predicate WriteEnable(s: State, s': State) {
    && s.isr == Off && s.writer == WriterIdle
    && s' == s.(we := true, kickTx := false)
  }

  // The reader: altera_avalon_jtag_uart_read

  ghost predicate ReadSnapshot(s: State, s': State, space: nat) {
    && s.isr == Off && s.reader == ReaderIdle && Indices(s)
    && var n := Min(Available(s.rxIn, s.rxOut), space);
    && n > 0
    && s' == s.(reader := Reading(n, []))
  }

  ghost predicate ReadCopy(s: State, s': State) {
    && s.isr == Off && s.reader.Reading? && |s.reader.got| < s.reader.n
    && var i := s.rxOut + |s.reader.got|;
    && i < BUF_LEN
    && s' == s.(reader := s.reader.(got := s.reader.got + [s.rxBuf[i]]))
  }

  ghost predicate ReadCommit(s: State, s': State) {
    && s.isr == Off && s.reader.Reading? && |s.reader.got| == s.reader.n
    && s' == s.(rxOut := (s.rxOut + s.reader.n) % BUF_LEN, reader := ReaderIdle, kickRx := true,
                delivered := s.delivered + s.reader.got)
  }

  ghost predicate ReadEnable(s: State, s': State) {
    && s.isr == Off && s.reader == ReaderIdle
    && s' == s.(re := true, kickRx := false)
  }

  // The interrupt routine: altera_avalon_jtag_uart_irq

  /** Reads the control register.  `ri` and `wi` are the pending bits: a bit can be pending only while
      it is enabled. */
  ghost predicate IsrEnter(s: State, s': State, ri: bool, wi: bool) {
    && s.isr == Off && (ri ==> s.re) && (wi ==> s.we)
    && |s.txFifo| <= s.depth
    && s' == s.(isr := Served(ri, wi, s.depth - |s.txFifo|), controls := s.controls + [Pending(ri, wi)])
  }

  /** The receive half comes first. */
  function Served(ri: bool, wi: bool, space: nat): Isr {
    if ri then Receiving(wi, space, true) else if wi then Sending(space) else Off
  }

  /** A slot is free: try to take a character from the FIFO. */
  ghost predicate IsrReceive(s: State, s': State) {
    && s.isr.Receiving? && Indices(s) && Next(s.rxIn) != s.rxOut
    && if s.rxFifo == [] then s' == s.(isr := Masking(s.isr.wi, s.isr.space, false))
       else s' == s.(rxFifo := s.rxFifo[1..], rxBuf := s.rxBuf[s.rxIn := s.rxFifo[0]], rxIn := Next(s.rxIn),
                     isr := Receiving(s.isr.wi, s.isr.space, |s.rxFifo| > 1))
  }

  ghost predicate IsrReceiveFull(s: State, s': State) {
    && s.isr.Receiving? && Next(s.rxIn) == s.rxOut
    && s' == s.(isr := Masking(s.isr.wi, s.isr.space, s.isr.ravail))
  }

  /** More is waiting and there is no slot for it: turn off receive interrupts. */
  ghost predicate IsrMask(s: State, s': State) {
    && s.isr.Masking?
    && s' == s.(re := s.re && !s.isr.ravail, isr := if s.isr.wi then Sending(s.isr.space) else Off)
  }

  ghost predicate IsrSend(s: State, s': State) {
    && s.isr.Sending? && s.isr.space > 0 && Indices(s) && s.txOut != s.txIn
    && s' == s.(txFifo := s.txFifo + [s.txBuf[s.txOut]], sent := s.sent + [s.txBuf[s.txOut]],
                txOut := Next(s.txOut), isr := Sending(s.isr.space - 1))
  }

  ghost predicate IsrSendDone(s: State, s': State) {
    && s.isr.Sending? && (s.isr.space == 0 || s.txOut == s.txIn)
    && s' == s.(we := s.we && s.isr.space == 0, isr := Off)
  }

  // The device, at any time

  ghost predicate HostSends(s: State, s': State, c: char) {
    && |s.rxFifo| < s.depth
    && s' == s.(rxFifo := s.rxFifo + [c], arrived := s.arrived + [c])
  }

  ghost predicate HostDrains(s: State, s': State) {
    && s.txFifo != []
    && s' == s.(txFifo := s.txFifo[1..], drained := s.drained + [s.txFifo[0]])
  }

  /** The once-a-second routine counts on, or starts again because the host was active. */
  ghost predicate HostCounted(s: State, s': State, n: nat) {
    s' == s.(inactive := n)
  }

  ghost predicate ForegroundStep(s: State, s': State) {
    || (exists rest :: WriteSnapshot(s, s', rest))
    || WriteCopy(s, s') || WriteCommit(s, s') || WriteEnable(s, s')
    || (exists space :: ReadSnapshot(s, s', space))
    || ReadCopy(s, s') || ReadCommit(s, s') || ReadEnable(s, s')
  }

  ghost predicate IsrStep(s: State, s': State) {
    || (exists ri, wi :: IsrEnter(s, s', ri, wi))
    || IsrReceive(s, s') || IsrReceiveFull(s, s') || IsrMask(s, s') || IsrSend(s, s') || IsrSendDone(s, s')
  }

  ghost predicate HostStep(s: State, s': State) {
    (exists c :: HostSends(s, s', c)) || HostDrains(s, s') || (exists n :: HostCounted(s, s', n))
  }

  ghost predicate Step(s: State, s': State) {
    ForegroundStep(s, s') || IsrStep(s, s') || HostStep(s, s')
  }

  ghost predicate StepAt(t: seq<State>, i: int)
    requires 0 <= i < |t| - 1
  {
    Step(t[i], t[i + 1])
  }

  ghost predicate Run(t: seq<State>) {
    && t != [] && Init(t[0])
    && forall i | 0 <= i < |t| - 1 :: StepAt(t, i)
  }

  lemma RunGoesOn(t: seq<State>, s: State)
    requires Run(t) && Step(t[|t| - 1], s)
    ensures Run(t + [s])
  {
    forall i | 0 <= i < |t| ensures StepAt(t + [s], i) {
      assert i < |t| - 1 ==> StepAt(t, i);
    }
  }

  // What every reachable state satisfies

  ghost predicate TxConserved(s: State)
    requires Indices(s)
  {
    && s.accepted == s.sent + Contents(s.txBuf, s.txOut, s.txIn)
    && s.sent == s.drained + s.txFifo
  }

  ghost predicate RxConserved(s: State)
    requires Indices(s)
  {
    s.arrived == s.delivered + Contents(s.rxBuf, s.rxOut, s.rxIn) + s.rxFifo
  }

  /** The slots being written are free, and hold what has been copied. */
  ghost predicate WriterInv(s: State)
    requires Indices(s)
  {
    s.writer.Writing? ==>
      && 0 < |s.writer.chunk| <= Room(s.txIn, s.txOut) && s.writer.done <= |s.writer.chunk|
      && s.txIn + |s.writer.chunk| <= BUF_LEN
      && s.txBuf[s.txIn..s.txIn + s.writer.done] == s.writer.chunk[..s.writer.done]
  }

  /** The slots being read are unread, and `got` is what the first of them hold. */
  ghost predicate ReaderInv(s: State)
    requires Indices(s)
  {
    s.reader.Reading? ==>
      && 0 < s.reader.n <= Available(s.rxIn, s.rxOut) && |s.reader.got| <= s.reader.n
      && s.rxOut + s.reader.n <= BUF_LEN
      && s.reader.got == s.rxBuf[s.rxOut..s.rxOut + |s.reader.got|]
  }

  /** No wakeup is lost: characters wait in the transmit buffer only if the transmit interrupt is
      enabled or about to be, and the receive interrupt is off only if the receive buffer is full
      or the interrupt is about to be enabled. */
  ghost predicate NoLostWakeup(s: State) {
    && (s.txIn != s.txOut ==> s.we || s.kickTx)
    && (!s.re ==> Next(s.rxIn) == s.rxOut || s.kickRx)
  }

  /** What the interrupt routine knows while it runs. */
  ghost predicate IsrInv(s: State) {
    && (s.isr.Receiving? || s.isr.Masking? || s.isr.Sending? ==> |s.txFifo| + s.isr.space <= s.depth)
    && (s.isr.Masking? && s.isr.ravail ==> Next(s.rxIn) == s.rxOut)
    && |s.rxFifo| <= s.depth && |s.txFifo| <= s.depth
  }

  ghost predicate Inv(s: State) {
    Indices(s) && TxConserved(s) && RxConserved(s) && WriterInv(s) && ReaderInv(s) && NoLostWakeup(s) && IsrInv(s)
  }

  lemma InitInv(s: State)
    requires Init(s)
    ensures Inv(s)
  {
  }

  lemma WriteSnapshotInv(s: State, s': State, rest: seq<char>)
    requires Inv(s) && WriteSnapshot(s, s', rest)
    ensures Inv(s')
  {
  }

  lemma WriteCopyInv(s: State, s': State)
    requires Inv(s) && WriteCopy(s, s')
    ensures Inv(s')
  {
    var i, c := s.txIn + s.writer.done, s.writer.chunk[s.writer.done];
    WriteElsewhere(s.txBuf, s.txOut, s.txIn, i, c);
    Stored(s.txBuf, s.txIn, i, c);
    OneMore(s.writer.chunk, 0, s.writer.done);
  }

  lemma ChunkStored(s: State)
    requires Inv(s) && s.writer.Writing? && s.writer.done == |s.writer.chunk|
    ensures s.txBuf[s.txIn..s.txIn + s.writer.done] == s.writer.chunk
  {
    assert s.writer.chunk[..s.writer.done] == s.writer.chunk;
  }

  lemma WriteCommitConserves(s: State, s': State)
    requires Inv(s) && WriteCommit(s, s')
    ensures Indices(s') && TxConserved(s')
  {
    ChunkStored(s);
    Append(s.txBuf, s.txOut, s.txIn, s.writer.done);
    Associate(s.sent, Contents(s.txBuf, s.txOut, s.txIn), s.writer.chunk);
  }

  lemma WriteCommitInv(s: State, s': State)
    requires Inv(s) && WriteCommit(s, s')
    ensures Inv(s')
  {
    WriteCommitConserves(s, s');
  }

  lemma ReadSnapshotInv(s: State, s': State, space: nat)
    requires Inv(s) && ReadSnapshot(s, s', space)
    ensures Inv(s')
  {
  }

  lemma ReadCopyInv(s: State, s': State)
    requires Inv(s) && ReadCopy(s, s')
    ensures Inv(s')
  {
    OneMore(s.rxBuf, s.rxOut, s.rxOut + |s.reader.got|);
  }

  lemma ReadCommitConserves(s: State, s': State)
    requires Inv(s) && ReadCommit(s, s')
    ensures Indices(s') && RxConserved(s')
  {
    Take(s.rxBuf, s.rxOut, s.rxIn, s.reader.n);
    var rest := Contents(s.rxBuf, s'.rxOut, s.rxIn);
    Associate(s.delivered, s.reader.got, rest);
  }

  lemma ReadCommitInv(s: State, s': State)
    requires Inv(s) && ReadCommit(s, s')
    ensures Inv(s')
  {
    ReadCommitConserves(s, s');
  }

  lemma IsrReceiveConserves(s: State, s': State)
    requires Inv(s) && IsrReceive(s, s')
    ensures Indices(s') && RxConserved(s')
  {
    if s.rxFifo != [] {
      var c, unread := [s.rxFifo[0]], Contents(s.rxBuf, s.rxOut, s.rxIn);
      PushBack(s.rxBuf, s.rxOut, s.rxIn, s.rxFifo[0]);
      assert s.rxFifo == c + s.rxFifo[1..];
      Associate(s.delivered, unread, c);
      Associate(s.delivered + unread, c, s.rxFifo[1..]);
    }
  }

  /** What the reader has in hand is not where the next character goes. */
  lemma IsrReceiveSparesReader(s: State, s': State)
    requires Inv(s) && IsrReceive(s, s')
    ensures Indices(s') && ReaderInv(s')
  {
  }

  lemma IsrReceiveInv(s: State, s': State)
    requires Inv(s) && IsrReceive(s, s')
    ensures Inv(s')
  {
    IsrReceiveConserves(s, s');
    IsrReceiveSparesReader(s, s');
  }

  lemma IsrSendConserves(s: State, s': State)
    requires Inv(s) && IsrSend(s, s')
    ensures Indices(s') && TxConserved(s')
  {
    PopFront(s.txBuf, s.txOut, s.txIn);
    var c := [s.txBuf[s.txOut]];
    Associate(s.sent, c, Contents(s.txBuf, s'.txOut, s.txIn));
    Associate(s.drained, s.txFifo, c);
  }

  lemma IsrSendInv(s: State, s': State)
    requires Inv(s) && IsrSend(s, s')
    ensures Inv(s')
  {
    IsrSendConserves(s, s');
  }

  lemma IsrEnterInv(s: State, s': State, ri: bool, wi: bool)
    requires Inv(s) && IsrEnter(s, s', ri, wi)
    ensures Inv(s')
  {
  }

  lemma OtherIsrInv(s: State, s': State)
    requires Inv(s) && (IsrReceiveFull(s, s') || IsrMask(s, s') || IsrSendDone(s, s'))
    ensures Inv(s')
  {
  }

  lemma EnableInv(s: State, s': State)
    requires Inv(s) && (WriteEnable(s, s') || ReadEnable(s, s'))
    ensures Inv(s')
  {
  }

  lemma HostSendsInv(s: State, s': State, c: char)
    requires Inv(s) && HostSends(s, s', c)
    ensures Inv(s')
  {
  }

  lemma HostDrainsInv(s: State, s': State)
    requires Inv(s) && HostDrains(s, s')
    ensures Inv(s')
  {
    assert s.txFifo == [s.txFifo[0]] + s.txFifo[1..];
  }

  lemma HostCountedInv(s: State, s': State, n: nat)
    requires Inv(s) && HostCounted(s, s', n)
    ensures Inv(s')
  {
  }

  lemma StepInv(s: State, s': State)
    requires Inv(s) && Step(s, s')
    ensures Inv(s')
  {
    if rest :| WriteSnapshot(s, s', rest) {
      WriteSnapshotInv(s, s', rest);
    } else if WriteCopy(s, s') {
      WriteCopyInv(s, s');
    } else if WriteCommit(s, s') {
      WriteCommitInv(s, s');
    } else if WriteEnable(s, s') || ReadEnable(s, s') {
      EnableInv(s, s');
    } else if space :| ReadSnapshot(s, s', space) {
      ReadSnapshotInv(s, s', space);
    } else if ReadCopy(s, s') {
      ReadCopyInv(s, s');
    } else if ReadCommit(s, s') {
      ReadCommitInv(s, s');
    } else if IsrReceive(s, s') {
      IsrReceiveInv(s, s');
    } else if IsrSend(s, s') {
      IsrSendInv(s, s');
    } else if c :| HostSends(s, s', c) {
      HostSendsInv(s, s', c);
    } else if HostDrains(s, s') {
      HostDrainsInv(s, s');
    } else if n :| HostCounted(s, s', n) {
      HostCountedInv(s, s', n);
    } else if ri, wi :| IsrEnter(s, s', ri, wi) {
      IsrEnterInv(s, s', ri, wi);
    } else {
      OtherIsrInv(s, s');
    }
  }

  /** The interrupt routine takes a character out of the FIFO only when there is a free slot, and puts it
      there; nobody else takes one. */
  lemma ReceivedIntoFreeSlot(s: State, s': State)
    requires Inv(s) && Step(s, s') && |s'.rxFifo| < |s.rxFifo|
    ensures Next(s.rxIn) != s.rxOut && s'.rxIn == Next(s.rxIn)
    ensures s'.rxFifo == s.rxFifo[1..] && s'.rxBuf == s.rxBuf[s.rxIn := s.rxFifo[0]]
  {
    if ForegroundStep(s, s') {
      ForegroundLeavesFifo(s, s');
    } else if HostStep(s, s') {
      HostFillsFifo(s, s');
    } else if !IsrReceive(s, s') {
      RestOfIsrLeavesFifo(s, s');
    }
  }

  lemma ForegroundLeavesFifo(s: State, s': State)
    requires ForegroundStep(s, s')
    ensures s'.rxFifo == s.rxFifo
  {
    if rest :| WriteSnapshot(s, s', rest) {
    } else if space :| ReadSnapshot(s, s', space) {
    }
  }

  lemma HostFillsFifo(s: State, s': State)
    requires HostStep(s, s')
    ensures |s.rxFifo| <= |s'.rxFifo|
  {
    if c :| HostSends(s, s', c) {
    } else if n :| HostCounted(s, s', n) {
    }
  }

  lemma RestOfIsrLeavesFifo(s: State, s': State)
    requires IsrStep(s, s') && !IsrReceive(s, s')
    ensures s'.rxFifo == s.rxFifo
  {
    if ri, wi :| IsrEnter(s, s', ri, wi) {
    }
  }

  lemma StepAtInv(t: seq<State>, i: nat)
    requires Run(t) && i < |t| - 1 && Inv(t[i])
    ensures Inv(t[i + 1])
  {
    assert StepAt(t, i);
    StepInv(t[i], t[i + 1]);
  }

  /** Every state of every run satisfies the invariant. */
  lemma {:induction false} RunInv(t: seq<State>, i: nat)
    requires Run(t) && i < |t|
    ensures Inv(t[i])
  {
    if i == 0 {
      InitInv(t[0]);
    } else {
      RunInv(t, i - 1);
      StepAtInv(t, i - 1);
    }
  }

  /** What has been written comes out at the host, complete and in order: what the host has
      drained, what is in the hardware FIFO and what is unsent in the buffer make up exactly what
      write() accepted. */
  lemma TransmitInOrder(t: seq<State>, i: nat)
    requires Run(t) && i < |t|
    ensures var s := t[i];
            && Indices(s)
            && s.accepted == s.drained + s.txFifo + Contents(s.txBuf, s.txOut, s.txIn)
            && s.drained <= s.accepted
            && |s.txFifo| <= s.depth
  {
    RunInv(t, i);
  }

  /** What the host has sent reaches read(), complete and in order. */
  lemma ReceiveInOrder(t: seq<State>, i: nat)
    requires Run(t) && i < |t|
    ensures var s := t[i];
            && Indices(s)
            && s.arrived == s.delivered + Contents(s.rxBuf, s.rxOut, s.rxIn) + s.rxFifo
            && s.delivered <= s.arrived
  {
    RunInv(t, i);
    var s := t[i];
    Associate(s.delivered, Contents(s.rxBuf, s.rxOut, s.rxIn), s.rxFifo);
  }

  /** A writer that waits on a full buffer waits with the transmit interrupt enabled: as soon as
      the hardware has room, the interrupt routine can be entered and will send. */
  lemma WaitingWriterIsWoken(t: seq<State>, i: nat)
    requires Run(t) && i < |t|
    requires var s := t[i]; s.isr == Off && !s.kickTx && Next(s.txIn) == s.txOut && |s.txFifo| < s.depth
    ensures t[i].we
    ensures exists s', s'' :: IsrEnter(t[i], s', false, true) && IsrSend(s', s'') && s''.txOut != t[i].txOut
  {
    RunInv(t, i);
    var s := t[i];
    var s' := s.(isr := Sending(s.depth - |s.txFifo|), controls := s.controls + [Pending(false, true)]);
    assert IsrEnter(s, s', false, true);
    var c := s.txBuf[s.txOut];
    var s'' := s'.(txFifo := s.txFifo + [c], sent := s.sent + [c], txOut := Next(s.txOut),
                   isr := Sending(s'.isr.space - 1));
    assert IsrSend(s', s'');
  }

  /** A reader that waits on an empty buffer waits with the receive interrupt enabled: as soon as
      a character has arrived, the interrupt routine can be entered and will receive it. */
  lemma WaitingReaderIsWoken(t: seq<State>, i: nat)
    requires Run(t) && i < |t|
    requires var s := t[i]; s.isr == Off && !s.kickRx && s.rxIn == s.rxOut && s.rxFifo != []
    ensures t[i].re
    ensures exists s', s'' :: IsrEnter(t[i], s', true, false) && IsrReceive(s', s'') && s''.rxIn != t[i].rxIn
  {
    RunInv(t, i);
    var s := t[i];
    var s' := s.(isr := Receiving(false, s.depth - |s.txFifo|, true), controls := s.controls + [Pending(true, false)]);
    assert IsrEnter(s, s', true, false);
    var s'' := s'.(rxFifo := s.rxFifo[1..], rxBuf := s.rxBuf[s.rxIn := s.rxFifo[0]], rxIn := Next(s.rxIn),
                   isr := Receiving(false, s'.isr.space, |s.rxFifo| > 1));
    assert IsrReceive(s', s'');
  }

  // While only interrupts and the host act

  /** From state `n` on, the run consists of interrupt and host steps. */
  ghost predicate Quiet(t: seq<State>, n: nat) {
    n < |t| && forall i | n <= i < |t| - 1 :: QuietAt(t, i)
  }

  ghost predicate QuietAt(t: seq<State>, i: int)
    requires 0 <= i < |t| - 1
  {
    IsrStep(t[i], t[i + 1]) || HostStep(t[i], t[i + 1])
  }

  /** What a foreground that stands still may rely on. */
  ghost predicate Undisturbed(s: State, s': State) {
    && Indices(s) && Indices(s')
    && s'.txIn == s.txIn && s'.rxOut == s.rxOut && s'.txBuf == s.txBuf
    && s'.writer == s.writer && s'.reader == s.reader
    && s'.kickTx == s.kickTx && s'.kickRx == s.kickRx
    && s'.accepted == s.accepted && s'.delivered == s.delivered
    && Contents(s.rxBuf, s.rxOut, s.rxIn) <= Contents(s'.rxBuf, s'.rxOut, s'.rxIn)
    && |Contents(s'.txBuf, s'.txOut, s'.txIn)| <= |Contents(s.txBuf, s.txOut, s.txIn)|
  }

  lemma QuietReceive(s: State, s': State)
    requires Inv(s) && IsrReceive(s, s')
    ensures Undisturbed(s, s')
  {
    if s.rxFifo != [] {
      PushBack(s.rxBuf, s.rxOut, s.rxIn, s.rxFifo[0]);
    }
  }

  lemma QuietSend(s: State, s': State)
    requires Inv(s) && IsrSend(s, s')
    ensures Undisturbed(s, s')
  {
    PopFront(s.txBuf, s.txOut, s.txIn);
  }

  lemma QuietEnter(s: State, s': State, ri: bool, wi: bool)
    requires Inv(s) && IsrEnter(s, s', ri, wi)
    ensures Undisturbed(s, s')
  {
  }

  lemma QuietOther(s: State, s': State)
    requires Inv(s) && (IsrReceiveFull(s, s') || IsrMask(s, s') || IsrSendDone(s, s') || HostDrains(s, s'))
    ensures Undisturbed(s, s')
  {
  }

  lemma QuietHostSends(s: State, s': State, c: char)
    requires Inv(s) && HostSends(s, s', c)
    ensures Undisturbed(s, s')
  {
  }

  lemma QuietHostCounted(s: State, s': State, n: nat)
    requires Inv(s) && HostCounted(s, s', n)
    ensures Undisturbed(s, s')
  {
  }

  lemma QuietStep(s: State, s': State)
    requires Inv(s) && (IsrStep(s, s') || HostStep(s, s'))
    ensures Undisturbed(s, s')
  {
    if IsrReceive(s, s') {
      QuietReceive(s, s');
    } else if IsrSend(s, s') {
      QuietSend(s, s');
    } else if ri, wi :| IsrEnter(s, s', ri, wi) {
      QuietEnter(s, s', ri, wi);
    } else if c :| HostSends(s, s', c) {
      QuietHostSends(s, s', c);
    } else if n :| HostCounted(s, s', n) {
      QuietHostCounted(s, s', n);
    } else {
      QuietOther(s, s');
    }
  }

  lemma {:induction false} QuietRun(t: seq<State>, n: nat, i: nat)
    requires Run(t) && Quiet(t, n) && n <= i < |t|
    ensures Undisturbed(t[n], t[i])
  {
    if n == i {
      StandsStill(t, n);
    } else {
      QuietRun(t, n, i - 1);
      QuietGoesOn(t, n, i);
    }
  }

  lemma QuietGoesOn(t: seq<State>, n: nat, i: nat)
    requires Run(t) && Quiet(t, n) && n < i < |t| && Undisturbed(t[n], t[i - 1])
    ensures Undisturbed(t[n], t[i])
  {
    QuietLast(t, n, i);
    UndisturbedOn(t[n], t[i - 1], t[i]);
  }

  lemma StandsStill(t: seq<State>, n: nat)
    requires Run(t) && n < |t|
    ensures Undisturbed(t[n], t[n])
  {
    RunInv(t, n);
  }

  lemma QuietLast(t: seq<State>, n: nat, i: nat)
    requires Run(t) && Quiet(t, n) && n < i < |t|
    ensures Undisturbed(t[i - 1], t[i])
  {
    RunInv(t, i - 1);
    assert QuietAt(t, i - 1);
    QuietStep(t[i - 1], t[i]);
  }

  lemma UndisturbedOn(s: State, s': State, s'': State)
    requires Undisturbed(s, s') && Undisturbed(s', s'')
    ensures Undisturbed(s, s'')
  {
  }
}
