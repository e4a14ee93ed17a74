/** The JTAG UART fast driver.  Every access to the state it shares with the interrupt routine is
    a method of its own, proved to be a step of the protocol and recorded in `trace`; between any
    two of them `Interrupts` lets the interrupt routine, the host and the timeout alarm run. */
module JtagUart {
  import opened Ring
  import opened JtagProtocol

  const EWOULDBLOCK := 11
  const EIO := 5

  /** `t'` goes on from `t` with interrupt and host steps only. */
  ghost predicate Continues(t: seq<State>, t': seq<State>) {
    t != [] && t <= t' && Quiet(t', |t| - 1)
  }

  lemma ContinuesOn(t: seq<State>, t': seq<State>, t'': seq<State>)
    requires Continues(t, t') && Continues(t', t'')
    ensures Continues(t, t'')
  {
    forall i | |t| - 1 <= i < |t''| - 1 ensures QuietAt(t'', i) {
      assert i < |t'| - 1 ==> QuietAt(t', i);
      assert i >= |t'| - 1 ==> QuietAt(t'', i);
    }
  }

  /** How many characters lie between two indices. */
  function Distance(out: nat, in_: nat): int {
    if out <= in_ then in_ - out else in_ + BUF_LEN - out
  }

  lemma UnreadAfter(in_: nat, out: nat, n: nat)
    requires in_ < BUF_LEN && out < BUF_LEN && n <= Available(in_, out)
    ensures Distance((out + n) % BUF_LEN, in_) == Distance(out, in_) - n
  {
  }

  lemma OneReceived(out: nat, in_: nat)
    requires in_ < BUF_LEN && out < BUF_LEN && Next(in_) != out
    ensures Distance(out, Next(in_)) == Distance(out, in_) + 1
  {
  }

  lemma OneSent(out: nat, in_: nat)
    requires out < BUF_LEN && in_ < BUF_LEN && out != in_
    ensures Distance(Next(out), in_) == Distance(out, in_) - 1
  {
  }

  class Driver {
    var txIn: nat
    var txOut: nat
    const txBuf: array<char>
    var rxIn: nat
    var rxOut: nat
    const rxBuf: array<char>
    var re: bool
    var we: bool
    var hostInactive: nat
    const timeout: nat

    // the device
    var rxFifo: seq<char>
    var txFifo: seq<char>
    const depth: nat

    // history and control, for the protocol
    ghost var writer: Writer
    ghost var reader: Reader
    ghost var isr: Isr
    ghost var kickTx: bool
    ghost var kickRx: bool
    ghost var controls: seq<Pending>
    ghost var accepted: seq<char>
    ghost var sent: seq<char>
    ghost var drained: seq<char>
    ghost var arrived: seq<char>
    ghost var delivered: seq<char>
    ghost var trace: seq<State>
    ghost var looks: nat   // at the shared state, while waiting

    ghost predicate Shape()
      reads this
    {
      txBuf != rxBuf && txBuf.Length == BUF_LEN && rxBuf.Length == BUF_LEN
    }

    ghost function View(): State
      requires Shape()
      reads this, txBuf, rxBuf
    {
      State(txIn, txOut, txBuf[..], rxIn, rxOut, rxBuf[..], re, we, rxFifo, txFifo, depth,
            hostInactive, writer, reader, isr, kickTx, kickRx, controls, accepted, sent, drained, arrived, delivered)
    }

    ghost predicate Valid()
      reads this, txBuf, rxBuf
    {
      Shape() && Run(trace) && trace[|trace| - 1] == View()
    }

    constructor (depth: nat, timeout: nat)
      ensures Valid() && Init(View()) && hostInactive == 0
      ensures this.depth == depth && this.timeout == timeout
      ensures fresh(txBuf) && fresh(rxBuf)
    {
      txIn, txOut, rxIn, rxOut := 0, 0, 0, 0;
      var tx := new char[BUF_LEN](_ => '\0');
      var rx := new char[BUF_LEN](_ => '\0');
      txBuf, rxBuf := tx, rx;
      re, we := true, false;
      hostInactive := 0;
      rxFifo, txFifo := [], [];
      this.depth, this.timeout := depth, timeout;
      writer, reader, isr, kickTx, kickRx := WriterIdle, ReaderIdle, Off, false, false;
      controls, accepted, sent, drained, arrived, delivered := [], [], [], [], [], [];
      new;
      trace := [View()];
    }

    lemma Invariant()
      requires Valid()
      ensures Inv(View())
    {
      RunInv(trace, |trace| - 1);
    }

    ghost predicate InBounds()
      reads this
    {
      && txIn < BUF_LEN && txOut < BUF_LEN && rxIn < BUF_LEN && rxOut < BUF_LEN
      && |rxFifo| <= depth && |txFifo| <= depth
    }

    /** How many characters the transmit buffer holds. */
    ghost function Unsent(): int
      reads this
    {
      Distance(txOut, txIn)
    }

    lemma Bounds()
      requires Valid()
      ensures InBounds()
    {
      Invariant();
    }

    lemma Awake()
      requires Valid()
      ensures txIn != txOut && !kickTx ==> we
      ensures !re && !kickRx ==> Next(rxIn) == rxOut
    {
      Invariant();
    }

    lemma WriterBounds()
      requires Valid() && writer.Writing?
      ensures writer.done <= |writer.chunk| && txIn + |writer.chunk| <= BUF_LEN
    {
      Invariant();
    }

    lemma ReaderBounds()
      requires Valid() && reader.Reading?
      ensures InBounds() && rxOut + reader.n <= BUF_LEN && reader.n <= Available(rxIn, rxOut)
    {
      Invariant();
    }

    /** Appends the current state to the trace. */
    ghost method Record(s: State)
      requires Shape() && Run(trace) && trace[|trace| - 1] == s && ForegroundStep(s, View())
      modifies this`trace
      ensures Valid() && trace == old(trace) + [View()]
    {
      RunGoesOn(trace, View());
      trace := trace + [View()];
    }

    ghost method RecordQuiet(s: State)
      requires Shape() && Run(trace) && trace[|trace| - 1] == s && (IsrStep(s, View()) || HostStep(s, View()))
      modifies this`trace
      ensures Valid() && trace == old(trace) + [View()] && Continues(old(trace), trace)
    {
      RunGoesOn(trace, View());
      trace := trace + [View()];
      assert QuietAt(trace, |trace| - 2);
    }

    // Foreground accesses of the writer

    ghost method BeginWrite(rest: seq<char>)
      requires Valid() && isr == Off && writer == WriterIdle && rest != []
      requires txIn < BUF_LEN && txOut < BUF_LEN && Room(txIn, txOut) > 0
      modifies this`writer, this`trace
      ensures Valid() && trace == old(trace) + [View()]
      ensures writer == Writing(rest[..Min(Room(txIn, txOut), |rest|)], 0)
    {
      ghost var s := View();
      Invariant();
      writer := Writing(rest[..Min(Room(txIn, txOut), |rest|)], 0);
      assert WriteSnapshot(s, View(), rest);
      Record(s);
    }

    method CopyIn(i: nat, c: char)
      requires Valid() && isr == Off && writer.Writing? && writer.done < |writer.chunk|
      requires i == txIn + writer.done < BUF_LEN && c == writer.chunk[writer.done]
      modifies this`writer, this`trace, txBuf
      ensures Valid() && trace == old(trace) + [View()]
      ensures txBuf[..] == old(txBuf[..])[i := c] && writer == Writing(old(writer.chunk), old(writer.done) + 1)
    {
      ghost var s := View();
      txBuf[i] := c;
      writer := Writing(writer.chunk, writer.done + 1);
      assert View().txBuf == s.txBuf[i := c];
      assert WriteCopy(s, View());
      Record(s);
    }

    method CommitWrite(newIn: nat)
      requires Valid() && isr == Off && writer.Writing? && writer.done == |writer.chunk|
      requires newIn == (txIn + writer.done) % BUF_LEN
      modifies this`txIn, this`writer, this`kickTx, this`accepted, this`trace
      ensures Valid() && trace == old(trace) + [View()]
      ensures txIn == newIn && writer == WriterIdle && kickTx && accepted == old(accepted) + old(writer.chunk)
    {
      ghost var s := View();
      txIn := newIn;
      accepted := accepted + writer.chunk;
      writer := WriterIdle;
      kickTx := true;
      assert WriteCommit(s, View());
      Record(s);
    }

    /** With interrupts disabled: irq_enable |= WE, and the control register. */
    method EnableWrite()
      requires Valid() && isr == Off && writer == WriterIdle
      modifies this`we, this`kickTx, this`trace
      ensures Valid() && trace == old(trace) + [View()]
      ensures we && !kickTx
    {
      ghost var s := View();
      we := true;
      kickTx := false;
      assert WriteEnable(s, View());
      Record(s);
    }

    // Foreground accesses of the reader

    ghost method BeginRead(space: nat)
      requires Valid() && isr == Off && reader == ReaderIdle && space > 0
      requires rxIn < BUF_LEN && rxOut < BUF_LEN && Available(rxIn, rxOut) > 0
      modifies this`reader, this`trace
      ensures Valid() && trace == old(trace) + [View()]
      ensures reader == Reading(Min(Available(rxIn, rxOut), space), [])
    {
      ghost var s := View();
      Invariant();
      reader := Reading(Min(Available(rxIn, rxOut), space), []);
      assert ReadSnapshot(s, View(), space);
      Record(s);
    }

    method CopyOut(i: nat) returns (c: char)
      requires Valid() && isr == Off && reader.Reading? && |reader.got| < reader.n
      requires i == rxOut + |reader.got| < BUF_LEN
      modifies this`reader, this`trace
      ensures Valid() && trace == old(trace) + [View()]
      ensures c == rxBuf[i]
      ensures reader == Reading(old(reader.n), old(reader.got) + [c])
    {
      ghost var s := View();
      c := rxBuf[i];
      reader := Reading(reader.n, reader.got + [c]);
      assert ReadCopy(s, View());
      Record(s);
    }

    method CommitRead(newOut: nat)
      requires Valid() && isr == Off && reader.Reading? && |reader.got| == reader.n
      requires newOut == (rxOut + reader.n) % BUF_LEN
      modifies this`rxOut, this`reader, this`kickRx, this`delivered, this`trace
      ensures Valid() && trace == old(trace) + [View()]
      ensures rxOut == newOut && reader == ReaderIdle && kickRx && delivered == old(delivered) + old(reader.got)
    {
      ghost var s := View();
      rxOut := newOut;
      delivered := delivered + reader.got;
      reader := ReaderIdle;
      kickRx := true;
      assert ReadCommit(s, View());
      Record(s);
    }

    /** With interrupts disabled: irq_enable |= RE, and the control register. */
    method EnableRead()
      requires Valid() && isr == Off && reader == ReaderIdle
      modifies this`re, this`kickRx, this`trace
      ensures Valid() && trace == old(trace) + [View()]
      ensures re && !kickRx
    {
      ghost var s := View();
      re := true;
      kickRx := false;
      assert ReadEnable(s, View());
      Record(s);
    }

    // The device and the host

    method HostSend(c: char)
      requires Valid() && |rxFifo| < depth
      modifies this`rxFifo, this`arrived, this`trace
      ensures Valid() && trace == old(trace) + [View()] && Continues(old(trace), trace)
      ensures rxFifo == old(rxFifo) + [c] && arrived == old(arrived) + [c]
    {
      ghost var s := View();
      rxFifo := rxFifo + [c];
      arrived := arrived + [c];
      assert HostSends(s, View(), c);
      RecordQuiet(s);
    }

    method HostDrain()
      requires Valid() && txFifo != []
      modifies this`txFifo, this`drained, this`trace
      ensures Valid() && trace == old(trace) + [View()] && Continues(old(trace), trace)
      ensures txFifo == old(txFifo)[1..] && drained == old(drained) + [old(txFifo)[0]]
    {
      ghost var s := View();
      drained := drained + [txFifo[0]];
      txFifo := txFifo[1..];
      assert HostDrains(s, View());
      RecordQuiet(s);
    }

    /** The once-a-second routine. */
    method HostCount(n: nat)
      requires Valid()
      modifies this`hostInactive, this`trace
      ensures Valid() && trace == old(trace) + [View()] && Continues(old(trace), trace)
      ensures hostInactive == n
    {
      ghost var s := View();
      hostInactive := n;
      assert HostCounted(s, View(), n);
      RecordQuiet(s);
    }

    // Register accesses of the interrupt routine

    /** The control register shows the pending bits and the room in the FIFO.  A bit without anything
        behind it shows at most `patience` times. */
    method ReadControl(patience: nat) returns (ri: bool, wi: bool, space: nat, left: nat)
      requires Valid() && InBounds() && isr == Off
      modifies this`isr, this`controls, this`trace
      ensures Valid() && trace == old(trace) + [View()] && Continues(old(trace), trace)
      ensures controls == old(controls) + [Pending(ri, wi)] && isr == Served(ri, wi, space)
      ensures (ri ==> re) && (wi ==> we) && left <= patience && space == depth - |txFifo|
      ensures left == patience ==> (ri ==> rxFifo != []) && (wi ==> |txFifo| < depth)
    {
      ghost var s := View();
      ri, wi, left := Bits(patience);
      space := depth - |txFifo|;
      controls := controls + [Pending(ri, wi)];
      isr := Served(ri, wi, space);
      assert IsrEnter(s, View(), ri, wi);
      RecordQuiet(s);
    }

    method Bits(patience: nat) returns (ri: bool, wi: bool, left: nat)
      ensures (ri ==> re) && (wi ==> we) && left <= patience
      ensures left == patience ==> (ri ==> rxFifo != []) && (wi ==> |txFifo| < depth)
    {
      left := patience;
      ri, wi := *, *;
      ri, wi := ri && re, wi && we;
      if (ri && rxFifo == []) || (wi && |txFifo| >= depth) {
        if left == 0 {
          ri, wi := ri && rxFifo != [], wi && |txFifo| < depth;
        } else {
          left := left - 1;
        }
      }
    }

    /** A read of the data register that finds a character; the character goes into the buffer. */
    method ReceiveChar() returns (ravail: bool)
      requires Valid() && isr.Receiving? && InBounds() && Next(rxIn) != rxOut && rxFifo != []
      modifies this`rxFifo, this`rxIn, this`isr, this`trace, rxBuf
      ensures Valid() && trace == old(trace) + [View()] && Continues(old(trace), trace)
      ensures ravail == (|old(rxFifo)| > 1)
      ensures rxFifo == old(rxFifo)[1..] && rxBuf[..] == old(rxBuf[..])[old(rxIn) := old(rxFifo)[0]]
      ensures rxIn == Next(old(rxIn)) && isr == Receiving(old(isr.wi), old(isr.space), ravail)
    {
      ghost var s := View();
      ravail := |rxFifo| > 1;
      rxBuf[rxIn] := rxFifo[0];
      rxFifo := rxFifo[1..];
      rxIn := (rxIn + 1) % BUF_LEN;
      isr := Receiving(isr.wi, isr.space, ravail);
      assert View().rxBuf == s.rxBuf[s.rxIn := s.rxFifo[0]];
      assert IsrReceive(s, View());
      RecordQuiet(s);
    }

    /** A read of the data register that finds nothing: RVALID is 0, and RAVAIL with it. */
    ghost method ReceiveNothing()
      requires Valid() && isr.Receiving? && InBounds() && Next(rxIn) != rxOut && rxFifo == []
      modifies this`isr, this`trace
      ensures Valid() && trace == old(trace) + [View()] && Continues(old(trace), trace)
      ensures isr == Masking(old(isr.wi), old(isr.space), false)
    {
      ghost var s := View();
      isr := Masking(isr.wi, isr.space, false);
      assert IsrReceive(s, View());
      RecordQuiet(s);
    }

    ghost method ReceiveFull()
      requires Valid() && isr.Receiving? && Next(rxIn) == rxOut
      modifies this`isr, this`trace
      ensures Valid() && trace == old(trace) + [View()] && Continues(old(trace), trace)
      ensures isr == Masking(old(isr.wi), old(isr.space), old(isr.ravail))
    {
      ghost var s := View();
      isr := Masking(isr.wi, isr.space, isr.ravail);
      assert IsrReceiveFull(s, View());
      RecordQuiet(s);
    }

    /** If more is waiting: irq_enable &= ~RE, and the control register. */
    method Mask(ghost wi: bool, ghost space: nat, ravail: bool)
      requires Valid() && isr == Masking(wi, space, ravail)
      modifies this`re, this`isr, this`trace
      ensures Valid() && trace == old(trace) + [View()] && Continues(old(trace), trace)
      ensures re == (old(re) && !ravail) && isr == if wi then Sending(space) else Off
    {
      ghost var s := View();
      if ravail {
        re := false;
      }
      isr := if wi then Sending(space) else Off;
      assert IsrMask(s, View());
      RecordQuiet(s);
    }

    method SendOne()
      requires Valid() && isr.Sending? && isr.space > 0 && InBounds() && txIn != txOut
      modifies this`txFifo, this`sent, this`txOut, this`isr, this`trace
      ensures Valid() && trace == old(trace) + [View()] && Continues(old(trace), trace)
      ensures txFifo == old(txFifo) + [txBuf[old(txOut)]] && sent == old(sent) + [txBuf[old(txOut)]]
      ensures txOut == Next(old(txOut)) && isr == Sending(old(isr.space) - 1)
    {
      ghost var s := View();
      txFifo := txFifo + [txBuf[txOut]];
      sent := sent + [txBuf[txOut]];
      txOut := (txOut + 1) % BUF_LEN;
      isr := Sending(isr.space - 1);
      assert IsrStep(s, View()) by {
        assert IsrSend(s, View());
      }
      RecordQuiet(s);
    }

    /** If room was left over: irq_enable &= ~WE, and the control register. */
    method SendDone(space: nat)
      requires Valid() && isr == Sending(space) && (space == 0 || txOut == txIn)
      modifies this`we, this`isr, this`trace
      ensures Valid() && trace == old(trace) + [View()] && Continues(old(trace), trace)
      ensures we == (old(we) && space == 0) && isr == Off
    {
      ghost var s := View();
      if space > 0 {
        we := false;
      }
      isr := Off;
      assert IsrSendDone(s, View());
      RecordQuiet(s);
    }

    // The interrupt routine.  Between two of its register accesses the host may send and drain as
    // much as the FIFOs let it, and the routine ends all the same: no reader runs meanwhile, so that
    // it can only receive until the buffer is full.

    /** The host sends a character, or drains one, or does nothing. */
    method HostAction()
      requires Valid() && InBounds()
      modifies this`rxFifo, this`txFifo, this`arrived, this`drained, this`trace
      ensures Valid() && InBounds() && Continues(old(trace), trace)
      ensures old(rxFifo) != [] ==> rxFifo != []
    {
      var send: bool := *;
      if send && |rxFifo| < depth {
        var c: char := *;
        HostSend(c);
      } else if txFifo != [] {
        HostDrain();
      }
    }

    /** The host sends and drains, any number of times. */
    method HostActivity()
      requires Valid() && InBounds()
      modifies this`rxFifo, this`txFifo, this`arrived, this`drained, this`trace
      ensures Valid() && InBounds() && Continues(old(trace), trace)
      ensures old(rxFifo) != [] ==> rxFifo != []
    {
      var actions: nat := *;
      while actions > 0
        invariant Valid() && InBounds() && Continues(old(trace), trace)
        invariant old(rxFifo) != [] ==> rxFifo != []
      {
        ghost var t := trace;
        HostAction();
        ContinuesOn(old(trace), t, trace);
        actions := actions - 1;
      }
    }

    /** How many characters the receive buffer holds. */
    ghost function Unread(): int
      reads this
    {
      Distance(rxOut, rxIn)
    }

    /** One turn of the receive loop; `done` when the loop ends, because the buffer is full, in which
        case the data register is not read, or because it has no character. */
    method ReceiveTurn(ghost wi: bool, ghost space: nat, ravail: bool) returns (done: bool, ravail': bool)
      requires Valid() && isr == Receiving(wi, space, ravail)
      modifies this`rxFifo, this`txFifo, this`arrived, this`drained, this`rxIn, this`isr, this`trace, rxBuf
      ensures Valid() && Continues(old(trace), trace)
      ensures isr == if done then Masking(wi, space, ravail') else Receiving(wi, space, ravail')
      ensures old(Next(rxIn) == rxOut) ==> done && ravail' == ravail && rxFifo == old(rxFifo)
      ensures if done then rxIn == old(rxIn) else old(Next(rxIn)) != rxOut && Unread() == old(Unread()) + 1
      ensures done ==> Next(rxIn) == rxOut || (rxFifo == [] && !ravail')
      ensures done && old(rxFifo) != [] ==> Next(rxIn) == rxOut
    {
      Bounds();
      ravail' := ravail;
      done := true;
      if (rxIn + 1) % BUF_LEN == rxOut {
        ReceiveFull();
      } else {
        HostActivity();
        ghost var t := trace;
        if rxFifo == [] {
          ReceiveNothing();
          ravail' := false;
        } else {
          OneReceived(rxOut, rxIn);
          ravail' := ReceiveChar();
          done := false;
        }
        ContinuesOn(old(trace), t, trace);
      }
    }

    /** The receive half: move characters to the buffer until the FIFO is empty or the buffer is
        full, and mask the interrupt only in the second case. */
    method IrqReceive(ghost wi: bool, ghost space: nat)
      requires Valid() && isr == Receiving(wi, space, true)
      modifies this`rxFifo, this`txFifo, this`arrived, this`drained, this`rxIn, this`re, this`isr, this`trace, rxBuf
      ensures Valid() && Continues(old(trace), trace)
      ensures isr == if wi then Sending(space) else Off
      ensures rxFifo == [] || Next(rxIn) == rxOut
      ensures (re ==> old(re)) && (old(re) && !re ==> Next(rxIn) == rxOut)
      ensures Unread() >= old(Unread()) && (old(rxFifo) != [] && re ==> Unread() > old(Unread()))
    {
      var ravail := ReceiveLoop(wi, space);
      ghost var t := trace;
      Mask(wi, space, ravail);
      ContinuesOn(old(trace), t, trace);
    }

    method ReceiveLoop(ghost wi: bool, ghost space: nat) returns (ravail: bool)
      requires Valid() && isr == Receiving(wi, space, true)
      modifies this`rxFifo, this`txFifo, this`arrived, this`drained, this`rxIn, this`isr, this`trace, rxBuf
      ensures Valid() && Continues(old(trace), trace) && isr == Masking(wi, space, ravail)
      ensures Next(rxIn) == rxOut || (rxFifo == [] && !ravail)
      ensures Unread() >= old(Unread()) && (old(rxFifo) != [] ==> ravail || Unread() > old(Unread()))
    {
      var done := false;
      ravail := true;
      Bounds();
      while !done
        invariant Valid() && InBounds() && Continues(old(trace), trace)
        invariant isr == if done then Masking(wi, space, ravail) else Receiving(wi, space, ravail)
        invariant Unread() >= old(Unread()) && (done ==> Next(rxIn) == rxOut || (rxFifo == [] && !ravail))
        invariant Unread() == old(Unread()) ==> old(rxFifo) == [] || (ravail && (!done ==> rxFifo != []))
        decreases !done, BUF_LEN - Unread()
      {
        ghost var t := trace;
        done, ravail := ReceiveTurn(wi, space, ravail);
        ContinuesOn(old(trace), t, trace);
        Bounds();
      }
    }

    /** The transmit half: move characters to the FIFO while it has the room the control register
        showed, and mask the interrupt only if room is left over. */
    method IrqSend(room: nat)
      requires Valid() && InBounds() && isr == Sending(room)
      modifies this`rxFifo, this`txFifo, this`arrived, this`drained, this`sent, this`txOut, this`we, this`isr, this`trace
      ensures Valid() && Continues(old(trace), trace) && InBounds() && isr == Off
      ensures old(Unsent()) - room <= Unsent() <= old(Unsent())
      ensures we == (old(we) && Unsent() == old(Unsent()) - room)
      ensures txOut == txIn || Unsent() == old(Unsent()) - room
    {
      var space := SendLoop(room);
      ghost var t := trace;
      SendDone(space);
      ContinuesOn(old(trace), t, trace);
    }

    method SendLoop(room: nat) returns (space: nat)
      requires Valid() && InBounds() && isr == Sending(room)
      modifies this`rxFifo, this`txFifo, this`arrived, this`drained, this`sent, this`txOut, this`isr, this`trace
      ensures Valid() && Continues(old(trace), trace)
      ensures InBounds() && isr == Sending(space) && space <= room && (space == 0 || txOut == txIn)
      ensures Unsent() == old(Unsent()) - (room - space)
    {
      space := room;
      while space > 0 && txOut != txIn
        invariant Valid() && Continues(old(trace), trace)
        invariant InBounds() && 0 <= space <= room && isr == Sending(space)
        invariant Unsent() == old(Unsent()) - (room - space)
      {
        ghost var t := trace;
        SendTurn(space);
        ContinuesOn(old(trace), t, trace);
        space := space - 1;
      }
    }

    method SendTurn(space: nat)
      requires Valid() && InBounds() && isr == Sending(space) && space > 0 && txOut != txIn
      modifies this`rxFifo, this`txFifo, this`arrived, this`drained, this`sent, this`txOut, this`isr, this`trace
      ensures Valid() && Continues(old(trace), trace)
      ensures isr == Sending(space - 1) && InBounds() && Unsent() == old(Unsent()) - 1
    {
      OneSent(txOut, txIn);
      SendOne();
      Bounds();
      ghost var t := trace;
      HostActivity();
      ContinuesOn(old(trace), t, trace);
    }

    /** What the turns of the interrupt routine use up: free slots, unsent characters and enabled
        interrupts, and pending bits with nothing behind them. */
    ghost function Work(patience: nat): int
      reads this
    {
      patience + (BUF_LEN - Unread()) + Unsent() + (if re then 1 else 0) + (if we then 1 else 0)
    }

    /** altera_avalon_jtag_uart_irq: reads the control register and serves the pending halves, until
        nothing is pending.  A pending bit with nothing behind it is seen at most `patience` times,
        which may be any number. */
    method Irq(patience: nat)
      requires Valid() && isr == Off
      modifies this`rxFifo, this`txFifo, this`arrived, this`drained, this`rxIn, this`re, this`sent, this`txOut, this`we,
               this`isr, this`controls, this`trace, rxBuf
      ensures Valid() && isr == Off && Continues(old(trace), trace)
      ensures UntilNothingPending(old(controls), controls)
    {
      var left: nat := patience;
      Bounds();
      var ri, wi := true, true;
      while ri || wi
        invariant Valid() && InBounds() && isr == Off && Continues(old(trace), trace)
        invariant if ri || wi then AllPending(old(controls), controls) else UntilNothingPending(old(controls), controls)
        decreases ri || wi, Work(left)
      {
        ghost var t, shown := trace, controls;
        ri, wi, left := Turn(left);
        ContinuesOn(old(trace), t, trace);
        ControlRead(old(controls), shown, Pending(ri, wi));
      }
    }

    /** Every read of the control register after those of `p` found something pending. */
    ghost predicate AllPending(p: seq<Pending>, p': seq<Pending>) {
      p <= p' && forall i | |p| <= i < |p'| :: p'[i].ri || p'[i].wi
    }

    ghost predicate UntilNothingPending(p: seq<Pending>, p': seq<Pending>) {
      |p| < |p'| && AllPending(p, p'[..|p'| - 1]) && p'[|p'| - 1] == Pending(false, false)
    }

    lemma ControlRead(p: seq<Pending>, p': seq<Pending>, next: Pending)
      requires AllPending(p, p')
      ensures if next.ri || next.wi then AllPending(p, p' + [next]) else UntilNothingPending(p, p' + [next])
    {
      assert (p' + [next])[..|p'|] == p';
    }

    /** One turn of the outer loop. */
    method Turn(patience: nat) returns (ri: bool, wi: bool, left: nat)
      requires Valid() && InBounds() && isr == Off
      modifies this`rxFifo, this`txFifo, this`arrived, this`drained, this`rxIn, this`re, this`sent, this`txOut, this`we,
               this`isr, this`controls, this`trace, rxBuf
      ensures Valid() && InBounds() && isr == Off && Continues(old(trace), trace)
      ensures controls == old(controls) + [Pending(ri, wi)]
      ensures ri || wi ==> Work(left) < old(Work(patience))
    {
      var space;
      ri, wi, space, left := Look(patience);
      ghost var t := trace;
      Serve(ri, wi, space);
      ContinuesOn(old(trace), t, trace);
    }

    /** Reads the control register, after whatever the host may do before. */
    method Look(patience: nat) returns (ri: bool, wi: bool, space: nat, left: nat)
      requires Valid() && InBounds() && isr == Off
      modifies this`rxFifo, this`txFifo, this`arrived, this`drained, this`isr, this`controls, this`trace
      ensures Valid() && InBounds() && Continues(old(trace), trace)
      ensures controls == old(controls) + [Pending(ri, wi)] && isr == Served(ri, wi, space)
      ensures (ri ==> re) && (wi ==> we) && left <= patience
      ensures left == patience ==> (ri ==> rxFifo != []) && (wi ==> space > 0)
    {
      HostActivity();
      ghost var t := trace;
      ri, wi, space, left := ReadControl(patience);
      ContinuesOn(old(trace), t, trace);
    }

    /** Serves the halves whose pending bits the control register showed. */
    method Serve(ri: bool, wi: bool, space: nat)
      requires Valid() && InBounds() && isr == Served(ri, wi, space) && (ri ==> re) && (wi ==> we)
      modifies this`rxFifo, this`txFifo, this`arrived, this`drained, this`rxIn, this`re, this`sent, this`txOut, this`we,
               this`isr, this`trace, rxBuf
      ensures Valid() && InBounds() && isr == Off && old(trace) <= trace && Continues(old(trace), trace)
      ensures Work(0) <= old(Work(0))
      ensures (ri && old(rxFifo) != []) || (wi && space > 0) ==> Work(0) < old(Work(0))
    {
      ServeReceive(ri, wi, space);
      ghost var t := trace;
      ServeSend(wi, space);
      ContinuesOn(old(trace), t, trace);
    }

    method ServeReceive(ri: bool, ghost wi: bool, ghost space: nat)
      requires Valid() && InBounds() && isr == Served(ri, wi, space) && (ri ==> re)
      modifies this`rxFifo, this`txFifo, this`arrived, this`drained, this`rxIn, this`re, this`isr, this`trace, rxBuf
      ensures Valid() && InBounds() && Continues(old(trace), trace)
      ensures isr == if wi then Sending(space) else Off
      ensures Work(0) <= old(Work(0))
      ensures ri && old(rxFifo) != [] ==> Work(0) < old(Work(0))
    {
      if ri {
        IrqReceive(wi, space);
        Bounds();
      }
    }

    method ServeSend(wi: bool, space: nat)
      requires Valid() && InBounds() && isr == if wi then Sending(space) else Off
      modifies this`rxFifo, this`txFifo, this`arrived, this`drained, this`sent, this`txOut, this`we, this`isr, this`trace
      ensures Valid() && InBounds() && isr == Off && Continues(old(trace), trace)
      ensures Work(0) <= old(Work(0))
      ensures wi && space > 0 && old(we) ==> Work(0) < old(Work(0))
    {
      if wi {
        IrqSend(space);
      }
    }

    // Between two accesses of the foreground

    /** Any number of interrupts, of host actions and of changes to the inactivity count. */
    method Interrupts()
      requires Valid() && isr == Off
      modifies this`rxFifo, this`txFifo, this`arrived, this`drained, this`rxIn, this`re, this`sent, this`txOut, this`we,
               this`isr, this`controls, this`trace, this`hostInactive, rxBuf
      ensures Valid() && isr == Off && Continues(old(trace), trace) && InBounds()
      ensures Unread() >= old(Unread())
    {
      ghost var s := View();
      var more: bool := *;
      var steps: nat := *;
      while more && steps > 0
        invariant Valid() && isr == Off && Continues(old(trace), trace)
      {
        ghost var t := trace;
        Interruption();
        ContinuesOn(old(trace), t, trace);
        steps := steps - 1;
        more := *;
      }
      Bounds();
      StillUnread(s, |old(trace)| - 1);
    }

    lemma StillUnread(s: State, n: nat)
      requires Valid() && Quiet(trace, n) && trace[n] == s
      ensures Indices(s) && Indices(View())
      ensures |Contents(View().rxBuf, rxOut, rxIn)| >= |Contents(s.rxBuf, s.rxOut, s.rxIn)|
    {
      QuietRun(trace, n, |trace| - 1);
    }

    method Interruption()
      requires Valid() && isr == Off
      modifies this`rxFifo, this`txFifo, this`arrived, this`drained, this`rxIn, this`re, this`sent, this`txOut, this`we,
               this`isr, this`controls, this`trace, this`hostInactive, rxBuf
      ensures Valid() && isr == Off && Continues(old(trace), trace)
    {
      var irq: bool := *;
      if irq {
        var patience: nat := *;
        Irq(patience);
      } else {
        Bounds();
        HostActivity();
        ghost var t := trace;
        var n: nat := *;
        HostCount(n);
        ContinuesOn(old(trace), t, trace);
      }
    }

    /** One look at the shared state while waiting.  The wait lasts `patience` looks at most: after
        that the host counts as inactive. */
    method Poll(patience: nat) returns (left: nat)
      requires Valid() && isr == Off
      modifies this`rxFifo, this`txFifo, this`arrived, this`drained, this`rxIn, this`re, this`sent, this`txOut, this`we,
               this`isr, this`controls, this`trace, this`hostInactive, this`looks, rxBuf
      ensures Valid() && isr == Off && Continues(old(trace), trace) && InBounds()
      ensures Unread() >= old(Unread())
      ensures left <= patience && (patience > 0 ==> left < patience)
      ensures looks == old(looks) + 1
      ensures left == 0 ==> hostInactive >= timeout && hostInactive > 0
    {
      Interrupts();
      looks := looks + 1;
      if patience > 1 {
        left := patience - 1;
      } else {
        left := 0;
        ghost var t := trace;
        HostCount(timeout + 1);
        ContinuesOn(old(trace), t, trace);
      }
    }

    // altera_avalon_jtag_uart_write

    /** No slot is free, and `out` is the oldest unsent one. */
    ghost predicate Full(s: State, out: nat) {
      Indices(s) && Next(s.txIn) == s.txOut == out
    }

    /** The buffer was full at some moment from the end of `t` to the end of `t'`. */
    ghost predicate WasFull(t: seq<State>, t': seq<State>, out: nat) {
      exists i :: 0 <= |t| - 1 <= i < |t'| && Full(t'[i], out)
    }

    lemma StillWasFull(t0: seq<State>, t: seq<State>, t': seq<State>, t'': seq<State>, out: nat)
      requires t0 != [] && t0 <= t <= t' <= t'' && WasFull(t, t', out)
      ensures WasFull(t0, t'', out)
    {
      var i :| |t| - 1 <= i < |t'| && Full(t'[i], out);
      assert t''[i] == t'[i];
    }

    /** A slot has been sent since the buffer was full, or the host has been silent too long. */
    ghost predicate Relieved(s: State, out: nat) {
      s.txOut != out || s.inactive >= timeout
    }

    /** From the end of `t` to the end of `t'` the buffer was full, and then not so any more or the
        host was found to be silent too long. */
    ghost predicate Waited(t: seq<State>, t': seq<State>) {
      exists i, j :: 0 <= |t| - 1 <= i <= j < |t'| && Full(t'[i], t'[i].txOut) && Relieved(t'[j], t'[i].txOut)
    }

    lemma HasWaited(t: seq<State>, m: seq<State>, t': seq<State>, out: nat)
      requires t != [] && t <= m <= t' && WasFull(t, m, out) && Relieved(t'[|t'| - 1], out)
      ensures SawNoRoom(t, t', false)
    {
      StillWasFull(t, t, m, t', out);
      var i :| |t| - 1 <= i < |t'| && Full(t'[i], out);
      assert Full(t'[i], t'[i].txOut) && Relieved(t'[|t'| - 1], t'[i].txOut);
    }

    lemma StillWaited(t0: seq<State>, t: seq<State>, t': seq<State>, t'': seq<State>)
      requires t0 != [] && t0 <= t && t' <= t'' && Waited(t, t')
      ensures Waited(t0, t'')
    {
      var i, j :| |t| - 1 <= i <= j < |t'| && Full(t'[i], t'[i].txOut) && Relieved(t'[j], t'[i].txOut);
      assert t''[i] == t'[i] && t''[j] == t'[j];
    }

    /** Copies the chunk into the free slots from `start` on, interrupts running between any two
        characters. */
    method CopyChunkIn(chunk: seq<char>, start: nat)
      requires Valid() && isr == Off && writer == Writing(chunk, 0) && start == txIn
      modifies this`rxFifo, this`txFifo, this`arrived, this`drained, this`rxIn, this`re, this`sent, this`txOut, this`we,
               this`isr, this`controls, this`trace, this`hostInactive, rxBuf,
               this`writer, txBuf
      ensures Valid() && isr == Off && writer == Writing(chunk, |chunk|) && old(trace) <= trace
    {
      for i := 0 to |chunk|
        invariant Valid() && isr == Off && writer == Writing(chunk, i) && old(trace) <= trace
      {
        CopyNextIn(start + i, chunk[i]);
      }
    }

    method CopyNextIn(i: nat, c: char)
      requires Valid() && isr == Off && writer.Writing? && writer.done < |writer.chunk|
      requires i == txIn + writer.done && c == writer.chunk[writer.done]
      modifies this`rxFifo, this`txFifo, this`arrived, this`drained, this`rxIn, this`re, this`sent, this`txOut, this`we,
               this`isr, this`controls, this`trace, this`hostInactive, rxBuf,
               this`writer, txBuf
      ensures Valid() && isr == Off && old(trace) <= trace
      ensures writer == Writing(old(writer.chunk), old(writer.done) + 1)
    {
      Interrupts();
      WriterBounds();
      CopyIn(i, c);
    }

    /** One turn of the inner loop: takes the next `n` characters, or none because the buffer is
        full. */
    method WriteSome(ptr: seq<char>, start: nat) returns (n: nat, out: nat)
      requires Valid() && isr == Off && writer == WriterIdle && start < |ptr|
      modifies this`rxFifo, this`txFifo, this`arrived, this`drained, this`rxIn, this`re, this`sent, this`txOut, this`we,
               this`isr, this`controls, this`trace, this`hostInactive, rxBuf,
               this`writer, this`txIn, this`kickTx, this`accepted, txBuf
      ensures Valid() && isr == Off && writer == WriterIdle && old(trace) <= trace
      ensures start + n <= |ptr| && accepted == old(accepted) + ptr[start..start + n]
      ensures n == 0 ==> WasFull(old(trace), trace, out)
    {
      Interrupts();
      var in_ := txIn;
      out := txOut;
      n := if in_ < out then out - 1 - in_ else if out > 0 then BUF_LEN - in_ else BUF_LEN - 1 - in_;
      if n == 0 {
        NoRoom(in_, out);
        assert Full(trace[|trace| - 1], out);
        return;
      }
      if n > |ptr| - start {
        n := |ptr| - start;
      }
      WriteChunk(ptr[start..start + n], ptr[start..], in_);
    }

    method WriteChunk(chunk: seq<char>, ghost rest: seq<char>, start: nat)
      requires Valid() && isr == Off && writer == WriterIdle && InBounds() && start == txIn
      requires rest != [] && Room(txIn, txOut) > 0 && chunk == rest[..Min(Room(txIn, txOut), |rest|)]
      modifies this`rxFifo, this`txFifo, this`arrived, this`drained, this`rxIn, this`re, this`sent, this`txOut, this`we,
               this`isr, this`controls, this`trace, this`hostInactive, rxBuf,
               this`writer, this`txIn, this`kickTx, this`accepted, txBuf
      ensures Valid() && isr == Off && writer == WriterIdle && old(trace) <= trace
      ensures accepted == old(accepted) + chunk
    {
      BeginWrite(rest);
      CopyChunkIn(chunk, start);
      Interrupts();
      CommitWrite((start + |chunk|) % BUF_LEN);
    }

    /** The inner loop: takes characters until there are none left or no room. */
    method Fill(ptr: seq<char>, start: nat) returns (done: nat, out: nat)
      requires Valid() && isr == Off && writer == WriterIdle && start <= |ptr|
      modifies this`rxFifo, this`txFifo, this`arrived, this`drained, this`rxIn, this`re, this`sent, this`txOut, this`we,
               this`isr, this`controls, this`trace, this`hostInactive, rxBuf,
               this`writer, this`txIn, this`kickTx, this`accepted, txBuf
      ensures Valid() && isr == Off && writer == WriterIdle && old(trace) <= trace
      ensures start <= done <= |ptr| && accepted == old(accepted) + ptr[start..done]
      ensures done < |ptr| ==> WasFull(old(trace), trace, out)
    {
      done, out := start, 0;
      while done < |ptr|
        invariant Valid() && isr == Off && writer == WriterIdle && old(trace) <= trace
        invariant start <= done <= |ptr| && accepted == old(accepted) + ptr[start..done]
      {
        ghost var t := trace;
        var n;
        n, out := WriteSome(ptr, done);
        if n == 0 {
          StillWasFull(old(trace), t, trace, trace, out);
          break;
        }
        assert ptr[start..done + n] == ptr[start..done] + ptr[done..done + n];
        done := done + n;
      }
    }

    /** Spins until the interrupt routine has moved `txOut` on or the host is inactive. */
    method WaitForRoom(out: nat, patience: nat, ghost t: seq<State>) returns (left: nat)
      requires Valid() && isr == Off && t != [] && t <= trace && WasFull(t, trace, out)
      modifies this`rxFifo, this`txFifo, this`arrived, this`drained, this`rxIn, this`re, this`sent, this`txOut, this`we,
               this`isr, this`controls, this`trace, this`hostInactive, this`looks, rxBuf
      ensures Valid() && isr == Off && old(trace) <= trace && left <= patience
      ensures left == patience ==> left == 0
      ensures (txOut != out || hostInactive >= timeout) && SawNoRoom(t, trace, false)
    {
      left := Poll(patience);
      while out == txOut && hostInactive < timeout
        invariant Valid() && isr == Off && old(trace) <= trace
        invariant left <= patience && (left == patience ==> left == 0)
        invariant left == 0 ==> hostInactive >= timeout
        decreases left
      {
        left := Poll(left);
      }
      HasWaited(t, old(trace), trace, out);
    }

    /** What a write that comes up short has seen: a full buffer, and if it may block, one that stayed
        full until the host had been silent too long, or that the host had begun to empty. */
    ghost predicate SawNoRoom(t: seq<State>, t': seq<State>, nonblock: bool) {
      (exists out :: WasFull(t, t', out)) && (nonblock || Waited(t, t'))
    }

    lemma StillSawNoRoom(t0: seq<State>, t: seq<State>, t': seq<State>, t'': seq<State>, nonblock: bool)
      requires t0 != [] && t0 <= t <= t' <= t'' && SawNoRoom(t, t', nonblock)
      ensures SawNoRoom(t0, t'', nonblock)
    {
      var out :| WasFull(t, t', out);
      StillWasFull(t0, t, t', t'', out);
      if !nonblock {
        StillWaited(t0, t, t', t'');
      }
    }

    /** One turn of the outer loop; `waiting` if it has to go round again. */
    method WriteTurn(ptr: seq<char>, nonblock: bool, start: nat, patience: nat)
      returns (done: nat, waiting: bool, left: nat)
      requires Valid() && isr == Off && writer == WriterIdle && start <= |ptr|
      modifies this`rxFifo, this`txFifo, this`arrived, this`drained, this`rxIn, this`re, this`sent, this`txOut, this`we,
               this`isr, this`controls, this`trace, this`hostInactive, this`looks, rxBuf,
               this`writer, this`txIn, this`kickTx, this`accepted, txBuf
      ensures Valid() && isr == Off && writer == WriterIdle && old(trace) <= trace
      ensures start <= done <= |ptr| && accepted == old(accepted) + ptr[start..done]
      ensures waiting ==> left < patience && hostInactive == 0 && done < |ptr| && !nonblock
      ensures done < |ptr| ==> SawNoRoom(old(trace), trace, nonblock)
      ensures done < |ptr| && !nonblock ==> waiting || hostInactive > 0
      ensures nonblock ==> looks == old(looks)
      ensures !kickTx
    {
      var out;
      done, out := FillAndEnable(ptr, start);
      waiting, left := Block(done < |ptr|, nonblock, out, patience, old(trace));
    }

    /** Waits if a character is left that there was no room for. */
    method Block(some: bool, nonblock: bool, out: nat, patience: nat, ghost t: seq<State>)
      returns (waiting: bool, left: nat)
      requires Valid() && isr == Off && t != [] && t <= trace
      requires some ==> WasFull(t, trace, out) && SawNoRoom(t, trace, true)
      modifies this`rxFifo, this`txFifo, this`arrived, this`drained, this`rxIn, this`re, this`sent, this`txOut, this`we,
               this`isr, this`controls, this`trace, this`hostInactive, this`looks, rxBuf
      ensures Valid() && isr == Off && old(trace) <= trace
      ensures waiting ==> left < patience && hostInactive == 0 && some && !nonblock
      ensures some ==> SawNoRoom(t, trace, nonblock) && (nonblock || waiting || hostInactive > 0)
      ensures nonblock ==> looks == old(looks)
    {
      waiting, left := false, patience;
      if some && !nonblock {
        waiting, left := Wait(out, left, t);
      }
    }

    method FillAndEnable(ptr: seq<char>, start: nat) returns (done: nat, out: nat)
      requires Valid() && isr == Off && writer == WriterIdle && start <= |ptr|
      modifies this`rxFifo, this`txFifo, this`arrived, this`drained, this`rxIn, this`re, this`sent, this`txOut, this`we,
               this`isr, this`controls, this`trace, this`hostInactive, rxBuf,
               this`writer, this`txIn, this`kickTx, this`accepted, txBuf
      ensures Valid() && isr == Off && writer == WriterIdle && old(trace) <= trace && !kickTx
      ensures start <= done <= |ptr| && accepted == old(accepted) + ptr[start..done]
      ensures done < |ptr| ==> WasFull(old(trace), trace, out) && SawNoRoom(old(trace), trace, true)
    {
      done, out := Fill(ptr, start);
      ghost var t := trace;
      Interrupts();
      EnableWrite();
      if done < |ptr| {
        StillWasFull(old(trace), old(trace), t, trace, out);
      }
    }

    /** Waits until the interrupt routine has moved `txOut` on or the host is inactive, and says
        whether the host is still there. */
    method Wait(out: nat, patience: nat, ghost t: seq<State>) returns (waiting: bool, left: nat)
      requires Valid() && isr == Off && t != [] && t <= trace && WasFull(t, trace, out)
      modifies this`rxFifo, this`txFifo, this`arrived, this`drained, this`rxIn, this`re, this`sent, this`txOut, this`we,
               this`isr, this`controls, this`trace, this`hostInactive, this`looks, rxBuf
      ensures Valid() && isr == Off && old(trace) <= trace
      ensures SawNoRoom(t, trace, false)
      ensures if waiting then left < patience && hostInactive == 0 else hostInactive > 0
    {
      left := WaitForRoom(out, patience, t);
      ghost var m := trace;
      left := Poll(left);
      StillSawNoRoom(t, t, m, trace, false);
      waiting := hostInactive == 0;
    }

    /** The count returned is the number of characters appended to the stream.  A write comes up
        short only if it found the buffer full, and a blocking one only if the host is inactive;
        it leaves the transmit interrupt enabled if anything is unsent. */
    method Write(ptr: seq<char>, nonblock: bool, patience: nat) returns (r: int)
      requires Valid() && isr == Off && writer == WriterIdle
      modifies this`rxFifo, this`txFifo, this`arrived, this`drained, this`rxIn, this`re, this`sent, this`txOut, this`we,
               this`isr, this`controls, this`trace, this`hostInactive, this`looks, rxBuf,
               this`writer, this`txIn, this`kickTx, this`accepted, txBuf
      ensures Valid() && isr == Off && writer == WriterIdle && old(trace) <= trace
      ensures r > 0 ==> r <= |ptr| && accepted == old(accepted) + ptr[..r]
      ensures r <= 0 ==> accepted == old(accepted) && r == if nonblock then -EWOULDBLOCK else -EIO
      ensures r < |ptr| ==> ptr == [] || SawNoRoom(old(trace), trace, nonblock)
      ensures r < |ptr| && !nonblock ==> ptr == [] || hostInactive > 0
      ensures nonblock ==> looks == old(looks)
      ensures !kickTx && (txIn != txOut ==> we)
    {
      var done, left := 0, patience;
      while true
        invariant Valid() && isr == Off && writer == WriterIdle && old(trace) <= trace
        invariant done <= |ptr| && accepted == old(accepted) + ptr[..done]
        invariant nonblock ==> looks == old(looks)
        invariant done > 0 || accepted == old(accepted)
        decreases left
      {
        var waiting;
        ghost var t := trace;
        done, waiting, left := WriteTurn(ptr, nonblock, done, left);
        if !waiting {
          if done < |ptr| {
            StillSawNoRoom(old(trace), t, trace, trace, nonblock);
          }
          break;
        }
      }
      Awake();
      r := if done > 0 then done else if nonblock then -EWOULDBLOCK else -EIO;
    }

    // altera_avalon_jtag_uart_read

    /** Copies `n` unread characters from `start` on, interrupts running between any two. */
    method CopyChunkOut(n: nat, start: nat) returns (data: seq<char>)
      requires Valid() && isr == Off && reader == Reading(n, []) && start == rxOut
      modifies this`rxFifo, this`txFifo, this`arrived, this`drained, this`rxIn, this`re, this`sent, this`txOut, this`we,
               this`isr, this`controls, this`trace, this`hostInactive, rxBuf,
               this`reader
      ensures Valid() && isr == Off && reader == Reading(n, data) && |data| == n && old(trace) <= trace
      ensures Unread() >= old(Unread())
    {
      data := [];
      for i := 0 to n
        invariant Valid() && isr == Off && reader == Reading(n, data) && |data| == i && old(trace) <= trace
        invariant Unread() >= old(Unread())
      {
        var c := CopyNextOut(start + i);
        data := data + [c];
      }
    }

    method CopyNextOut(i: nat) returns (c: char)
      requires Valid() && isr == Off && reader.Reading? && |reader.got| < reader.n && i == rxOut + |reader.got|
      modifies this`rxFifo, this`txFifo, this`arrived, this`drained, this`rxIn, this`re, this`sent, this`txOut, this`we,
               this`isr, this`controls, this`trace, this`hostInactive, rxBuf,
               this`reader
      ensures Valid() && isr == Off && old(trace) <= trace && Unread() >= old(Unread())
      ensures reader == Reading(old(reader.n), old(reader.got) + [c])
    {
      Interrupts();
      ReaderBounds();
      c := CopyOut(i);
    }

    method ReadChunk(n: nat, ghost space: nat, start: nat) returns (data: seq<char>)
      requires Valid() && isr == Off && reader == ReaderIdle && InBounds() && start == rxOut && space > 0
      requires Available(rxIn, rxOut) > 0 && n == Min(Available(rxIn, rxOut), space)
      modifies this`rxFifo, this`txFifo, this`arrived, this`drained, this`rxIn, this`re, this`sent, this`txOut, this`we,
               this`isr, this`controls, this`trace, this`hostInactive, rxBuf,
               this`reader, this`rxOut, this`kickRx, this`delivered
      ensures Valid() && isr == Off && reader == ReaderIdle && old(trace) <= trace
      ensures |data| == n && delivered == old(delivered) + data && kickRx
      ensures |data| + Unread() >= old(Unread())
    {
      BeginRead(space);
      data := CopyChunkOut(n, start);
      Interrupts();
      Finish((start + n) % BUF_LEN);
    }

    method Finish(newOut: nat)
      requires Valid() && isr == Off && reader.Reading? && |reader.got| == reader.n
      requires newOut == (rxOut + reader.n) % BUF_LEN
      modifies this`rxOut, this`reader, this`kickRx, this`delivered, this`trace
      ensures Valid() && old(trace) <= trace
      ensures reader == ReaderIdle && kickRx && delivered == old(delivered) + old(reader.got)
      ensures old(reader.n) + Unread() == old(Unread())
    {
      ReaderBounds();
      UnreadAfter(rxIn, rxOut, reader.n);
      CommitRead(newOut);
    }

    /** One turn of the inner loop: `space` characters or the run up to the end of the buffer, or
        none because the buffer is empty. */
    method ReadSome(space: nat) returns (data: seq<char>, in_: nat)
      requires Valid() && isr == Off && reader == ReaderIdle && space > 0
      modifies this`rxFifo, this`txFifo, this`arrived, this`drained, this`rxIn, this`re, this`sent, this`txOut, this`we,
               this`isr, this`controls, this`trace, this`hostInactive, rxBuf,
               this`reader, this`rxOut, this`kickRx, this`delivered
      ensures Valid() && isr == Off && reader == ReaderIdle && old(trace) <= trace
      ensures |data| <= space && delivered == old(delivered) + data && |data| + Unread() >= old(Unread())
      ensures data == [] ==> rxIn == rxOut == in_ && kickRx == old(kickRx)
    {
      Interrupts();
      in_ := rxIn;
      var out := rxOut;
      var n := if in_ >= out then in_ - out else BUF_LEN - out;
      if n == 0 {
        data := [];
      } else {
        if n > space {
          n := space;
        }
        data := ReadChunk(n, space, out);
      }
    }

    /** The inner loop: takes characters until `space` is used up or there are none left. */
    method Empty(space: nat) returns (data: seq<char>, in_: nat)
      requires Valid() && isr == Off && reader == ReaderIdle && space > 0
      modifies this`rxFifo, this`txFifo, this`arrived, this`drained, this`rxIn, this`re, this`sent, this`txOut, this`we,
               this`isr, this`controls, this`trace, this`hostInactive, rxBuf,
               this`reader, this`rxOut, this`kickRx, this`delivered
      ensures Valid() && isr == Off && reader == ReaderIdle && old(trace) <= trace
      ensures |data| <= space && delivered == old(delivered) + data && (|data| == space || |data| >= old(Unread()))
      ensures data == [] ==> rxIn == rxOut == in_ && kickRx == old(kickRx)
    {
      data, in_ := ReadSome(space);
      var more := data != [];
      while more && |data| < space
        invariant Valid() && isr == Off && reader == ReaderIdle && old(trace) <= trace
        invariant |data| <= space && delivered == old(delivered) + data && |data| + Unread() >= old(Unread())
        invariant !more ==> rxIn == rxOut
        invariant data == [] ==> !more && rxIn == rxOut == in_ && kickRx == old(kickRx)
        decreases space - |data|, more
      {
        var next;
        next, in_ := ReadSome(space - |data|);
        data := data + next;
        more := next != [];
      }
    }

    /** From the end of `t` to the end of `t'` there was a moment at which nothing was unread and the
        host had been silent too long. */
    ghost predicate GivenUp(t: seq<State>, t': seq<State>) {
      exists i :: 0 <= |t| - 1 <= i < |t'| && Silent(t'[i])
    }

    ghost predicate Silent(s: State) {
      s.rxIn == s.rxOut && s.inactive >= timeout
    }

    lemma StillGivenUp(t0: seq<State>, t: seq<State>, t': seq<State>, t'': seq<State>)
      requires t0 != [] && t0 <= t <= t' <= t'' && GivenUp(t, t')
      ensures GivenUp(t0, t'')
    {
      var i :| |t| - 1 <= i < |t'| && Silent(t'[i]);
      assert t''[i] == t'[i];
    }

    /** Spins until the interrupt routine has moved `rxIn` on or the host is inactive. */
    method WaitForData(in_: nat, patience: nat)
      requires Valid() && isr == Off
      modifies this`rxFifo, this`txFifo, this`arrived, this`drained, this`rxIn, this`re, this`sent, this`txOut, this`we,
               this`isr, this`controls, this`trace, this`hostInactive, this`looks, rxBuf
      ensures Valid() && isr == Off && old(trace) <= trace && Unread() >= old(Unread())
      ensures rxIn == in_ ==> hostInactive >= timeout
    {
      var left := Poll(patience);
      while in_ == rxIn && hostInactive < timeout
        invariant Valid() && isr == Off && old(trace) <= trace && Unread() >= old(Unread())
        invariant left == 0 ==> hostInactive >= timeout
        decreases left
      {
        left := Poll(left);
      }
    }

    /** One turn of the outer loop; `again` if it has to go round again, because a character came
        in while it waited. */
    method ReadTurn(space: nat, nonblock: bool, patience: nat) returns (data: seq<char>, again: bool)
      requires Valid() && isr == Off && reader == ReaderIdle && space > 0
      modifies this`rxFifo, this`txFifo, this`arrived, this`drained, this`rxIn, this`re, this`sent, this`txOut, this`we,
               this`isr, this`controls, this`trace, this`hostInactive, this`looks, rxBuf,
               this`reader, this`rxOut, this`kickRx, this`delivered
      ensures Valid() && isr == Off && reader == ReaderIdle && old(trace) <= trace
      ensures |data| <= space && delivered == old(delivered) + data && (|data| == space || |data| >= old(Unread()))
      ensures data == [] ==> kickRx == old(kickRx)
      ensures again ==> data == [] && Unread() > 0
      ensures data == [] && !nonblock ==> again || GivenUp(old(trace), trace)
      ensures nonblock ==> !again && looks == old(looks)
    {
      var in_;
      data, in_ := Empty(space);
      again := false;
      if data == [] && !nonblock {
        ghost var t := trace;
        again := AwaitData(in_, patience);
        if !again {
          StillGivenUp(old(trace), t, trace, trace);
        }
      }
    }

    method AwaitData(in_: nat, patience: nat) returns (again: bool)
      requires Valid() && isr == Off && rxIn == rxOut == in_
      modifies this`rxFifo, this`txFifo, this`arrived, this`drained, this`rxIn, this`re, this`sent, this`txOut, this`we,
               this`isr, this`controls, this`trace, this`hostInactive, this`looks, rxBuf
      ensures Valid() && isr == Off && old(trace) <= trace
      ensures if again then Unread() > 0 else GivenUp(old(trace), trace)
    {
      WaitForData(in_, patience);
      Bounds();
      ghost var s, m := View(), |trace| - 1;
      Interrupts();
      again := in_ != rxIn;
      if !again {
        assert Silent(s) && trace[m] == s;
      }
    }

    /** The turns of the outer loop. */
    method ReadTurns(space: nat, nonblock: bool, patience: nat) returns (data: seq<char>)
      requires Valid() && isr == Off && reader == ReaderIdle && !kickRx
      modifies this`rxFifo, this`txFifo, this`arrived, this`drained, this`rxIn, this`re, this`sent, this`txOut, this`we,
               this`isr, this`controls, this`trace, this`hostInactive, this`looks, rxBuf,
               this`reader, this`rxOut, this`kickRx, this`delivered
      ensures Valid() && isr == Off && reader == ReaderIdle && old(trace) <= trace
      ensures delivered == old(delivered) + data && |data| <= space && (|data| == space || |data| >= old(Unread()))
      ensures data == [] && space > 0 && !nonblock ==> GivenUp(old(trace), trace)
      ensures nonblock ==> looks == old(looks)
      ensures data == [] ==> !kickRx
    {
      data := [];
      var again := space > 0;
      while again
        invariant Valid() && isr == Off && reader == ReaderIdle && old(trace) <= trace
        invariant delivered == old(delivered) + data && |data| <= space
        invariant again ==> data == [] && space > 0 && Unread() >= old(Unread())
        invariant nonblock ==> looks == old(looks)
        invariant !again ==> data != [] || space == 0 || nonblock || GivenUp(old(trace), trace)
        invariant !again ==> |data| == space || |data| >= old(Unread())
        invariant data == [] ==> !kickRx
        decreases again, Unread() <= 0
      {
        ghost var t := trace;
        data, again := ReadTurn(space, nonblock, patience);
        if !again && data == [] && !nonblock {
          StillGivenUp(old(trace), t, trace, trace);
        }
      }
    }

    /** The characters returned are the next ones of the stream; they are not lost, and they are
        all that was waiting or as many as there is space for.  Reading nothing is an error, and
        consumes nothing; a read that may block has seen the host silent too long then.  The receive
        interrupt is left enabled unless the buffer is full. */
    method Read(space: nat, nonblock: bool, patience: nat) returns (r: int, data: seq<char>)
      requires Valid() && isr == Off && reader == ReaderIdle && !kickRx
      modifies this`rxFifo, this`txFifo, this`arrived, this`drained, this`rxIn, this`re, this`sent, this`txOut, this`we,
               this`isr, this`controls, this`trace, this`hostInactive, this`looks, rxBuf,
               this`reader, this`rxOut, this`kickRx, this`delivered
      ensures Valid() && isr == Off && reader == ReaderIdle && old(trace) <= trace
      ensures delivered == old(delivered) + data && |data| <= space && (|data| == space || |data| >= old(Unread()))
      ensures data == [] && space > 0 && !nonblock ==> GivenUp(old(trace), trace)
      ensures nonblock ==> looks == old(looks)
      ensures r == if data != [] then |data| else if nonblock then -EWOULDBLOCK else -EIO
      ensures !kickRx && (re || Next(rxIn) == rxOut)
    {
      data := ReadTurns(space, nonblock, patience);
      ghost var t := trace;
      EnableIf(data != []);
      if data == [] && space > 0 && !nonblock {
        StillGivenUp(old(trace), old(trace), t, trace);
      }
      r := if data != [] then |data| else if nonblock then -EWOULDBLOCK else -EIO;
    }

    method EnableIf(taken: bool)
      requires Valid() && isr == Off && reader == ReaderIdle && (taken || !kickRx)
      modifies this`rxFifo, this`txFifo, this`arrived, this`drained, this`rxIn, this`re, this`sent, this`txOut, this`we,
               this`isr, this`controls, this`trace, this`hostInactive, rxBuf,
               this`kickRx
      ensures Valid() && isr == Off && old(trace) <= trace
      ensures !kickRx && (re || Next(rxIn) == rxOut)
    {
      if taken {
        Interrupts();
        EnableRead();
      }
      Awake();
    }

    /** altera_avalon_jtag_uart_close: 0 once the buffer has run empty or the host is inactive. */
    method Close(nonblock: bool, patience: nat) returns (r: int)
      requires Valid() && isr == Off
      modifies this`rxFifo, this`txFifo, this`arrived, this`drained, this`rxIn, this`re, this`sent, this`txOut, this`we,
               this`isr, this`controls, this`trace, this`hostInactive, this`looks, rxBuf
      ensures Valid() && isr == Off && old(trace) <= trace
      ensures r == 0 ==> txOut == txIn || hostInactive >= timeout
      ensures nonblock ==> looks <= old(looks) + 1
      ensures r != 0 ==> r == -EWOULDBLOCK && nonblock && txOut != txIn && hostInactive < timeout
    {
      var left := Poll(patience);
      while txOut != txIn && hostInactive < timeout
        invariant Valid() && isr == Off && old(trace) <= trace
        invariant nonblock ==> looks <= old(looks) + 1
        invariant left == 0 ==> hostInactive >= timeout
        decreases left
      {
        if nonblock {
          return -EWOULDBLOCK;
        }
        left := Poll(left);
      }
      r := 0;
    }
  }
}
