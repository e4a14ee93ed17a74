/** The SPI master core with a flash chip at the far end, and the driver's transfer loop. */
module SpiMaster {
  import opened FlashChip

  datatype Option<T> = None | Some(value: T)

  function Zeros(n: nat): (r: seq<Byte>)
    ensures |r| == n && forall i | 0 <= i < n :: r[i] == 0
  {
    seq(n, _ => 0)
  }

  lemma SendsInOrder(write: seq<Byte>, n: nat, i: nat)
    requires i < |write| + n
    ensures |write + Zeros(n)| == |write| + n
    ensures (write + Zeros(n))[i] == if i < |write| then write[i] else 0
  {
  }

  /** After `w` bytes of a transfer: `next` and `zeros` say what is left to send. */
  ghost predicate Sent(write: seq<Byte>, readLength: nat, next: nat, zeros: nat, w: nat) {
    next <= |write| && zeros <= readLength && w == next + (readLength - zeros) && (next < |write| ==> zeros == readLength)
  }

  /** After `r` answers: `ignore` more belong to the bytes of `write`, and `read` has the others. */
  ghost predicate Received(answers: seq<Byte>, n: nat, ignore: nat, read: seq<Byte>, r: nat) {
    && r == n - ignore + |read| && (ignore > 0 ==> read == []) && r <= |answers|
    && forall k | 0 <= k < |read| :: read[k] == answers[n + k]
  }

  lemma ReceivedOneMore(answers: seq<Byte>, n: nat, ignore: nat, read: seq<Byte>, r: nat)
    requires Received(answers, n, ignore, read, r) && r < |answers|
    ensures if ignore > 0 then Received(answers, n, ignore - 1, read, r + 1)
            else Received(answers, n, 0, read + [answers[r]], r + 1)
  {
  }

  function Logged(log: seq<seq<Byte>>, session: seq<Byte>): seq<seq<Byte>> {
    if session != [] && session[0] == RDSR then log else log + [session]
  }

  class Spi {
    var chip: Chip
    var sso: bool            // CONTROL.SSO: keep the chip selected
    var tx: seq<Byte>        // written to TXDATA and not yet exchanged; there is room for two
    var rx: Option<Byte>     // RXDATA: a byte that has not been read is lost to the next one
    ghost var log: seq<seq<Byte>>   // the sessions that are over, status reads aside

    /** Between two commands: nothing is on its way, and a deselected chip has no open session. */
    ghost predicate Quiet()
      reads this
    {
      tx == [] && (!sso ==> chip.session == [] && !chip.ignored)
    }

    constructor (chip: Chip)
      requires chip.session == [] && !chip.ignored
      ensures Quiet() && this.chip == chip && !sso
    {
      this.chip, sso, tx, rx, log := chip, false, [], None, [];
    }

    /** In the transfer of `bytes` that found the chip as `c`, `w` bytes have been written to
        TXDATA and `r` answers read from RXDATA; at most one byte is on its way. */
    ghost predicate Transfer(c: Chip, bytes: seq<Byte>, w: nat, r: nat)
      reads this
    {
      && r <= w <= |bytes| && w <= r + 1
      && if w == r then tx == [] && rx == None && chip == Clocked(c, bytes[..r])
         else if tx != [] then tx == [bytes[r]] && rx == None && chip == Clocked(c, bytes[..r])
         else rx == Some(Answer(Clocked(c, bytes[..r]))) && chip == Clocked(c, bytes[..r + 1])
    }

    /** The core exchanges any number of the waiting bytes, and all of them if it `must`. */
    method Exchange(must: bool, ghost c: Chip, ghost bytes: seq<Byte>, ghost w: nat, ghost r: nat)
      requires Transfer(c, bytes, w, r)
      modifies this`chip, this`tx, this`rx
      ensures Transfer(c, bytes, w, r) && |tx| <= |old(tx)| && (must ==> tx == [])
      ensures old(rx).Some? ==> rx == old(rx)
    {
      var go: bool := *;
      while tx != [] && (must || go)
        invariant Transfer(c, bytes, w, r) && |tx| <= |old(tx)|
        invariant old(rx).Some? ==> rx == old(rx)
        decreases |tx|
      {
        ClockedOneMore(c, bytes, r);
        rx := Some(Answer(chip));
        chip := Clock(chip, tx[0]);
        tx := tx[1..];
        go := *;
      }
    }

    /** Reads the status register until it shows something to do.  `patience` bounds how often the
        core shows nothing to do. */
    method Poll(canWrite: bool, patience: nat, ghost c: Chip, ghost bytes: seq<Byte>, ghost w: nat, ghost r: nat)
      returns (trdy: bool, rrdy: bool)
      requires Transfer(c, bytes, w, r) && (canWrite <==> w == r)
      modifies this`chip, this`tx, this`rx
      ensures Transfer(c, bytes, w, r) && trdy == (|tx| < 2) && rrdy == rx.Some?
      ensures (trdy && canWrite) || rrdy
    {
      var left := patience;
      Exchange(left == 0, c, bytes, w, r);
      trdy, rrdy := |tx| < 2, rx.Some?;
      while (!trdy || !canWrite) && !rrdy
        invariant Transfer(c, bytes, w, r) && trdy == (|tx| < 2) && rrdy == rx.Some?
        invariant left == 0 ==> tx == []
        decreases left
      {
        left := left - 1;
        Exchange(left == 0, c, bytes, w, r);
        trdy, rrdy := |tx| < 2, rx.Some?;
      }
    }

    /** alt_avalon_spi_command: sends `write`, then zeros for as long as answers are wanted, and
        returns the last `readLength` answers.  The chip stays selected if the next command is to
        be merged with this one.  A command of no bytes would never end. */
    method Command(write: seq<Byte>, readLength: nat, merge: bool)
      returns (read: seq<Byte>, ghost delay: nat)
      requires Quiet() && |write| + readLength > 0
      modifies this
      ensures Quiet() && sso == merge && rx == None
      ensures var bytes := write + Zeros(readLength);
              && read == Answers(old(chip), bytes)[|write|..]
              && var after := Clocked(old(chip), bytes);
              chip == if merge then after else Released(after, delay)
      ensures log == if merge then old(log) else Logged(old(log), old(chip).session + write + Zeros(readLength))
    {
      sso := true;
      rx := None;   // discard stale data
      read := Shift(write, readLength);
      delay := 0;
      if !merge {
        sso := false;
        var time: nat := *;
        delay := time;
        log := Logged(log, chip.session);
        assert old(chip).session + (write + Zeros(readLength)) == old(chip).session + write + Zeros(readLength);
        chip := Released(chip, time);
      }
    }

    /** Writes TXDATA. */
    method Send(b: Byte, ghost c: Chip, ghost bytes: seq<Byte>, ghost r: nat)
      requires Transfer(c, bytes, r, r) && r < |bytes| && b == bytes[r]
      modifies this`tx
      ensures Transfer(c, bytes, r + 1, r)
    {
      tx := tx + [b];
    }

    /** Reads RXDATA. */
    method Receive(ghost c: Chip, ghost bytes: seq<Byte>, ghost w: nat, ghost r: nat) returns (b: Byte)
      requires Transfer(c, bytes, w, r) && rx.Some?
      modifies this`rx
      ensures w == r + 1 && Transfer(c, bytes, r + 1, r + 1) && b == Answers(c, bytes)[r]
    {
      b := rx.value;
      rx := None;
    }

    /** Sends the next byte of `write`, or the next of the zeros that follow it.  There is always one:
        the loop never gets to where it would have a credit and nothing left to send. */
    method SendNext(write: seq<Byte>, ghost readLength: nat, next: nat, zeros: nat,
                    ghost c: Chip, ghost bytes: seq<Byte>, ghost r: nat)
      returns (next': nat, zeros': nat)
      requires Transfer(c, bytes, r, r) && r < |bytes| && bytes == write + Zeros(readLength)
      requires Sent(write, readLength, next, zeros, r)
      modifies this`tx
      ensures Transfer(c, bytes, r + 1, r) && Sent(write, readLength, next', zeros', r + 1)
    {
      SendsInOrder(write, readLength, r);
      next', zeros' := next, zeros;
      if next < |write| {
        Send(write[next], c, bytes, r);
        next' := next + 1;
      } else if zeros > 0 {
        Send(0, c, bytes, r);
        zeros' := zeros - 1;
      } else {
        assert false;
      }
    }

    method ReceiveNext(ghost n: nat, ignore: nat, read: seq<Byte>, ghost c: Chip, ghost bytes: seq<Byte>, ghost w: nat, ghost r: nat)
      returns (ignore': nat, read': seq<Byte>)
      requires Transfer(c, bytes, w, r) && rx.Some? && Received(Answers(c, bytes), n, ignore, read, r)
      modifies this`rx
      ensures w == r + 1 && Transfer(c, bytes, r + 1, r + 1) && Received(Answers(c, bytes), n, ignore', read', r + 1)
    {
      ReceivedOneMore(Answers(c, bytes), n, ignore, read, r);
      var b := Receive(c, bytes, w, r);
      ignore', read' := ignore, read;
      if ignore > 0 {
        ignore' := ignore - 1;
      } else {
        read' := read + [b];
      }
    }

    /** At the head of the byte loop.  `credits` and the bytes on their way make up 1. */
    ghost predicate Turning(c: Chip, bytes: seq<Byte>, write: seq<Byte>, readLength: nat,
                            next: nat, zeros: nat, ignore: nat, read: seq<Byte>, credits: int, r: nat)
      reads this
    {
      && 0 <= credits <= 1 && bytes == write + Zeros(readLength)
      && Transfer(c, bytes, r + 1 - credits, r)
      && Sent(write, readLength, next, zeros, r + 1 - credits)
      && Received(Answers(c, bytes), |write|, ignore, read, r)
    }

    lemma Started(c: Chip, write: seq<Byte>, readLength: nat)
      requires tx == [] && rx == None && c == chip
      ensures Turning(c, write + Zeros(readLength), write, readLength, 0, readLength, |write|, [], 1, 0)
    {
    }

    lemma Finished(c: Chip, bytes: seq<Byte>, write: seq<Byte>, readLength: nat,
                   next: nat, zeros: nat, ignore: nat, read: seq<Byte>, credits: int, r: nat)
      requires Turning(c, bytes, write, readLength, next, zeros, ignore, read, credits, r)
      requires ignore == 0 && |read| == readLength
      ensures tx == [] && rx == None && chip == Clocked(c, bytes)
      ensures Received(Answers(c, bytes), |write|, 0, read, |bytes|)
    {
      assert bytes[..r] == bytes;
    }

    method Turn(write: seq<Byte>, readLength: nat, next: nat, zeros: nat, ignore: nat, read: seq<Byte>, credits: int,
                ghost c: Chip, ghost bytes: seq<Byte>, ghost r: nat)
      returns (next': nat, zeros': nat, ignore': nat, read': seq<Byte>, credits': int, ghost r': nat)
      requires Turning(c, bytes, write, readLength, next, zeros, ignore, read, credits, r) && r < |bytes|
      modifies this`chip, this`tx, this`rx
      ensures Turning(c, bytes, write, readLength, next', zeros', ignore', read', credits', r')
      ensures r <= r' && 2 * (|bytes| - r') + credits' < 2 * (|bytes| - r) + credits
      ensures ignore' > 0 || |read'| != readLength ==> r' < |bytes|
    {
      var patience: nat := *;
      var trdy, rrdy := Poll(credits > 0, patience, c, bytes, r + 1 - credits, r);
      next', zeros', credits' := SendHalf(write, readLength, next, zeros, credits, trdy, c, bytes, r);
      ignore', read', credits', r' := ReceiveHalf(|write|, ignore, read, credits', rrdy, c, bytes, r);
    }

    method ReceiveHalf(ghost n: nat, ignore: nat, read: seq<Byte>, credits: int, rrdy: bool,
                       ghost c: Chip, ghost bytes: seq<Byte>, ghost r: nat)
      returns (ignore': nat, read': seq<Byte>, credits': int, ghost r': nat)
      requires 0 <= credits <= 1 && r + 1 - credits <= |bytes| && (rrdy ==> rx.Some?)
      requires Transfer(c, bytes, r + 1 - credits, r) && Received(Answers(c, bytes), n, ignore, read, r)
      modifies this`rx
      ensures if rrdy then credits == 0 && credits' == 1 && r' == r + 1 else credits' == credits && r' == r
      ensures Transfer(c, bytes, r' + 1 - credits', r') && Received(Answers(c, bytes), n, ignore', read', r')
    {
      ignore', read', credits', r' := ignore, read, credits, r;
      if rrdy {
        ignore', read' := ReceiveNext(n, ignore, read, c, bytes, r + 1 - credits, r);
        credits' := credits + 1;
        r' := r + 1;
      }
    }

    method SendHalf(write: seq<Byte>, ghost readLength: nat, next: nat, zeros: nat, credits: int, trdy: bool,
                    ghost c: Chip, ghost bytes: seq<Byte>, ghost r: nat)
      returns (next': nat, zeros': nat, credits': int)
      requires 0 <= credits <= 1 && bytes == write + Zeros(readLength) && r < |bytes|
      requires Transfer(c, bytes, r + 1 - credits, r) && Sent(write, readLength, next, zeros, r + 1 - credits)
      modifies this`tx
      ensures credits' == if trdy then 0 else credits
      ensures Transfer(c, bytes, r + 1 - credits', r) && Sent(write, readLength, next', zeros', r + 1 - credits')
    {
      next', zeros', credits' := next, zeros, credits;
      if trdy && credits > 0 {
        next', zeros' := SendNext(write, readLength, next, zeros, c, bytes, r);
        credits' := credits - 1;
      }
    }

    /** The byte loop.  `credits` and the bytes on their way make up 1 at every turn, so that no
        answer is lost and there is always a byte to send when there is a credit. */
    method Shift(write: seq<Byte>, readLength: nat) returns (read: seq<Byte>)
      requires tx == [] && rx == None && |write| + readLength > 0
      modifies this`chip, this`tx, this`rx
      ensures tx == [] && rx == None
      ensures var bytes := write + Zeros(readLength);
              chip == Clocked(old(chip), bytes) && Received(Answers(old(chip), bytes), |write|, 0, read, |bytes|)
    {
      ghost var c, bytes := chip, write + Zeros(readLength);
      var next: nat, zeros: nat, ignore: nat, credits := 0, readLength, |write|, 1;
      read := [];
      ghost var r: nat := 0;
      Started(c, write, readLength);
      while true
        invariant Turning(c, bytes, write, readLength, next, zeros, ignore, read, credits, r) && r < |bytes|
        decreases 2 * (|bytes| - r) + credits
      {
        next, zeros, ignore, read, credits, r :=
          Turn(write, readLength, next, zeros, ignore, read, credits, c, bytes, r);
        if ignore == 0 && |read| == readLength {
          break;
        }
      }
      Finished(c, bytes, write, readLength, next, zeros, ignore, read, credits, r);
    }
  }
}
