/** The circular character buffers of the JTAG UART driver. */
module Ring {

  /** Each buffer holds at most BUF_LEN - 1 characters: equal indices mean empty. */
  const BUF_LEN := 2048

  function Next(i: nat): nat { (i + 1) % BUF_LEN }

  type Buffer = b: seq<char> | |b| == BUF_LEN witness seq(BUF_LEN, _ => '\0')

  /** The characters from index `out` up to index `in_`, around the end if need be. */
  function Contents(b: Buffer, out: nat, in_: nat): seq<char>
    requires out < BUF_LEN && in_ < BUF_LEN
  {
    if out <= in_ then b[out..in_] else b[out..] + b[..in_]
  }

  /** The run of free slots that starts at `in_`, as the writer computes it. */
  function Room(in_: nat, out: nat): nat
    requires out < BUF_LEN && in_ < BUF_LEN
  {
    if in_ < out then out - 1 - in_
    else if out > 0 then BUF_LEN - in_
    else BUF_LEN - 1 - in_
  }

  /** The run of unread characters that starts at `out`, as the reader computes it. */
  function Available(in_: nat, out: nat): nat
    requires out < BUF_LEN && in_ < BUF_LEN
  {
    if in_ >= out then in_ - out else BUF_LEN - out
  }

  /** The free run goes up to the end of the buffer or to the last free slot, and the unread run up to the
      end of the buffer or to the last unread one. */
  lemma RunsAreWhole(in_: nat, out: nat)
    requires out < BUF_LEN && in_ < BUF_LEN
    ensures var n := Room(in_, out); in_ + n == BUF_LEN || Next(in_ + n) == out
    ensures var n := Available(in_, out); out + n == BUF_LEN || out + n == in_
  {
  }

  lemma PopFront(b: Buffer, out: nat, in_: nat)
    requires out < BUF_LEN && in_ < BUF_LEN && out != in_
    ensures Contents(b, out, in_) == [b[out]] + Contents(b, Next(out), in_)
  {
    Take(b, out, in_, 1);
    assert b[out..out + 1] == [b[out]];
  }

  lemma PushBack(b: Buffer, out: nat, in_: nat, c: char)
    requires out < BUF_LEN && in_ < BUF_LEN && Next(in_) != out
    ensures Contents(b[in_ := c], out, Next(in_)) == Contents(b, out, in_) + [c]
  {
    var b' := b[in_ := c];
    WriteElsewhere(b, out, in_, in_, c);
    NoRoom(in_, out);
    Append(b', out, in_, 1);
    assert b'[in_..in_ + 1] == [c];
  }

  /** Writing outside the unread region changes nothing unread. */
  lemma WriteElsewhere(b: Buffer, out: nat, in_: nat, i: nat, c: char)
    requires out < BUF_LEN && in_ < BUF_LEN && i < BUF_LEN
    requires if out <= in_ then i < out || in_ <= i else in_ <= i < out
    ensures Contents(b[i := c], out, in_) == Contents(b, out, in_)
  {
  }

  /** Two adjoining parts of a sequence. */
  lemma Join(b: seq<char>, i: nat, j: nat, k: nat)
    requires i <= j <= k <= |b|
    ensures b[i..k] == b[i..j] + b[j..k]
  {
  }

  lemma Associate(a: seq<char>, b: seq<char>, c: seq<char>)
    ensures a + (b + c) == (a + b) + c
  {
  }

  lemma OneMore(b: seq<char>, i: nat, j: nat)
    requires i <= j < |b|
    ensures b[i..j + 1] == b[i..j] + [b[j]]
  {
  }

  lemma Stored(b: seq<char>, i: nat, j: nat, c: char)
    requires i <= j < |b|
    ensures b[j := c][i..j + 1] == b[i..j] + [c]
  {
  }

  lemma Around(i: nat)
    requires i <= BUF_LEN
    ensures i % BUF_LEN == if i < BUF_LEN then i else 0
  {
  }

  /** Committing `n` characters already stored at `in_`. */
  lemma Append(b: Buffer, out: nat, in_: nat, n: nat)
    requires out < BUF_LEN && in_ < BUF_LEN && n <= Room(in_, out)
    ensures in_ + n <= BUF_LEN
    ensures Contents(b, out, (in_ + n) % BUF_LEN) == Contents(b, out, in_) + b[in_..in_ + n]
  {
    var to := (in_ + n) % BUF_LEN;
    Around(in_ + n);
    if in_ < out {
      AppendAround(b, out, in_, to);
    } else if in_ + n < BUF_LEN {
      AppendStraight(b, out, in_, to);
    } else {
      AppendToEnd(b, out, in_);
    }
  }

  lemma AppendAround(b: Buffer, out: nat, in_: nat, to: nat)
    requires in_ <= to < out < BUF_LEN
    ensures Contents(b, out, to) == Contents(b, out, in_) + b[in_..to]
  {
    assert b[..to] == b[..in_] + b[in_..to];
    Associate(b[out..], b[..in_], b[in_..to]);
  }

  lemma AppendStraight(b: Buffer, out: nat, in_: nat, to: nat)
    requires out <= in_ <= to < BUF_LEN
    ensures Contents(b, out, to) == Contents(b, out, in_) + b[in_..to]
  {
    Join(b, out, in_, to);
  }

  lemma AppendToEnd(b: Buffer, out: nat, in_: nat)
    requires 0 < out <= in_ < BUF_LEN
    ensures Contents(b, out, 0) == Contents(b, out, in_) + b[in_..BUF_LEN]
  {
    Join(b, out, in_, BUF_LEN);
    assert b[out..] + b[..0] == b[out..BUF_LEN];
  }

  /** Taking `n` characters off the front. */
  lemma Take(b: Buffer, out: nat, in_: nat, n: nat)
    requires out < BUF_LEN && in_ < BUF_LEN && n <= Available(in_, out)
    ensures out + n <= BUF_LEN
    ensures Contents(b, out, in_) == b[out..out + n] + Contents(b, (out + n) % BUF_LEN, in_)
  {
    var from := (out + n) % BUF_LEN;
    Around(out + n);
    if in_ >= out {
      TakeStraight(b, out, from, in_);
    } else if out + n < BUF_LEN {
      TakeAround(b, out, from, in_);
    } else {
      TakeToEnd(b, out, in_);
    }
  }

  lemma TakeStraight(b: Buffer, out: nat, from: nat, in_: nat)
    requires out <= from <= in_ < BUF_LEN
    ensures Contents(b, out, in_) == b[out..from] + Contents(b, from, in_)
  {
    Join(b, out, from, in_);
  }

  lemma TakeAround(b: Buffer, out: nat, from: nat, in_: nat)
    requires in_ < out <= from < BUF_LEN
    ensures Contents(b, out, in_) == b[out..from] + Contents(b, from, in_)
  {
    assert b[out..] == b[out..from] + b[from..];
    Associate(b[out..from], b[from..], b[..in_]);
  }

  lemma TakeToEnd(b: Buffer, out: nat, in_: nat)
    requires in_ < out < BUF_LEN
    ensures Contents(b, out, in_) == b[out..BUF_LEN] + Contents(b, 0, in_)
  {
    assert b[out..] == b[out..BUF_LEN] && b[..in_] == b[0..in_];
  }

  /** There is no room exactly when the next slot is the unread one. */
  lemma NoRoom(in_: nat, out: nat)
    requires out < BUF_LEN && in_ < BUF_LEN
    ensures Room(in_, out) == 0 <==> Next(in_) == out
  {
  }

  lemma NothingAvailable(b: Buffer, in_: nat, out: nat)
    requires out < BUF_LEN && in_ < BUF_LEN
    ensures Available(in_, out) == 0 <==> in_ == out
    ensures in_ == out <==> Contents(b, out, in_) == []
  {
  }
}
