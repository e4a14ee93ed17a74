/** When alarms go off.  The tick counter has 32 bits and wraps; `now` is the same count without
    wrapping.  An alarm compares its due time with the counter, and has a flag that keeps it quiet
    until the counter has wrapped. */
module AlarmTime {

  const WRAP := 0x1_0000_0000

  datatype Setting = Setting(time: nat, rollover: bool)

  /** alt_alarm_start: the setting of an alarm that is started at `now`. */
  function Started(now: nat, nticks: nat): Setting {
    var time := (nticks + now % WRAP + 1) % WRAP;
    Setting(time, time < now % WRAP)
  }

  /** A tick that brings the counter to `n` clears the flag if the counter has wrapped. */
  function Cleared(a: Setting, n: nat): Setting {
    if a.rollover && n == 0 then a.(rollover := false) else a
  }

  predicate Expired(a: Setting, n: nat) { a.time <= n && !a.rollover }

  /** The setting after a callback that asks for the next one in `period` ticks. */
  function Rearmed(a: Setting, n: nat, period: nat): Setting {
    var time := (a.time + period) % WRAP;
    Setting(time, a.rollover || time < n)
  }

  /** The setting is right for an alarm that is due at tick `due`: the time is the due tick as the
      counter will show it, and the flag is set if that is in the next round of the counter.  The
      last case is an alarm a whole round ahead that is set just before the counter wraps. */
  ghost predicate Right(a: Setting, now: nat, due: nat) {
    && a.time == due % WRAP
    && (|| (now < due < now + WRAP && (a.rollover <==> due / WRAP > now / WRAP))
        || (due == now + WRAP && (now + 1) % WRAP == 0 && !a.rollover))
  }

  /** An alarm of 2^32 - 1 ticks is a whole round ahead, where time and counter agree. */
  predicate StartsRight(now: nat, nticks: nat) {
    nticks < WRAP - 1 || (now + 1) % WRAP == 0
  }

  lemma StartedRight(now: nat, nticks: nat)
    requires nticks < WRAP && StartsRight(now, nticks)
    ensures Right(Started(now, nticks), now, now + nticks + 1)
  {
    SumWraps(now, nticks + 1);
  }

  /** Addition modulo the counter width. */
  lemma SumWraps(now: nat, d: nat)
    requires d <= WRAP
    ensures (now % WRAP + d) % WRAP == (now + d) % WRAP
    ensures now % WRAP + d < WRAP ==> (now + d) / WRAP == now / WRAP && (now + d) % WRAP == now % WRAP + d
    ensures WRAP <= now % WRAP + d ==> (now + d) / WRAP == now / WRAP + 1 && (now + d) % WRAP == now % WRAP + d - WRAP
  {
  }

  /** A tick leaves an alarm alone until it is due, and finds it expired exactly then. */
  lemma TickRight(a: Setting, now: nat, due: nat)
    requires Right(a, now, due)
    ensures var n := (now + 1) % WRAP;
            if due == now + 1 then Cleared(a, n) == Setting(n, false) && Expired(Cleared(a, n), n)
            else !Expired(Cleared(a, n), n) && Right(Cleared(a, n), now + 1, due)
  {
    SumWraps(now, 1);
    SumWraps(now, due - now);
  }

  /** After its callback the alarm is due exactly `period` ticks later, whatever the period. */
  lemma RearmedRight(now: nat, period: nat)
    requires 0 < period < WRAP
    ensures Right(Rearmed(Setting(now % WRAP, false), now % WRAP, period), now, now + period)
  {
    SumWraps(now, period);
  }

  // From the start of an alarm to the first time that it goes off

  /** The setting after `j` ticks in which it has not gone off. */
  function After(a: Setting, now: nat, j: nat): Setting {
    if j == 0 then a else Cleared(After(a, now, j - 1), (now + j) % WRAP)
  }

  predicate GoesOff(a: Setting, now: nat, j: nat) { Expired(After(a, now, j), (now + j) % WRAP) }

  /** It goes off in tick `d` from now, and not before. */
  ghost predicate FirstGoesOff(a: Setting, now: nat, d: nat) {
    d > 0 && GoesOff(a, now, d) && forall j | 0 < j < d :: !GoesOff(a, now, j)
  }

  lemma {:induction false} StaysRight(a: Setting, now: nat, due: nat, j: nat)
    requires Right(a, now, due) && now + j < due
    ensures Right(After(a, now, j), now + j, due)
    ensures j > 0 ==> !GoesOff(a, now, j)
  {
    if j > 0 {
      StaysRight(a, now, due, j - 1);
      TickRight(After(a, now, j - 1), now + j - 1, due);
    }
  }

  lemma GoesOffWhenDue(a: Setting, now: nat, due: nat)
    requires Right(a, now, due)
    ensures FirstGoesOff(a, now, due - now)
  {
    forall j | 0 < j < due - now ensures !GoesOff(a, now, j) {
      StaysRight(a, now, due, j);
    }
    StaysRight(a, now, due, due - now - 1);
    TickRight(After(a, now, due - now - 1), due - 1, due);
  }

  /** An alarm started with `nticks` goes off `nticks` + 1 ticks later, never before and never after,
      if and only if it is not the one case in which it is set a whole round ahead and the counter
      is not just about to wrap. */
  lemma OnTimeIff(now: nat, nticks: nat)
    requires nticks < WRAP
    ensures FirstGoesOff(Started(now, nticks), now, nticks + 1) <==> StartsRight(now, nticks)
  {
    if StartsRight(now, nticks) {
      StartedRight(now, nticks);
      GoesOffWhenDue(Started(now, nticks), now, now + nticks + 1);
    } else {
      TooEarly(now);
    }
  }

  /** In that case it goes off at the very next tick. */
  lemma TooEarly(now: nat)
    requires (now + 1) % WRAP != 0
    ensures FirstGoesOff(Started(now, WRAP - 1), now, 1)
  {
    var a := Started(now, WRAP - 1);
    SumWraps(now, WRAP);
    SumWraps(now, 1);
    assert a == Setting(now % WRAP, false);
    assert After(a, now, 1) == Cleared(After(a, now, 0), (now + 1) % WRAP) == a;
  }

  /** The repeats: an alarm that goes off when it is due goes off again `period` ticks later. */
  lemma RepeatsOnTime(a: Setting, now: nat, due: nat, period: nat)
    requires Right(a, now, due) && due == now + 1 && 0 < period < WRAP
    ensures var n := due % WRAP; FirstGoesOff(Rearmed(Cleared(a, n), n, period), due, period)
  {
    TickRight(a, now, due);
    RearmedRight(due, period);
    GoesOffWhenDue(Rearmed(Setting(due % WRAP, false), due % WRAP, period), due, due + period);
  }
}
