/** The alarm list: a circular doubly linked list with a head, and the tick routine that walks it. */
module AlarmList {
  import opened AlarmTime

  const EINVAL := 22
  const ENOTSUP := 134

  class Alarm {
    var next: Alarm?
    var previous: Alarm?
    var time: nat
    var rollover: bool
    ghost var due: nat      // the tick, not wrapped, at which it is to go off
    ghost var timed: bool   // that is when it will go off: see AlarmTime.OnTimeIff

    constructor ()
      ensures next == null && previous == null
    {
      next, previous, time, rollover, due, timed := null, null, 0, false, 0, false;
    }

    function Setting(): Setting
      reads this`time, this`rollover
    {
      AlarmTime.Setting.Setting(time, rollover)
    }
  }

  ghost function Set(s: seq<Alarm>): set<Alarm> { set a | a in s }

  /** Once around the ring: the head, the elements, and the head again. */
  ghost function Round(head: Alarm, s: seq<Alarm>): seq<Alarm> { [head] + s + [head] }

  ghost predicate Link(d: seq<Alarm>, i: int)
    requires 0 <= i < |d| - 1
    reads Set(d)`next, Set(d)`previous
  {
    d[i].next == d[i + 1] && d[i + 1].previous == d[i]
  }

  ghost predicate Distinct(head: Alarm, s: seq<Alarm>) {
    head !in s && Unique(s)
  }

  /** The elements of `s` are linked in that order, in both directions, into a ring with `head`. */
  ghost predicate Linked(head: Alarm, s: seq<Alarm>)
    reads head`next, head`previous, Set(s)`next, Set(s)`previous
  {
    Distinct(head, s) && forall i | 0 <= i < |s| + 1 :: Link(Round(head, s), i)
  }

  /** alt_llist_insert: the entry becomes the first one. */
  method Insert(list: Alarm, entry: Alarm, ghost s: seq<Alarm>)
    requires Linked(list, s) && entry !in s && entry != list
    modifies list`next, list`previous, entry`next, entry`previous, Set(s)`next, Set(s)`previous
    ensures Linked(list, [entry] + s)
  {
    ghost var d, d' := Round(list, s), Round(list, [entry] + s);
    assert Link(d, 0);
    entry.previous := list;
    entry.next := list.next;
    list.next.previous := entry;
    list.next := entry;
    forall i | 0 <= i < |s| + 2 ensures Link(d', i) {
      if i >= 2 {
        assert old(Link(d, i - 1));
        assert d'[i] == d[i - 1] && d'[i + 1] == d[i];
      }
    }
  }

  /** alt_llist_remove: the entry is taken out and points to itself.  Removing it once more changes
      nothing. */
  method Remove(entry: Alarm, ghost list: Alarm, ghost s: seq<Alarm>, ghost i: nat)
    requires Linked(list, s)
    requires if i < |s| then s[i] == entry else entry.next == entry.previous == entry
    modifies list`next, list`previous, entry`next, entry`previous, Set(s)`next, Set(s)`previous
    ensures Linked(list, Without(s, i))
    ensures entry.next == entry && entry.previous == entry
  {
    ghost var s' := Without(s, i);
    ghost var d, d' := Round(list, s), Round(list, s');
    assert i < |s| ==> Link(d, i) && Link(d, i + 1);
    entry.next.previous := entry.previous;
    entry.previous.next := entry.next;
    entry.previous := entry;
    entry.next := entry;
    if i < |s| {
      forall j | 0 <= j < |s'| + 1 ensures Link(d', j) {
        assert old(Link(d, if j < i then j else j + 1));
        assert forall k | 0 <= k < |d'| :: d'[k] == d[if k <= i then k else k + 1];
      }
    }
  }

  function Without<T>(s: seq<T>, i: nat): seq<T> {
    if i < |s| then s[..i] + s[i + 1..] else s
  }

  /** The system clock and its alarms. */
  class Scheduler {
    const head: Alarm
    const pool: seq<Alarm>         // every alarm structure that the program has
    var nticks: nat                // the counter
    var tickRate: nat
    ghost var now: nat             // the count without wrapping
    ghost var visited: seq<Alarm>  // the list, first to last, up to the place where a tick has come to
    ghost var pending: seq<Alarm>  // ... and from there on
    ghost var started: set<Alarm>  // every alarm that has been started

    constructor (tickRate: nat, pool: seq<Alarm>)
      requires forall a | a in pool :: a.next == null
      ensures Consistent() && visited == pending == [] && now == 0 && started == {}
      ensures this.pool == pool && this.tickRate == tickRate && fresh(head)
    {
      var h := new Alarm();
      h.next, h.previous := h, h;
      head, this.pool, nticks, this.tickRate := h, pool, 0, tickRate;
      now, visited, pending, started := 0, [], [], {};
    }

    /** A timed alarm will go off at tick `due` and not before. */
    ghost predicate OnTime(a: Alarm, now: nat)
      reads a`time, a`rollover, a`due, a`timed
    {
      a.timed ==> Right(a.Setting(), now, a.due)
    }

    ghost predicate Unlinked(a: Alarm)
      reads this`started, a`next, a`previous
    {
      if a in started then a.next == a.previous == a else a.next == null
    }

    ghost function Alarms(): seq<Alarm>
      reads this
    {
      visited + pending
    }

    ghost predicate AllOnTime(s: seq<Alarm>, now: nat)
      reads Set(s)`time, Set(s)`rollover, Set(s)`due, Set(s)`timed
    {
      forall a | a in s :: OnTime(a, now)
    }

    /** A tick is under way and has not come to these alarms. */
    ghost predicate AllWaiting(s: seq<Alarm>, now: nat)
      reads Set(s)`time, Set(s)`rollover, Set(s)`due, Set(s)`timed
    {
      forall a | a in s :: Waiting(a, now)
    }

    ghost predicate Waiting(a: Alarm, now: nat)
      reads a`time, a`rollover, a`due, a`timed
    {
      now > 0 && OnTime(a, now - 1)
    }

    lemma FewerOnTime(s: seq<Alarm>, s': seq<Alarm>, now: nat)
      requires forall a | a in s' :: a in s
      ensures AllOnTime(s, now) ==> AllOnTime(s', now)
      ensures AllWaiting(s, now) ==> AllWaiting(s', now)
    {
    }

    lemma OneMoreOnTime(a: Alarm, s: seq<Alarm>, now: nat)
      requires OnTime(a, now) && AllOnTime(s, now)
      ensures AllOnTime([a] + s, now)
    {
    }

    /** Alarms that are in neither part of the list are not linked to anything. */
    ghost predicate OthersUnlinked(s: seq<Alarm>, t: seq<Alarm>)
      reads this`started, Set(pool)`next, Set(pool)`previous
    {
      forall a | a in pool && a !in s && a !in t :: Unlinked(a)
    }

    ghost predicate Consistent()
      reads this, head, Set(pool)
    {
      && head !in pool && (forall a | a in Alarms() :: a in pool && a in started)
      && Linked(head, Alarms())
      && OthersUnlinked(visited, pending) && nticks == now % WRAP
      && AllOnTime(visited, now) && AllWaiting(pending, now)
    }

    lemma LinkedElsewhere(a: Alarm)
      requires Consistent() && a in Alarms()
      ensures a.next != null && a.next != a
    {
      var i :| 0 <= i < |Alarms()| && Alarms()[i] == a;
      assert Link(Round(head, Alarms()), i + 1);
    }

    lemma NeverStarted(a: Alarm)
      requires Consistent() && a in pool
      ensures a in started <==> a.next != null
    {
      if a in Alarms() {
        LinkedElsewhere(a);
      }
    }

    /** alt_alarm_start, of an alarm that is not in the list. */
    method Start(a: Alarm?, nticks: nat) returns (r: int)
      requires Consistent() && nticks < WRAP
      requires a != null ==> a in pool && a !in Alarms()
      modifies this`visited, this`started, head`next, head`previous, Set(pool)`next, Set(pool)`previous
      modifies if a == null then {} else {a}
      ensures Consistent()
      ensures r == if tickRate == 0 then -ENOTSUP else if a == null then -EINVAL else 0
      ensures visited == if r == 0 then [a] + old(visited) else old(visited)
      ensures started >= old(started)
      ensures r == 0 ==> a.due == now + nticks + 1 && (a.timed <==> StartsRight(now, nticks))
      ensures r == 0 ==> a.Setting() == Started(now, nticks)
    {
      if tickRate == 0 {
        return -ENOTSUP;
      }
      if a == null {
        return -EINVAL;
      }
      var current := this.nticks;
      a.time := (nticks + current + 1) % WRAP;
      a.rollover := a.time < current;
      a.due := now + nticks + 1;
      a.timed := StartsRight(now, nticks);
      if a.timed {
        StartedRight(now, nticks);
      }
      LinkIn(a);
      return 0;
    }

    /** Puts an alarm whose time is set at the front. */
    method LinkIn(a: Alarm)
      requires Consistent() && a in pool && a !in Alarms() && OnTime(a, now)
      modifies this`visited, this`started, head`next, head`previous, Set(pool)`next, Set(pool)`previous
      ensures Consistent() && visited == [a] + old(visited) && started == old(started) + {a}
    {
      Insert(head, a, Alarms());
      OneMoreOnTime(a, visited, now);
      assert [a] + Alarms() == ([a] + visited) + pending;
      visited := [a] + visited;
      started := started + {a};
    }

    /** alt_alarm_stop; an alarm that is not in the list stays out of it. */
    method Stop(a: Alarm)
      requires Consistent() && a in pool && a in started
      modifies this`visited, this`pending, head`next, head`previous, Set(pool)`next, Set(pool)`previous
      ensures Consistent() && a !in Alarms()
      ensures visited == Omit(old(visited), a) && pending == Omit(old(pending), a)
      ensures forall x :: x in visited <==> x in old(visited) && x != a
      ensures forall x :: x in pending <==> x in old(pending) && x != a
      ensures old(First(pending)) != a ==> First(pending) == old(First(pending))
    {
      OmitBoth(visited, pending, a);
      UnlinkOnTime(a, Omit(visited, a), Omit(pending, a));
      SetParts(Omit(visited, a), Omit(pending, a));
    }

    ghost method SetParts(v: seq<Alarm>, p: seq<Alarm>)
      requires head !in pool && (forall a | a in v + p :: a in pool && a in started) && nticks == now % WRAP
      requires Linked(head, v + p) && OthersUnlinked(v, p) && AllOnTime(v, now) && AllWaiting(p, now)
      modifies this`visited, this`pending
      ensures Consistent() && visited == v && pending == p
    {
      visited, pending := v, p;
    }

    // The tick, and what callbacks may do meanwhile

    /** What a callback leaves alone: the alarms that are still to be visited are the ones that were,
        without those that it stopped, the next one among them; and neither they nor the alarm whose
        callback it is are started anew.  Nothing comes into the list but what it starts. */
    twostate predicate LeavesWaiting(current: Alarm, next: Alarm, new stopped: set<Alarm>, new begun: set<Alarm>)
      reads this, current, Set(pending), Set(visited)
    {
      && now == old(now) && next == First(pending) && old(started) <= started
      && (forall a | a in old(pending) :: a in pending || a in stopped)
      && (forall a | a in pending :: a in old(pending) && Same(a))
      && (forall a | a in old(visited) :: a in stopped || (a in visited && Same(a)))
      && (forall a | a in visited :: a in old(visited) || a in begun)
      && Same(current)
    }

    twostate predicate Same(a: Alarm)
      reads a`time, a`rollover, a`due, a`timed
    {
      a.time == old(a.time) && a.rollover == old(a.rollover) && a.due == old(a.due) && a.timed == old(a.timed)
    }

    twostate predicate SameDue(a: Alarm)
      reads a`due, a`timed
    {
      a.due == old(a.due) && a.timed == old(a.timed)
    }

    ghost function First(s: seq<Alarm>): Alarm { if s == [] then head else s[0] }

    /** One thing that a callback does: it starts an alarm that is not running, or it stops one, but
        not the one that the tick will go on to. */
    method Act(current: Alarm, next: Alarm) returns (ghost stopped: set<Alarm>, ghost begun: set<Alarm>)
      requires Consistent() && current in pool && current !in pending && next == First(pending)
      modifies this`visited, this`pending, this`started, head`next, head`previous, Set(pool)
      ensures Consistent() && LeavesWaiting(current, next, stopped, begun)
    {
      stopped, begun := {}, {};
      var i: nat, start: bool, nticks: nat := *, *, *;
      if i < |pool| {
        var a := pool[i];
        if start && a != current && nticks < WRAP && (a.next == null || a.next == a) {
          if a in Alarms() {
            LinkedElsewhere(a);
          }
          begun := {a};
          var _ := Start(a, nticks);
        } else if !start && a != next && a.next != null {
          stopped := {a};
          NeverStarted(a);
          Stop(a);
        }
      }
    }

    /** A callback: any number of such things, and the period that it returns. */
    method Callback(current: Alarm, next: Alarm) returns (period: nat, ghost stopped: set<Alarm>, ghost begun: set<Alarm>)
      requires Consistent() && current in pool && current !in pending && next == First(pending)
      modifies this`visited, this`pending, this`started, head`next, head`previous, Set(pool)
      ensures Consistent() && LeavesWaiting(current, next, stopped, begun) && period < WRAP
    {
      stopped, begun := {}, {};
      var n: nat := *;
      while n > 0
        invariant Consistent() && LeavesWaiting(current, next, stopped, begun)
      {
        ghost var less, more := Act(current, next);
        stopped, begun := stopped + less, begun + more;
        n := n - 1;
      }
      period := *;
      if period >= WRAP {
        period := 0;
      }
    }

    /** The tick comes to the first waiting alarm: it clears the flag if the counter has wrapped, and
        sees whether the time has come. */
    method Look(alarm: Alarm) returns (expired: bool)
      requires Consistent() && pending != [] && alarm == pending[0]
      modifies this`visited, this`pending, alarm`rollover, alarm`timed
      ensures Consistent() && pending == old(pending)[1..] && visited == old(visited) + [alarm]
      ensures alarm !in pending && alarm !in old(visited) && alarm in pool && alarm in started
      ensures alarm.Setting() == Cleared(old(alarm.Setting()), nticks) && expired == Expired(alarm.Setting(), nticks)
      ensures old(alarm.timed) ==> (expired <==> old(alarm.due) == now)
      ensures if expired then !alarm.timed && (old(alarm.timed) ==> alarm.time == nticks && !alarm.rollover) else alarm.timed == old(alarm.timed)
    {
      FirstOnly(visited, pending);
      FewerOnTime(pending, pending[1..], now);
      assert alarm in pending && Waiting(alarm, now);
      ghost var s := Alarms();
      label Before:
      expired := Check(alarm);
      forall i | 0 <= i < |s| + 1 ensures Link(Round(head, s), i) {
        assert old@Before(Link(Round(head, s), i));
      }
      assert AllOnTime(visited, now) && AllWaiting(pending[1..], now);
      MovePast(alarm);
    }

    method Check(alarm: Alarm) returns (expired: bool)
      requires nticks == now % WRAP && Waiting(alarm, now)
      modifies alarm`rollover, alarm`timed
      ensures OnTime(alarm, now)
      ensures alarm.Setting() == Cleared(old(alarm.Setting()), nticks) && expired == Expired(alarm.Setting(), nticks)
      ensures old(alarm.timed) ==> (expired <==> alarm.due == now)
      ensures if expired then !alarm.timed && (old(alarm.timed) ==> alarm.time == nticks && !alarm.rollover) else alarm.timed == old(alarm.timed)
    {
      if alarm.timed {
        TickRight(alarm.Setting(), now - 1, alarm.due);
      }
      if alarm.rollover && nticks == 0 {
        alarm.rollover := false;
      }
      expired := alarm.time <= nticks && !alarm.rollover;
      if expired {
        alarm.timed := false;
      }
    }

    ghost method MovePast(alarm: Alarm)
      requires head !in pool && (forall a | a in Alarms() :: a in pool && a in started) && Linked(head, Alarms())
      requires OthersUnlinked(visited, pending) && nticks == now % WRAP && pending != [] && alarm == pending[0]
      requires AllOnTime(visited, now) && AllWaiting(pending[1..], now) && OnTime(alarm, now)
      modifies this`visited, this`pending
      ensures Consistent() && pending == old(pending)[1..] && visited == old(visited) + [alarm]
    {
      assert Alarms() == (visited + [alarm]) + pending[1..];
      visited, pending := visited + [alarm], pending[1..];
    }

    /** The tick takes its turn with one alarm; `period` is what its callback returned, if it was
        called. */
    method Visit(alarm: Alarm, next: Alarm)
      returns (ghost called: bool, ghost period: nat, ghost stopped: set<Alarm>, ghost begun: set<Alarm>)
      requires Consistent() && pending != [] && alarm == pending[0] && next == First(pending[1..])
      modifies this`visited, this`pending, this`started, head`next, head`previous, Set(pool)
      ensures Consistent() && now == old(now) && next == First(pending)
      ensures forall a | a in old(pending) :: a == alarm || a in pending || a in stopped
      ensures forall a | a in pending :: a in old(pending) && a != alarm && Same(a)
      ensures forall a | a in old(visited) :: a in stopped || (a in visited && SameDue(a))
      ensures forall a | a in visited :: a == alarm || a in old(visited) || a in begun
      ensures called == Expired(Cleared(old(alarm.Setting()), nticks), nticks)
      ensures !called ==> alarm in visited && SameDue(alarm)
      ensures called && period == 0 ==> alarm !in visited
      ensures old(alarm.timed) ==> (called <==> old(alarm.due) == now)
      ensures called && period > 0 && old(alarm.timed) ==>
          alarm in stopped || (alarm in visited && alarm.timed && alarm.due == now + period)
    {
      ghost var timed := alarm.timed;
      var expired := Look(alarm);
      called, period, stopped, begun := expired, 0, {}, {};
      if expired {
        var nextCallback;
        nextCallback, stopped, begun := Callback(alarm, next);
        period := nextCallback;
        if nextCallback == 0 {
          Stop(alarm);
        } else {
          Rearm(alarm, nextCallback, timed);
        }
      }
    }

    method Rearm(alarm: Alarm, nextCallback: nat, ghost timed: bool)
      requires Consistent() && alarm in pool && alarm !in pending && 0 < nextCallback < WRAP
      requires timed ==> alarm.time == nticks && !alarm.rollover
      modifies alarm`time, alarm`rollover, alarm`due, alarm`timed
      ensures Consistent()
      ensures alarm.timed == timed && alarm.due == now + nextCallback
      ensures alarm.Setting() == Rearmed(old(alarm.Setting()), nticks, nextCallback)
    {
      RearmedRight(now, nextCallback);
      ghost var s := Alarms();
      label Before:
      alarm.time := (alarm.time + nextCallback) % WRAP;
      if alarm.time < nticks {
        alarm.rollover := true;
      }
      alarm.due := now + nextCallback;
      alarm.timed := timed;
      forall i | 0 <= i < |s| + 1 ensures Link(Round(head, s), i) {
        assert old@Before(Link(Round(head, s), i));
      }
    }

    /** alt_tick: every alarm has one turn, in which it is called if it is due, and only then; the rest
        stay as they are.  `called` maps those that were to the periods that their callbacks asked for,
        and they are due that much later; those that asked for no other call leave the list.  Alarms
        that a callback stops may miss their turn, and those that one starts come into the list. */
    method Tick()
      returns (ghost seen: seq<Alarm>, ghost called: map<Alarm, nat>, ghost stopped: set<Alarm>, ghost begun: set<Alarm>)
      requires Consistent() && pending == []
      modifies this`nticks, this`now, this`visited, this`pending, this`started, head`next, head`previous, Set(pool)
      ensures Consistent() && pending == [] && now == old(now) + 1
      ensures Unique(seen) && (forall a | a in seen :: a in old(visited)) && forall a | a in called :: a in seen
      ensures forall a | a in old(visited) :: a in seen || a in stopped
      ensures forall a | a in old(visited) :: a in stopped || Treated(a, called)
      ensures forall a | a in called && called[a] == 0 :: a in begun || a !in visited
      ensures forall a | a in visited :: a in old(visited) || a in begun
    {
      seen, called, stopped, begun := [], map[], {}, {};
      var alarm := head.next;
      BeginTick();
      while alarm != head
        invariant Consistent() && now == old(now) + 1 && alarm == First(pending)
        invariant Unique(seen) && (forall a | a in seen :: a in old(visited) && a !in pending)
        invariant forall a | a in called :: a in seen
        invariant forall a | a in old(visited) :: a in pending || a in seen || a in stopped
        invariant forall a | a in pending :: a in old(visited) && Same(a)
        invariant forall a | a in old(visited) :: a in pending || a in stopped || Treated(a, called)
        invariant forall a | a in called && called[a] == 0 :: a in begun || a !in visited
        invariant forall a | a in visited :: a in old(visited) || a in begun
        decreases Set(pending)
      {
        var next := alarm.next;
        NextIsSecond();
        ghost var waiting := Set(pending);
        ghost var due, period, less, more := Visit(alarm, next);
        assert Set(pending) <= waiting && alarm in waiting && alarm !in Set(pending);
        seen := seen + [alarm];
        called := if due then called[alarm := period] else called;
        stopped, begun := stopped + less, begun + more;
        alarm := next;
      }
    }

    /** The time of the alarm has come, as far as its time and flag tell. */
    twostate predicate WasExpired(a: Alarm)
      reads this`nticks, a`time, a`rollover
    {
      Expired(Cleared(old(a.Setting()), nticks), nticks)
    }

    /** An alarm is called if and only if it is due; if it has not been called it stays as it is, and if
        it has it will go off as much later as its callback asked for. */
    twostate predicate Treated(a: Alarm, new called: map<Alarm, nat>)
      reads this`nticks, this`now, this`visited, a`time, a`rollover, a`due, a`timed
    {
      && (a in called <==> WasExpired(a))
      && (old(a.timed) ==> (a in called <==> old(a.due) == now))
      && (a !in called ==> a in visited && SameDue(a))
      && (a in called && called[a] > 0 && old(a.timed) ==> Again(a, called[a]))
    }

    /** The alarm is in the list and will go off `period` ticks from now. */
    ghost predicate Again(a: Alarm, period: nat)
      reads this`visited, this`now, a`due, a`timed
    {
      a in visited && a.timed && a.due == now + period
    }

    lemma NextIsSecond()
      requires Consistent() && pending != []
      ensures pending[0].next == First(pending[1..])
    {
      assert Link(Round(head, Alarms()), |visited| + 1);
    }

    method BeginTick()
      requires Consistent() && pending == []
      modifies this`nticks, this`now, this`visited, this`pending
      ensures Consistent() && now == old(now) + 1 && pending == old(visited) && visited == []
      ensures head.next == First(pending)
    {
      assert Link(Round(head, Alarms()), 0);
      nticks := (nticks + 1) % WRAP;
      now := now + 1;
      SumWraps(now - 1, 1);
      assert [] + visited == visited + [];
      visited, pending := [], visited;
    }

    /** Takes `a` out of the ring. */
    method Unlink(a: Alarm)
      requires Consistent() && a in pool && a in started
      modifies head`next, head`previous, Set(pool)`next, Set(pool)`previous
      ensures Linked(head, Omit(visited, a) + Omit(pending, a)) && OthersUnlinked(Omit(visited, a), Omit(pending, a))
    {
      OmitBoth(visited, pending, a);
      ghost var v, p := Omit(visited, a), Omit(pending, a);
      label Before:
      Remove(a, head, Alarms(), Index(Alarms(), a));
      forall x | x in pool && x !in v && x !in p ensures Unlinked(x) {
        if x != a {
          assert x !in Alarms() && old@Before(Unlinked(x));
        }
      }
    }

    method UnlinkOnTime(a: Alarm, ghost v: seq<Alarm>, ghost p: seq<Alarm>)
      requires Consistent() && a in pool && a in started && v == Omit(visited, a) && p == Omit(pending, a)
      requires (forall x | x in v :: x in visited) && (forall x | x in p :: x in pending)
      modifies head`next, head`previous, Set(pool)`next, Set(pool)`previous
      ensures Linked(head, v + p) && OthersUnlinked(v, p) && AllOnTime(v, now) && AllWaiting(p, now)
    {
      FewerOnTime(visited, v, now);
      FewerOnTime(pending, p, now);
      Unlink(a);
    }
  }

  /** Where `x` is in `s`, or the length of `s`. */
  ghost function Index<T>(s: seq<T>, x: T): (i: nat)
    ensures i <= |s| && (i < |s| ==> s[i] == x) && (i < |s| <==> x in s)
  {
    if s == [] || s[0] == x then 0 else 1 + Index(s[1..], x)
  }

  ghost predicate Unique<T>(s: seq<T>) { forall i, j | 0 <= i < j < |s| :: s[i] != s[j] }

  ghost function Omit<T>(s: seq<T>, x: T): seq<T> { Without(s, Index(s, x)) }

  lemma OmitMembers<T>(s: seq<T>, x: T)
    requires Unique(s)
    ensures forall y :: y in Omit(s, x) <==> y in s && y != x
    ensures s != [] && s[0] != x ==> Omit(s, x) != [] && Omit(s, x)[0] == s[0]
  {
    var i := Index(s, x);
    if i < |s| {
      assert s == s[..i] + [x] + s[i + 1..];
      assert x !in s[..i] && x !in s[i + 1..];
    }
  }

  lemma WithoutLeft<T>(s: seq<T>, t: seq<T>, i: nat)
    requires i < |s|
    ensures Without(s + t, i) == Without(s, i) + t
  {
    assert (s + t)[..i] == s[..i];
    assert (s + t)[i + 1..] == s[i + 1..] + t;
    assert s[..i] + (s[i + 1..] + t) == (s[..i] + s[i + 1..]) + t;
  }

  lemma WithoutRight<T>(s: seq<T>, t: seq<T>, j: nat)
    ensures Without(s + t, |s| + j) == s + Without(t, j)
  {
    if j < |t| {
      assert (s + t)[..|s| + j] == s + t[..j] && (s + t)[|s| + j + 1..] == t[j + 1..];
    }
  }

  lemma OmitSplits<T>(s: seq<T>, t: seq<T>, x: T)
    requires Unique(s + t)
    ensures Omit(s + t, x) == Omit(s, x) + Omit(t, x)
  {
    UniqueParts(s, t);
    IndexSplits(s, t, x);
    if x in s {
      WithoutLeft(s, t, Index(s, x));
    } else {
      WithoutRight(s, t, Index(t, x));
    }
  }

  lemma {:induction false} IndexSplits<T>(s: seq<T>, t: seq<T>, x: T)
    ensures Index(s + t, x) == if x in s then Index(s, x) else |s| + Index(t, x)
  {
    if s == [] {
      assert s + t == t;
    } else if s[0] != x {
      IndexSplits(s[1..], t, x);
      assert (s + t)[1..] == s[1..] + t;
    }
  }

  lemma OmitBoth<T>(s: seq<T>, t: seq<T>, x: T)
    requires Unique(s + t)
    ensures forall y :: y in Omit(s, x) <==> y in s && y != x
    ensures forall y :: y in Omit(t, x) <==> y in t && y != x
    ensures if t == [] then Omit(t, x) == [] else t[0] != x ==> Omit(t, x) != [] && Omit(t, x)[0] == t[0]
    ensures Omit(s + t, x) == Omit(s, x) + Omit(t, x)
  {
    UniqueParts(s, t);
    OmitMembers(s, x);
    OmitMembers(t, x);
    OmitSplits(s, t, x);
  }

  lemma FirstOnly<T>(s: seq<T>, t: seq<T>)
    requires Unique(s + t) && t != []
    ensures t[0] !in s && t[0] !in t[1..]
  {
    UniqueParts(s, t);
  }

  lemma UniqueParts<T>(s: seq<T>, t: seq<T>)
    requires Unique(s + t)
    ensures Unique(s) && Unique(t)
    ensures forall x | x in s :: x !in t
  {
    assert forall i | 0 <= i < |s| :: (s + t)[i] == s[i];
    assert forall i | 0 <= i < |t| :: (s + t)[|s| + i] == t[i];
  }
}
