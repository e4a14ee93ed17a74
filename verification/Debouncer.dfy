/** The push button filter: one counter per lane, set to its top when the input changes and counted
    down while it does not; the output takes the input when the counter is 0. */
module Debouncer {

  datatype Lane = Lane(input: bool, counter: nat, output: bool)

  /** One rising edge of the clock.  `top` is the counter with all bits set. */
  function Edge(l: Lane, x: bool, top: nat): Lane {
    Lane(x,
         if l.input != x then top else if l.counter != 0 then l.counter - 1 else 0,
         if Assigns(l, x) then x else l.output)
  }

  /** The edge assigns the output. */
  predicate Assigns(l: Lane, x: bool) { l.input == x && l.counter == 0 }

  /** The lane after `t` edges, the edge number `i` sampling `s[i]`.  The power-up state is arbitrary;
      `s[0]` is what the input register holds then. */
  function After(l: Lane, s: seq<bool>, t: nat, top: nat): Lane
    requires t < |s|
  {
    if t == 0 then l else Edge(After(l, s, t - 1, top), s[t], top)
  }

  /** The samples from `a` to `b` are equal. */
  ghost predicate Stable(s: seq<bool>, a: int, b: int)
    requires 0 <= a <= b < |s|
  {
    forall i | a <= i <= b :: s[i] == s[b]
  }

  ghost predicate Begins(l: Lane, s: seq<bool>) { |s| > 0 && l.input == s[0] }

  /** The last `top` + 2 samples up to `t` are equal. */
  ghost predicate Settled(s: seq<bool>, t: nat, top: nat) { top < t < |s| && Stable(s, t - 1 - top, t) }

  ghost predicate Change(s: seq<bool>, c: int) { 0 < c < |s| && s[c] != s[c - 1] }

  lemma InputRegister(l: Lane, s: seq<bool>, t: nat, top: nat)
    requires Begins(l, s) && t < |s|
    ensures After(l, s, t, top).input == s[t]
  {
  }

  /** After a change the counter tells how long the input has been stable. */
  lemma {:induction false} CounterSince(l: Lane, s: seq<bool>, c: nat, t: nat, top: nat)
    requires Begins(l, s) && Change(s, c) && c <= t < |s| && Stable(s, c, t)
    ensures After(l, s, t, top).counter == if t - c <= top then top - (t - c) else 0
  {
    InputRegister(l, s, t - 1, top);
    if t > c {
      assert s[t - 1] == s[t];
      CounterSince(l, s, c, t - 1, top);
    }
  }

  /** The last change up to `t`. */
  function LastChange(s: seq<bool>, c: nat, t: nat): (d: nat)
    requires Change(s, c) && c <= t < |s|
    ensures c <= d <= t && Change(s, d) && Stable(s, d, t)
  {
    if t == c || s[t] != s[t - 1] then t else LastChange(s, c, t - 1)
  }

  /** Once the input has changed, the output is assigned at an edge if and only if the last `top` + 2
      samples, that one included, are equal. */
  lemma AssignedIff(l: Lane, s: seq<bool>, c: nat, t: nat, top: nat)
    requires Begins(l, s) && Change(s, c) && c <= t < |s|
    ensures Assigns(After(l, s, t - 1, top), s[t]) <==> Settled(s, t, top)
  {
    var d := LastChange(s, c, t);
    InputRegister(l, s, t - 1, top);
    if d < t {
      CounterSince(l, s, d, t - 1, top);
    }
    if t > top && t - 1 - top < d {
      assert s[d - 1] != s[d];
    }
  }

  /** A change that lasts reaches the output at exactly the edge number `top` + 1 after it. */
  lemma LastingChange(l: Lane, s: seq<bool>, c: nat, top: nat)
    requires Begins(l, s) && Change(s, c) && c + top + 1 < |s| && Stable(s, c, c + top + 1)
    ensures After(l, s, c + top + 1, top).output == s[c]
    ensures forall t | c <= t < c + top + 1 :: !Assigns(After(l, s, t - 1, top), s[t])
  {
    AssignedIff(l, s, c, c + top + 1, top);
    forall t | c <= t < c + top + 1 ensures !Assigns(After(l, s, t - 1, top), s[t]) {
      AssignedIff(l, s, c, t, top);
    }
  }

  /** As long as the input never stays the same for `top` + 2 samples, the output stays the same. */
  lemma {:induction false} UnstableInputIsIgnored(l: Lane, s: seq<bool>, c: nat, a: nat, b: nat, top: nat)
    requires Begins(l, s) && Change(s, c) && c <= a + 1 && a <= b < |s|
    requires forall t | a < t <= b :: !Settled(s, t, top)
    ensures After(l, s, b, top).output == After(l, s, a, top).output
  {
    if a < b {
      UnstableInputIsIgnored(l, s, c, a, b - 1, top);
      AssignedIff(l, s, c, b, top);
    }
  }

  /** A pulse of at most `top` + 1 samples never reaches the output. */
  lemma ShortPulse(l: Lane, s: seq<bool>, c: nat, d: nat, top: nat)
    requires Begins(l, s) && Change(s, c) && Change(s, d) && c < d <= c + top + 1
    ensures After(l, s, d, top).output == After(l, s, c - 1, top).output
  {
    forall t | c - 1 < t <= d ensures !Settled(s, t, top) {
      assert s[d - 1] != s[d] && s[c - 1] != s[c];
    }
    UnstableInputIsIgnored(l, s, c, c - 1, d, top);
  }

  // The entity: any number of lanes, any counter width

  function Pow2(n: nat): (r: nat)
    ensures r > 0
  {
    if n == 0 then 1 else 2 * Pow2(n - 1)
  }

  /** The counters of the filter have 18 bits, enough for 200000 cycles of 50 ns. */
  lemma EighteenBits()
    ensures Pow2(18) == 0x4_0000 > 200_000
  {
    assert Pow2(6) == 0x40;
    assert Pow2(12) == 0x1000;
  }

  /** Each further bit doubles the count, so that this is the power of 2. */
  lemma {:induction false} Pow2Sum(m: nat, n: nat)
    ensures Pow2(1) == 2 && Pow2(m + n) == Pow2(m) * Pow2(n)
  {
    if n > 0 {
      Pow2Sum(m, n - 1);
      assert Pow2(m + n) == 2 * Pow2(m + n - 1);
      assert Pow2(m) * Pow2(n) == 2 * (Pow2(m) * Pow2(n - 1));
    }
  }

  class BounceFilter {
    const top: nat
    const rInput: array<bool>
    const rCounters: array<nat>
    const output: array<bool>

    ghost predicate Valid()
      reads this, rCounters
    {
      && rInput.Length == rCounters.Length == output.Length && rInput != output
      && forall i | 0 <= i < rCounters.Length :: rCounters[i] <= top
    }

    ghost function LaneAt(i: nat): Lane
      requires Valid() && i < rInput.Length
      reads this, rInput, rCounters, output
    {
      Lane(rInput[i], rCounters[i], output[i])
    }

    /** Powers up in any state. */
    constructor (lanes: nat, width: nat, inputs: seq<bool>, counters: seq<nat>, outputs: seq<bool>)
      requires |inputs| == |counters| == |outputs| == lanes
      requires forall i | 0 <= i < lanes :: counters[i] < Pow2(width)
      ensures Valid() && top == Pow2(width) - 1 && rInput.Length == lanes
      ensures width == 18 ==> top == 0x3_FFFF
      ensures fresh(rInput) && fresh(rCounters) && fresh(output)
      ensures forall i | 0 <= i < lanes :: LaneAt(i) == Lane(inputs[i], counters[i], outputs[i])
    {
      EighteenBits();
      top := Pow2(width) - 1;
      var a := new bool[lanes](i requires 0 <= i < lanes => inputs[i]);
      var b := new nat[lanes](i requires 0 <= i < lanes => counters[i]);
      var c := new bool[lanes](i requires 0 <= i < lanes => outputs[i]);
      rInput, rCounters, output := a, b, c;
    }

    /** The processes of one rising edge: each lane steps on its own input. */
    method RisingEdge(input: seq<bool>)
      requires Valid() && |input| == rInput.Length
      modifies rInput, rCounters, output
      ensures Valid()
      ensures forall i | 0 <= i < rInput.Length :: LaneAt(i) == Edge(old(LaneAt(i)), input[i], top)
    {
      for i := 0 to rInput.Length
        invariant Valid()
        invariant forall j | 0 <= j < i :: LaneAt(j) == Edge(old(LaneAt(j)), input[j], top)
        invariant forall j | i <= j < rInput.Length :: LaneAt(j) == old(LaneAt(j))
      {
        if rInput[i] != input[i] {
          rCounters[i] := top;
        } else if rCounters[i] != 0 {
          rCounters[i] := rCounters[i] - 1;
        } else {
          output[i] := rInput[i];
        }
        rInput[i] := input[i];
      }
    }

    /** Any number of edges: each lane ends where its own samples take it, whatever the others do. */
    method Clock(inputs: seq<seq<bool>>)
      requires Valid() && forall t | 0 <= t < |inputs| :: |inputs[t]| == rInput.Length
      modifies rInput, rCounters, output
      ensures Valid()
      ensures forall i | 0 <= i < rInput.Length ::
          LaneAt(i) == After(old(LaneAt(i)), Samples(old(rInput[i]), inputs, i), |inputs|, top)
    {
      for t := 0 to |inputs|
        invariant Valid()
        invariant forall i | 0 <= i < rInput.Length ::
            LaneAt(i) == After(old(LaneAt(i)), Samples(old(rInput[i]), inputs, i), t, top)
      {
        RisingEdge(inputs[t]);
      }
    }
  }

  /** The samples of one lane, after what its register holds at first. */
  function Samples(first: bool, inputs: seq<seq<bool>>, i: nat): seq<bool>
    requires forall t | 0 <= t < |inputs| :: i < |inputs[t]|
  {
    [first] + seq(|inputs|, t requires 0 <= t < |inputs| => inputs[t][i])
  }
}
