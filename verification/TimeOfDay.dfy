/** Time of day: settimeofday() calibrates it against the tick counter, gettimeofday() reads it. */
module TimeOfDay {

  const US := 1_000_000
  const WORD := 0x1_0000_0000
  const ENOTSUP := 134

  /** Conversion to a signed 32-bit integer. */
  function S32(x: int): (y: int)
    ensures -0x8000_0000 <= y < 0x8000_0000
    ensures -0x8000_0000 <= x < 0x8000_0000 ==> y == x
  {
    (x + 0x8000_0000) % WORD - 0x8000_0000
  }

  datatype Time = Time(sec: int, usec: int)

  datatype Zone = Zone(minuteswest: int, dsttime: int)

  function Micros(t: Time): int { t.sec * US + t.usec }

  ghost predicate Normal(t: Time) { 0 <= t.usec < US }

  function TimeOf(micros: int): Time { Time(micros / US, micros % US) }

  /** The borrow is cut short at (0, 0) if there are too few seconds. */
  predicate Cut(t: Time) { t.usec < 0 && Micros(t) < 0 }

  /** The time of that many microseconds, its seconds a 32-bit integer. */
  function Normalised(t: Time): Time {
    if Cut(t) then Time(0, 0) else Time(S32(Micros(t) / US), Micros(t) % US)
  }

  lemma NormalisedOfNormal(t: Time)
    requires Normal(t) && -0x8000_0000 <= t.sec < 0x8000_0000
    ensures Normalised(t) == t
  {
  }

  lemma Carry(sec: int, usec: int)
    requires usec >= US
    ensures Normalised(Time(S32(sec + 1), usec - US)) == Normalised(Time(sec, usec))
  {
    var rest := usec - US;
    assert (sec * US + usec) / US == sec + 1 + rest / US && (sec * US + usec) % US == rest % US;
    assert (S32(sec + 1) * US + rest) / US == S32(sec + 1) + rest / US;
    assert (S32(sec + 1) * US + rest) % US == rest % US;
    BackAndForth(sec + 1, rest / US);
  }

  /** Microseconds in `n` ticks, in the 64-bit arithmetic of gettimeofday() and the 32-bit arithmetic
      of settimeofday(). */
  function Fraction(n: nat, rate: nat): nat
    requires rate > 0
  {
    n * (US / rate) % US
  }

  function Fraction32(n: nat, rate: nat): nat
    requires rate > 0
  {
    n * (US / rate) % WORD % US
  }

  class Clock {
    var reset: Time
    var zone: Zone
    var nticks: nat        // the tick counter has 32 bits
    var tickRate: nat
    ghost var now: nat     // the ticks since reset

    ghost predicate Valid()
      reads this
    {
      nticks == now % WORD && -0x8000_0000 <= reset.sec < 0x8000_0000 && -0x8000_0000 <= reset.usec < 0x8000_0000
    }

    constructor (tickRate: nat)
      ensures Valid() && reset == Time(0, 0) && zone == Zone(0, 0) && now == 0 && this.tickRate == tickRate
    {
      reset, zone, nticks, this.tickRate, now := Time(0, 0), Zone(0, 0), 0, tickRate, 0;
    }

    method Tick()
      requires Valid()
      modifies this`nticks, this`now
      ensures Valid() && now == old(now) + 1
    {
      nticks := (nticks + 1) % WORD;
      now := now + 1;
    }

    /** ALT_SETTIMEOFDAY */
    method SetTimeOfDay(t: Time, tz: Zone) returns (r: int)
      requires Valid()
      modifies this`reset, this`zone
      ensures Valid()
      ensures if tickRate == 0 then r == -1 && reset == old(reset) && zone == old(zone)
              else r == 0 && reset == ResetFor(t, now % WORD, tickRate) && zone == tz
    {
      if tickRate != 0 {
        reset := Time(S32(t.sec - nticks / tickRate), S32(t.usec - nticks * (US / tickRate) % WORD % US));
        zone := tz;
        return 0;
      }
      return -1;
    }

    /** ALT_GETTIMEOFDAY */
    method GetTimeOfDay() returns (r: int, t: Time, tz: Zone)
      requires Valid()
      ensures if tickRate == 0 then r == -ENOTSUP
              else r == 0 && t == Reading(reset, now % WORD, tickRate) && tz == zone
    {
      t, tz := Time(0, 0), zone;
      if tickRate != 0 {
        var sec := S32(reset.sec + nticks / tickRate);
        var usec := S32(reset.usec + nticks * (US / tickRate) % US);
        ghost var raw := Time(sec, usec);
        while usec < 0
          invariant -0x8000_0000 <= sec < 0x8000_0000 && Normalised(Time(sec, usec)) == Normalised(raw)
        {
          if sec <= 0 {
            sec := 0;
            usec := 0;
            break;
          } else {
            sec := sec - 1;
            usec := usec + US;
          }
        }
        while usec >= US
          invariant -0x8000_0000 <= sec < 0x8000_0000 && usec >= 0
          invariant Normalised(Time(sec, usec)) == Normalised(raw)
        {
          Carry(sec, usec);
          sec := S32(sec + 1);
          usec := usec - US;
        }
        NormalisedOfNormal(Time(sec, usec));
        return 0, Time(sec, usec), zone;
      }
      return -ENOTSUP, t, tz;
    }
  }

  /** What settimeofday(t) at tick `n` keeps. */
  function ResetFor(t: Time, n: nat, rate: nat): Time
    requires rate > 0
  {
    Time(S32(t.sec - n / rate), S32(t.usec - Fraction32(n, rate)))
  }

  /** What gettimeofday() makes of it at tick `n`. */
  function Reading(reset: Time, n: nat, rate: nat): Time
    requires rate > 0
  {
    Normalised(Time(S32(reset.sec + n / rate), S32(reset.usec + Fraction(n, rate))))
  }

  // Reading back at once

  /** The 32-bit product agrees with the 64-bit one, up to whole seconds, if and only if the high word
      of the product is a multiple of 15625. */
  lemma FractionsAgreeIff(n: nat, rate: nat)
    requires rate > 0
    ensures Fraction32(n, rate) == Fraction(n, rate) <==> n * (US / rate) / WORD % 15625 == 0
  {
    var p := n * (US / rate);
    HighWord(p / WORD, p % WORD);
    assert p == p / WORD * WORD + p % WORD;
  }

  /** 2^32 is 64 times 2^26, and 10^6 is 64 times 15625. */
  lemma HighWord(k: nat, low: nat)
    ensures (k * WORD + low) % US == low % US <==> k % 15625 == 0
  {
    SameRemainder(k * WORD + low, low);
    Scaled(k * 0x400_0000);
    Coprime(k);
  }

  lemma Scaled(q: nat)
    ensures 64 * q % US == 0 <==> q % 15625 == 0
  {
    if 64 * q % US == 0 {
      assert 64 * q == 64 * (15625 * (64 * q / US));
    }
    if q % 15625 == 0 {
      assert 64 * q == US * (q / 15625);
    }
  }

  lemma SameRemainder(a: nat, b: nat)
    requires a >= b
    ensures a % US == b % US <==> (a - b) % US == 0
  {
  }

  /** 2^26 has an inverse modulo 15625. */
  lemma Coprime(k: nat)
    ensures k * 0x400_0000 % 15625 == 0 <==> k % 15625 == 0
  {
    if k * 0x400_0000 % 15625 == 0 {
      var m := k * 0x400_0000 / 15625;
      assert 0x400_0000 * 12659 == 1 + 15625 * 54369991;
      assert k == 15625 * (m * 12659 - k * 54369991);
    }
  }

  /** The 32-bit conversions on the way, taken together. */
  lemma ReadingIs(t: Time, n0: nat, n: nat, rate: nat, q0: nat, q: nat, a: nat, b: nat)
    requires rate > 0 && q0 == n0 / rate && q == n / rate && a == Fraction32(n0, rate) && b == Fraction(n, rate)
    requires Normal(t)
    ensures Reading(ResetFor(t, n0, rate), n, rate) == Normalised(Time(S32(t.sec - q0 + q), t.usec - a + b))
  {
    BackAndForth(t.sec - q0, q);
    FractionBelow(n0, n, rate);
    BackAndForth(t.usec - a, b);
  }

  lemma FractionBelow(n0: nat, n: nat, rate: nat)
    requires rate > 0
    ensures Fraction32(n0, rate) < US && Fraction(n, rate) < US
  {
  }

  lemma BackAndForth(x: int, q: int)
    ensures S32(S32(x) + q) == S32(x + q)
  {
  }

  /** Reading the time in the tick in which it was set gives back that time if and only if the 32-bit
      product is harmless, or the time set was 0 and the reading is cut off there. */
  lemma ReadBackIff(t: Time, n: nat, rate: nat)
    requires rate > 0 && Normal(t) && -0x8000_0000 <= t.sec < 0x8000_0000
    ensures Reading(ResetFor(t, n, rate), n, rate) == t <==>
      n * (US / rate) / WORD % 15625 == 0 || (t == Time(0, 0) && Fraction(n, rate) < Fraction32(n, rate))
  {
    var a: int, b: int := Fraction32(n, rate), Fraction(n, rate);
    FractionsAgreeIff(n, rate);
    FractionBelow(n, n, rate);
    ReadingIs(t, n, n, rate, n / rate, n / rate, a, b);
    ShiftedBy(t, b - a);
  }

  lemma ShiftedBy(t: Time, d: int)
    requires Normal(t) && -0x8000_0000 <= t.sec < 0x8000_0000 && -US < d < US
    ensures Normalised(Time(t.sec, t.usec + d)) == t <==> d == 0 || (t == Time(0, 0) && d < 0)
  {
    var u := Time(t.sec, t.usec + d);
    assert Micros(u) == Micros(t) + d;
    NormalisedOfNormal(t);
    if d != 0 {
      assert (t.usec + d) % US != t.usec;
      assert Micros(u) % US == (t.usec + d) % US;
    }
  }

  /** At 1000 ticks a second the product first overflows after 4294967 ticks, and the time comes out
      wrong by the 967296 microseconds that 2^32 is over a whole number of seconds. */
  lemma ReadBackFails()
    ensures Reading(ResetFor(Time(100, 0), 4_294_968, 1000), 4_294_968, 1000) == Time(100, 967_296)
  {
    assert Fraction32(4_294_968, 1000) == 704 && Fraction(4_294_968, 1000) == 968_000;
  }

  // Time that passes

  /** What `n` ticks add to a reading, in microseconds. */
  function Elapsed(n: nat, rate: nat): nat
    requires rate > 0
  {
    n / rate * US + Fraction(n, rate)
  }

  lemma ElapsedExact(n: nat, rate: nat)
    requires rate > 0 && US % rate == 0
    ensures Elapsed(n, rate) == n * (US / rate)
  {
    var p, q, r := US / rate, n / rate, n % rate;
    assert rate * p == US && n == q * rate + r;
    assert n * p == q * US + r * p by {
      assert n * p == q * (rate * p) + r * p;
    }
    assert r * p < US by {
      assert r * p <= (rate - 1) * p;
    }
    QuotientOf(n * p, q, r * p);
  }

  lemma QuotientOf(x: nat, q: nat, r: nat)
    requires x == q * US + r && r < US
    ensures x % US == r
  {
  }

  /** Each tick adds the same number of microseconds if and only if the rate divides a million;
      otherwise it is wrong when the first second is full. */
  lemma SteadyIff(rate: nat)
    requires 0 < rate < WORD
    ensures (forall n: nat | n < WORD :: Elapsed(n, rate) == n * (US / rate)) <==> US % rate == 0
  {
    if US % rate == 0 {
      forall n: nat | n < WORD ensures Elapsed(n, rate) == n * (US / rate) {
        ElapsedExact(n, rate);
      }
    } else {
      FirstSecond(rate);
    }
  }

  lemma FirstSecond(rate: nat)
    requires 0 < rate && US % rate != 0
    ensures Elapsed(rate, rate) == US + rate * (US / rate)
  {
    var p := US / rate;
    assert US == rate * p + US % rate;
    QuotientOf(rate * p, 0, rate * p);
    ByItself(rate);
  }

  lemma ByItself(x: nat)
    requires x > 0
    ensures x / x == 1
  {
  }

  // Later readings.  The clock shows ticks modulo 2^32.

  /** When a time set in tick `n0` and read in tick `n`, counted without wrapping, is exact: the 32-bit
      product was harmless, and the counter has not wrapped in between.  At one tick a second it may
      wrap, because then the seconds wrap with it.  The second that is computed before microseconds are
      borrowed from it has to fit as well.  A time of 0 is right too if the reading is cut off there. */
  ghost predicate StaysExact(t: Time, n0: nat, n: nat, rate: nat)
    requires rate > 0
  {
    var m0, m := n0 % WORD, n % WORD;
    || (m0 * (US / rate) / WORD % 15625 == 0
        && (rate == 1 || (n / WORD == n0 / WORD && t.sec - m0 / rate + m / rate < 0x8000_0000)))
    || (t == Time(0, 0) && n == n0 && Fraction(m0, rate) < Fraction32(m0, rate))
  }

  /** With a rate that divides a million, and as long as the right time fits its 32 bits, a reading is
      exactly the ticks in between later than the time that was set if and only if that holds. */
  lemma LaterReadingIff(t: Time, n0: nat, n: nat, rate: nat)
    requires rate > 0 && US % rate == 0 && n0 <= n && Normal(t) && 0 <= t.sec
    requires (Micros(t) + (n - n0) * (US / rate)) / US < 0x8000_0000
    ensures Reading(ResetFor(t, n0 % WORD, rate), n % WORD, rate) == TimeOf(Micros(t) + (n - n0) * (US / rate))
       <==> StaysExact(t, n0, n, rate)
  {
    var sums := SumsOf(n0, n, rate);
    ReadingShown(t, n0, n, rate);
    SameCondition(t, n0, n, rate);
    TicksAdd(n0, n, rate);
    RightIff(t, sums);
  }

  /** The microseconds in between, how often the counter wraps, the microseconds in a tick and the ticks
      in a second; the seconds that the counter shows when the time is set and when it is read; the
      microseconds when it is set, as taken and as they are, and when it is read. */
  datatype Sums = Sums(d: int, k: int, p: nat, rate: nat, q0: nat, q: nat, a: nat, a': nat, b: nat)

  function Quotient(n: nat, d: nat): nat
    requires d > 0
  {
    n / d
  }

  ghost function SumsOf(n0: nat, n: nat, rate: nat): Sums
    requires rate > 0 && n0 <= n
  {
    var m0, m := n0 % WORD, n % WORD;
    Sums((n - n0) * (US / rate), n / WORD - n0 / WORD, Quotient(US, rate), rate,
         Quotient(m0, rate), Quotient(m, rate), Fraction32(m0, rate), Fraction(m0, rate), Fraction(m, rate))
  }

  /** The time before it is normalised. */
  ghost function Shown(t: Time, s: Sums): Time { Time(S32(t.sec - s.q0 + s.q), t.usec - s.a + s.b) }

  ghost predicate Holds(t: Time, s: Sums) {
    || (s.a == s.a' && (s.rate == 1 || (s.k == 0 && t.sec - s.q0 + s.q < 0x8000_0000)))
    || (Micros(t) + s.d == 0 && s.a' < s.a)
  }

  /** What the ticks in between add up to. */
  ghost predicate Adds(s: Sums) {
    && s.a < US && s.a' < US && s.b < US && (s.rate == 1 ==> s.a' == s.b == 0) && s.rate * s.p == US
    && 0 <= s.k && 0 <= s.d == s.k * s.p * WORD + (s.q * US + s.b) - (s.q0 * US + s.a')
    && (s.k > 0 ==> s.d > (s.k - 1) * s.p * WORD) && (s.k == 0 ==> s.q0 <= s.q)
    && (s.d == 0 ==> s.k == 0 && s.q0 == s.q && s.a' == s.b)
  }

  lemma ReadingShown(t: Time, n0: nat, n: nat, rate: nat)
    requires rate > 0 && n0 <= n && Normal(t)
    ensures Reading(ResetFor(t, n0 % WORD, rate), n % WORD, rate) == Normalised(Shown(t, SumsOf(n0, n, rate)))
  {
    var m0, m := n0 % WORD, n % WORD;
    ReadingIs(t, m0, m, rate, m0 / rate, m / rate, Fraction32(m0, rate), Fraction(m, rate));
  }

  lemma SameCondition(t: Time, n0: nat, n: nat, rate: nat)
    requires rate > 0 && n0 <= n && Normal(t) && 0 <= t.sec && US % rate == 0
    ensures StaysExact(t, n0, n, rate) <==> Holds(t, SumsOf(n0, n, rate))
  {
    FractionsAgreeIff(n0 % WORD, rate);
    ZeroGap(n - n0, US / rate);
  }

  lemma ZeroGap(d: nat, p: nat)
    requires p > 0
    ensures 0 <= d * p && (d * p == 0 <==> d == 0)
  {
  }

  lemma TicksAdd(n0: nat, n: nat, rate: nat)
    requires rate > 0 && US % rate == 0 && n0 <= n
    ensures Adds(SumsOf(n0, n, rate))
  {
    var m0, m, k, p := n0 % WORD, n % WORD, n / WORD - n0 / WORD, US / rate;
    FractionBelow(m0, m, rate);
    FractionBelow(m0, m0, rate);
    FractionOfSeconds(m0);
    FractionOfSeconds(m);
    Balance(n0, n, rate, m0, m, k, p);
    if m0 <= m {
      QuotientsInOrder(m0, m, rate);
    }
    InOneRound(n - n0, k, p, m0, m);
  }

  lemma Balance(n0: nat, n: nat, rate: nat, m0: nat, m: nat, k: int, p: nat)
    requires rate > 0 && US % rate == 0 && n0 <= n && p == US / rate
    requires m0 == n0 % WORD && m == n % WORD && k == n / WORD - n0 / WORD
    ensures rate * p == US && p > 0 && k >= 0 && n - n0 == k * WORD + m - m0
    ensures (n - n0) * p == k * p * WORD + (m / rate * US + Fraction(m, rate)) - (m0 / rate * US + Fraction(m0, rate))
  {
    ElapsedExact(m0, rate);
    ElapsedExact(m, rate);
    Epochs(n0, n, m0, m, k, p);
  }

  lemma InOneRound(d: nat, k: nat, p: nat, m0: nat, m: nat)
    requires p > 0 && m0 < WORD && d == k * WORD + m - m0
    ensures d * p >= 0 && (k > 0 ==> d * p > (k - 1) * p * WORD) && (d * p == 0 <==> d == 0)
    ensures d == 0 ==> k == 0 && m == m0
  {
    assert d * p == (d - (k - 1) * WORD) * p + (k - 1) * p * WORD;
    if d == 0 {
      assert k * WORD <= m0;
    }
  }

  /** Counts that wrap: `k` is how often the counter does. */
  lemma Epochs(n0: nat, n: nat, m0: nat, m: nat, k: int, p: nat)
    requires n0 <= n && m0 == n0 % WORD && m == n % WORD && k == n / WORD - n0 / WORD
    ensures k >= 0 && n - n0 == k * WORD + m - m0 && (n - n0) * p == k * p * WORD + m * p - m0 * p
  {
    assert (k * WORD + m - m0) * p == k * p * WORD + m * p - m0 * p;
  }

  lemma FractionOfSeconds(m: nat)
    ensures Fraction(m, 1) == 0
  {
  }

  lemma QuotientsInOrder(m0: nat, m: nat, rate: nat)
    requires rate > 0 && m0 <= m
    ensures m0 / rate <= m / rate
  {
    var q0, q := m0 / rate, m / rate;
    assert q0 * rate <= m0 && m < (q + 1) * rate;
    Cancel(q0, q + 1, rate);
  }

  lemma Cancel(x: nat, y: nat, z: nat)
    requires x * z < y * z
    ensures x < y
  {
  }

  lemma RightIff(t: Time, s: Sums)
    requires Normal(t) && 0 <= t.sec && (Micros(t) + s.d) / US < 0x8000_0000 && Adds(s)
    ensures Normalised(Shown(t, s)) == TimeOf(Micros(t) + s.d) <==> Holds(t, s)
  {
    if Holds(t, s) {
      IfHolds(t, s);
    }
    if Normalised(Shown(t, s)) == TimeOf(Micros(t) + s.d) {
      OnlyIfHolds(t, s);
    }
  }

  lemma IfHolds(t: Time, s: Sums)
    requires Normal(t) && 0 <= t.sec && (Micros(t) + s.d) / US < 0x8000_0000 && Adds(s) && Holds(t, s)
    ensures Normalised(Shown(t, s)) == TimeOf(Micros(t) + s.d)
  {
    if s.a == s.a' && s.k == 0 && t.sec - s.q0 + s.q < 0x8000_0000 {
      assert Micros(Shown(t, s)) == Micros(t) + s.d;
    } else if s.a == s.a' && s.rate == 1 {
      OneTickASecond(t, s);
    } else {
      assert t == Time(0, 0);
    }
  }

  lemma OneTickASecond(t: Time, s: Sums)
    requires Normal(t) && 0 <= t.sec && (Micros(t) + s.d) / US < 0x8000_0000 && Adds(s) && s.rate == 1 && s.a == s.a'
    ensures Normalised(Shown(t, s)) == TimeOf(Micros(t) + s.d)
  {
    var x := t.sec - s.q0 + s.q;
    assert s.p == US && Micros(t) + s.d == (x + s.k * WORD) * US + t.usec;
    BackAndForth(x, s.k * WORD);
  }

  lemma OnlyIfHolds(t: Time, s: Sums)
    requires Normal(t) && 0 <= t.sec && (Micros(t) + s.d) / US < 0x8000_0000 && Adds(s)
    requires Normalised(Shown(t, s)) == TimeOf(Micros(t) + s.d)
    ensures Holds(t, s)
  {
    var x, v, e := t.sec - s.q0 + s.q, t.usec - s.a + s.b, Micros(t) + s.d;
    if Cut(Shown(t, s)) {
      assert e == 0 && t == Time(0, 0);
    } else {
      var j := Congruent(x, v, e);
      var y := j * US + s.k * s.p;
      assert s.a' - s.a == y * WORD;
      assert y == 0;
      if s.k == 0 {
        SecondFits(x, v, e);
      } else {
        RoundTooLong(s.k, -j, s.p, s.rate, e);
      }
    }
  }

  /** Without a cut, a reading is right up to multiples of 2^32 seconds. */
  lemma Congruent(x: int, v: int, e: int) returns (j: int)
    requires !Cut(Time(S32(x), v)) && Normalised(Time(S32(x), v)) == TimeOf(e)
    ensures x * US + v == e + j * US * WORD
  {
    var i := (x + 0x8000_0000) / WORD;
    assert S32(x) == x - i * WORD;
    var y := (S32(x) * US + v) / US;
    var i' := (y + 0x8000_0000) / WORD;
    assert S32(y) == y - i' * WORD == e / US;
    assert S32(x) * US + v == y * US + e % US;
    j := i + i';
  }

  lemma SecondFits(x: int, v: int, e: int)
    requires x >= 0 && x * US + v == e && 0 <= e && e / US < 0x8000_0000 && v > -US && !Cut(Time(S32(x), v))
    ensures x < 0x8000_0000
  {
    assert x <= 0x8000_0000;
    assert S32(0x8000_0000) == -0x8000_0000;
  }

  /** The counter wraps a whole number of times in 2^32 seconds, which is too long. */
  lemma RoundTooLong(k: int, j: int, p: nat, rate: nat, e: int)
    requires k > 0 && rate * p == US && k * p == j * US && e > (k - 1) * p * WORD && e / US < 0x8000_0000
    ensures rate == 1
  {
    assert (k - j * rate) * p == 0;
    assert k == j * rate;
    assert j >= 1;
    ManyRounds(k, j, p, rate);
  }

  lemma ManyRounds(k: int, j: int, p: nat, rate: nat)
    requires k == j * rate && j >= 1 && rate * p == US
    ensures rate >= 2 ==> (k - 1) * p * WORD >= US * 0x8000_0000
  {
    assert k >= rate;
    assert (k - 1) * p >= (rate - 1) * p;
    assert rate >= 2 ==> 2 * ((rate - 1) * p) >= rate * p;
  }

  /** A day later, at a thousand ticks a second, all is well; after 2^32 ticks, which take less than
      fifty days, the clock is back at the time that was set. */
  lemma LaterReadingFails(t: Time)
    requires Normal(t) && 0 <= t.sec < 0x7000_0000
    ensures Reading(ResetFor(t, 0, 1000), 86_400_000, 1000) == Time(t.sec + 86_400, t.usec)
    ensures Reading(ResetFor(t, 0, 1000), WORD % WORD, 1000) == t
  {
    ReadingIs(t, 0, 86_400_000, 1000, 0, 86_400, 0, 0);
    ReadingIs(t, 0, 0, 1000, 0, 0, 0, 0);
    NormalisedOfNormal(t);
    NormalisedOfNormal(Time(t.sec + 86_400, t.usec));
  }
}
