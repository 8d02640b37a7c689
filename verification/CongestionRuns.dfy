/** What the window control keeps over every run with a clock that does not go back. */
module CongestionRuns {
  import opened Basics
  import opened CongestionModel

  datatype Event =
    | RttEvent(packet: nat, diff: nat, now: nat)
    | WindowEvent(outstanding: nat, diff: nat, now: nat)
    | LossEvent(now: nat)

  /** The state and all delay samples ever taken. */
  datatype Trace = Trace(c: Control, samples: seq<Sample>)

  function Step(t: Trace, e: Event): Trace {
    match e
    case RttEvent(packet, diff, now) =>
      Trace(UpdateRtt(t.c, packet, diff, now), if packet == 0 then t.samples else t.samples + [(now, diff)])
    case WindowEvent(outstanding, diff, now) =>
      Trace(UpdateWindow(t.c, outstanding, diff, now), t.samples + [(now, diff)])
    case LossEvent(now) => Trace(PacketLoss(t.c, now), t.samples)
  }

  function Run(start: nat, es: seq<Event>, k: nat): Trace
    requires k <= |es|
  {
    if k == 0 then Trace(Fresh(start), []) else Step(Run(start, es, k - 1), es[k - 1])
  }

  // ---- the history of delays ------------------------------------------------------------

  /** The samples of the last two minutes. */
  function Within(samples: seq<Sample>, now: nat): seq<Sample> {
    if samples == [] then [] else
      (if now - samples[0].0 <= 120_000_000 then [samples[0]] else []) + Within(samples[1..], now)
  }

  ghost predicate InOrder(samples: seq<Sample>) {
    forall i, j :: 0 <= i < j < |samples| ==> samples[i].0 <= samples[j].0
  }

  lemma {:induction false} NoneOld(samples: seq<Sample>, now: nat)
    requires forall i :: 0 <= i < |samples| ==> !Old(samples[i], now)
    ensures Within(samples, now) == samples
  {
    if samples != [] {
      NoneOld(samples[1..], now);
    }
  }

  /** With times in order, stopping at the first recent sample drops exactly the
      old ones. */
  lemma {:induction false} RecentIsWithin(samples: seq<Sample>, now: nat)
    requires InOrder(samples)
    ensures Recent(samples, now) == Within(samples, now)
  {
    if samples != [] {
      if Old(samples[0], now) {
        RecentIsWithin(samples[1..], now);
      } else {
        NoneOld(samples, now);
      }
    }
  }

  /** What was dropped earlier would be dropped now. */
  lemma {:induction false} RecentTwice(samples: seq<Sample>, x: Sample, before: nat, now: nat)
    requires before <= now
    ensures Recent(Recent(samples, before) + [x], now) == Recent(samples + [x], now)
  {
    if samples != [] && Old(samples[0], before) {
      RecentTwice(samples[1..], x, before, now);
      assert (samples + [x])[1..] == samples[1..] + [x];
    }
  }

  lemma {:induction false} LeastIsLeast(h: seq<Sample>)
    requires forall e :: e in h ==> e.1 <= U32_MAX
    ensures forall e :: e in h ==> Least(h) <= e.1
    ensures h != [] ==> exists e :: e in h && e.1 == Least(h)
    ensures h == [] ==> Least(h) == U32_MAX
  {
    if h != [] {
      LeastIsLeast(h[1..]);
      assert h[0] in h;
      if h[1..] != [] {
        var e :| e in h[1..] && e.1 == Least(h[1..]);
        assert e in h;
      }
    }
  }

  lemma {:induction false} LastIsRecent(h: seq<Sample>, x: Sample)
    ensures x in Recent(h + [x], x.0)
  {
    if h == [] {
      assert h + [x] == [x];
    } else if Old(h[0], x.0) {
      assert (h + [x])[1..] == h[1..] + [x];
      LastIsRecent(h[1..], x);
    }
  }

  // ---- the window ----------------------------------------------------------------------------

  lemma {:induction false} NonNegativeProduct(a: real, b: real)
    requires a >= 0.0 && b >= 0.0
    ensures a * b >= 0.0
  {
  }

  lemma {:induction false} ProductAtMostOne(x: real, y: real)
    requires x <= 1.0 && 0.0 <= y <= 1.0
    ensures x * y <= 1.0
  {
    NonNegativeProduct(1.0 - x, y);
    assert (1.0 - x) * y == y - x * y;
  }

  lemma {:induction false} PositiveProductIff(a: real, b: real)
    requires b >= 0.0
    ensures a * b > 0.0 <==> a > 0.0 && b > 0.0
  {
    if a > 0.0 && b > 0.0 {
      assert a * b > 0.0;
    } else if a <= 0.0 {
      NonNegativeProduct(-a, b);
      assert (-a) * b == -(a * b);
    }
  }

  /** The window is pushed up exactly while something is in flight and the delay
      is below the target. */
  lemma {:induction false} GainIsPositiveIff(window: nat, outstanding: nat, delay: int)
    ensures Gain(window, outstanding, delay) > 0.0 <==> outstanding > 0 && delay < 100_000
  {
    var delayFactor := (TARGET - delay as real) / TARGET;
    var windowFactor := outstanding as real / MaxReal(window as real, 1.0);
    assert delayFactor > 0.0 <==> delay < 100_000;
    assert windowFactor >= 0.0 && (windowFactor > 0.0 <==> outstanding > 0);
    PositiveProductIff(delayFactor, windowFactor);
    assert 3000.0 * delayFactor * windowFactor == 3000.0 * (delayFactor * windowFactor);
  }

  lemma {:induction false} GainIsBounded(window: nat, outstanding: nat, delay: int)
    requires delay >= 0 && outstanding <= window && window >= MIN_WINDOW
    ensures Gain(window, outstanding, delay) <= 3000.0
  {
    var delayFactor := (TARGET - delay as real) / TARGET;
    var windowFactor := outstanding as real / MaxReal(window as real, 1.0);
    assert delayFactor <= 1.0;
    assert 0.0 <= windowFactor <= 1.0;
    ProductAtMostOne(delayFactor, windowFactor);
    assert 3000.0 * delayFactor * windowFactor == 3000.0 * (delayFactor * windowFactor);
  }

  lemma {:induction false} NewWindowIsBounded(window: nat, outstanding: nat, delay: int)
    requires delay >= 0 && outstanding <= window && window >= MIN_WINDOW
    ensures MIN_WINDOW <= NewWindow(window, outstanding, delay) <= window + MAX_INCREASE
  {
    GainIsBounded(window, outstanding, delay);
  }

  lemma {:induction false} LossIsBounded(c: Control, now: nat)
    requires c.window >= MIN_WINDOW
    ensures MIN_WINDOW <= PacketLoss(c, now).window <= c.window
  {
  }

  // ---- whole runs ------------------------------------------------------------------------------

  /** The clock does not go back, delays fit 32 bits, and no more is in flight than
      the window allows. */
  ghost predicate Sensible(start: nat, es: seq<Event>, k: nat)
    requires k <= |es|
  {
    k == 0 ||
    (Sensible(start, es, k - 1) &&
     (k > 1 ==> es[k - 2].now <= es[k - 1].now) &&
     (k == 1 ==> start <= es[0].now) &&
     (!es[k - 1].LossEvent? ==> es[k - 1].diff <= U32_MAX) &&
     (es[k - 1].WindowEvent? ==> es[k - 1].outstanding <= Run(start, es, k - 1).c.window))
  }

  function Now(start: nat, es: seq<Event>, k: nat): nat
    requires k <= |es|
  {
    if k == 0 then start else es[k - 1].now
  }

  /** The history holds the samples that were recent when the last one was taken,
      and the base delay is their minimum. */
  ghost predicate Tracked(t: Trace, now: nat) {
    && InOrder(t.samples)
    && (forall e :: e in t.samples ==> e.0 <= now && e.1 <= U32_MAX)
    && (t.samples == [] ==> t.c.history == [])
    && (t.samples != [] ==> t.c.history == Recent(t.samples, t.samples[|t.samples| - 1].0))
    && t.c.baseDelay == Least(t.c.history)
  }

  lemma {:induction false} MeasureTracks(t: Trace, before: nat, diff: nat, now: nat)
    requires Tracked(t, before) && before <= now && diff <= U32_MAX
    ensures Tracked(Trace(Measure(t.c, diff, now), t.samples + [(now, diff)]), now)
    ensures diff >= Measure(t.c, diff, now).baseDelay
  {
    hide Recent;
    var x, h := (now, diff), t.c.history;
    if t.samples != [] {
      assert t.samples[|t.samples| - 1] in t.samples;
      RecentTwice(t.samples, x, t.samples[|t.samples| - 1].0, now);
    }
    assert Recent(h + [x], now) == Recent(t.samples + [x], now);
    forall i | 0 <= i < |t.samples| ensures t.samples[i].0 <= now {
      assert t.samples[i] in t.samples;
    }
    RecentAreSamples(t.samples + [x], now);
    LeastIsLeast(Recent(h + [x], now));
    LastIsRecent(h, x);
  }

  lemma {:induction false} RecentAreSamples(h: seq<Sample>, now: nat)
    ensures forall e :: e in Recent(h, now) ==> e in h
  {
    if h != [] && Old(h[0], now) {
      RecentAreSamples(h[1..], now);
    }
  }

  lemma {:induction false} SameTracking(t: Trace, c: Control, now: nat)
    requires Tracked(t, now) && c.history == t.c.history && c.baseDelay == t.c.baseDelay
    ensures Tracked(t.(c := c), now)
  {
  }

  lemma {:induction false} LaterTracks(t: Trace, before: nat, now: nat)
    requires Tracked(t, before) && before <= now
    ensures Tracked(t, now)
  {
  }

  lemma {:induction false} StepTracks(t: Trace, before: nat, e: Event)
    requires Tracked(t, before) && before <= e.now && (!e.LossEvent? ==> e.diff <= U32_MAX)
    ensures Tracked(Step(t, e), e.now)
  {
    LaterTracks(t, before, e.now);
    if e.LossEvent? || (e.RttEvent? && e.packet == 0) {
      SameTracking(t, Step(t, e).c, e.now);
    } else {
      MeasureTracks(t, before, e.diff, e.now);
      SameTracking(Trace(Measure(t.c, e.diff, e.now), t.samples + [(e.now, e.diff)]), Step(t, e).c, e.now);
    }
  }

  lemma {:induction false} RunTracks(start: nat, es: seq<Event>, k: nat)
    requires k <= |es| && Sensible(start, es, k)
    ensures Tracked(Run(start, es, k), Now(start, es, k))
  {
    if k > 0 {
      RunTracks(start, es, k - 1);
      StepTracks(Run(start, es, k - 1), Now(start, es, k - 1), es[k - 1]);
    }
  }

  /** After every run that took samples, the history is exactly the samples of the
      two minutes before the last one, the base delay is a lower bound of their
      delays and one of them has it: no measured delay is below it. */
  lemma {:induction false} BaseDelayIsMinimum(start: nat, es: seq<Event>, k: nat)
    requires k <= |es| && Sensible(start, es, k) && Run(start, es, k).samples != []
    ensures var t := Run(start, es, k); var recent := Within(t.samples, t.samples[|t.samples| - 1].0);
      && t.c.history == recent
      && (forall e :: e in recent ==> t.c.baseDelay <= e.1)
      && (exists e :: e in recent && e.1 == t.c.baseDelay)
  {
    RunTracks(start, es, k);
    var t := Run(start, es, k);
    var n := |t.samples| - 1;
    RecentIsWithin(t.samples, t.samples[n].0);
    RecentAreSamples(t.samples, t.samples[n].0);
    LeastIsLeast(t.c.history);
    LastIsRecent(t.samples[..n], t.samples[n]);
    assert t.samples[..n] + [t.samples[n]] == t.samples;
  }

  lemma {:induction false} UpdateIsBounded(c: Control, outstanding: nat, diff: nat, now: nat)
    requires diff >= Measure(c, diff, now).baseDelay
    requires c.window >= MIN_WINDOW && outstanding <= c.window
    ensures MIN_WINDOW <= UpdateWindow(c, outstanding, diff, now).window <= c.window + MAX_INCREASE
  {
    var m := Measure(c, diff, now);
    assert m.window == c.window;
    NewWindowIsBounded(m.window, outstanding, diff - m.baseDelay);
    LossIsBounded(m.(window := NewWindow(m.window, outstanding, diff - m.baseDelay), lastUpdate := now), now);
  }

  lemma {:induction false} TimeoutIsBounded(c: Control, packet: nat, diff: nat, now: nat)
    requires c.timeout >= MIN_TIMEOUT
    ensures UpdateRtt(c, packet, diff, now).timeout >= MIN_TIMEOUT
    ensures UpdateRtt(c, packet, diff, now).window == c.window
  {
  }

  lemma {:induction false} FloorBetween(x: real, lo: nat, hi: nat)
    requires lo as real <= x <= hi as real && hi <= U32_MAX
    ensures lo <= ToU32(x) <= hi
  {
  }

  /** The smoothed round trip lies between the old value and the measurement, and
      the variance between zero and the larger of its old value and the distance. */
  lemma {:induction false} RttStaysBetween(c: Control, packet: nat, diff: nat, now: nat)
    requires 0 < packet <= U32_MAX && c.rtt <= U32_MAX && c.rttVar <= U32_MAX
    ensures Min(c.rtt, packet) <= UpdateRtt(c, packet, diff, now).rtt <= Max(c.rtt, packet)
    ensures UpdateRtt(c, packet, diff, now).rttVar <= Max(c.rttVar, Max(c.rtt - packet, packet - c.rtt))
  {
    FloorBetween(NewRtt(c.rtt as real, packet as real), Min(c.rtt, packet), Max(c.rtt, packet));
    FloorBetween(NewVar(c.rtt as real, c.rttVar as real, packet as real), 0,
      Max(c.rttVar, Max(c.rtt - packet, packet - c.rtt)));
  }

  lemma {:induction false} StepWindow(t: Trace, before: nat, e: Event)
    requires Tracked(t, before) && before <= e.now && (!e.LossEvent? ==> e.diff <= U32_MAX)
    requires t.c.window >= MIN_WINDOW && t.c.timeout >= MIN_TIMEOUT
    requires e.WindowEvent? ==> e.outstanding <= t.c.window
    ensures MIN_WINDOW <= Step(t, e).c.window <= t.c.window + if e.WindowEvent? then MAX_INCREASE else 0
    ensures Step(t, e).c.timeout >= MIN_TIMEOUT
  {
    match e
    case RttEvent(packet, diff, now) => TimeoutIsBounded(t.c, packet, diff, now);
    case WindowEvent(outstanding, diff, now) =>
      MeasureTracks(t, before, diff, now);
      UpdateIsBounded(t.c, outstanding, diff, now);
    case LossEvent(now) => LossIsBounded(t.c, now);
  }

  function Updates(es: seq<Event>, k: nat): nat
    requires k <= |es|
  {
    if k == 0 then 0 else Updates(es, k - 1) + if es[k - 1].WindowEvent? then 1 else 0
  }

  /** The window never falls below one packet and grows by at most two packets per
      update; the timeout never falls below half a second. */
  lemma {:induction false} WindowIsBounded(start: nat, es: seq<Event>, k: nat)
    requires k <= |es| && Sensible(start, es, k)
    ensures MIN_WINDOW <= Run(start, es, k).c.window <= FIRST_WINDOW + MAX_INCREASE * Updates(es, k)
    ensures Run(start, es, k).c.timeout >= MIN_TIMEOUT
  {
    if k > 0 {
      WindowIsBounded(start, es, k - 1);
      RunTracks(start, es, k - 1);
      StepWindow(Run(start, es, k - 1), Now(start, es, k - 1), es[k - 1]);
    }
  }

  // ---- what one update does ------------------------------------------------------------------------

  function Distance(a: nat, b: nat): nat {
    Max(a - b, b - a)
  }

  lemma {:induction false} FloorIs(x: real, n: int)
    requires 0.0 <= x <= U32_MAX as real && n as real <= x < n as real + 1.0
    ensures ToU32(x) == n
  {
  }

  /** The smoothed round trip moves an eighth of the way to the measurement, rounded
      down. */
  lemma {:induction false} RttMovesEighth(c: Control, packet: nat, diff: nat, now: nat)
    requires 0 < packet <= U32_MAX && c.rtt <= U32_MAX
    ensures var r := UpdateRtt(c, packet, diff, now).rtt; 8 * (r - c.rtt) <= packet - c.rtt < 8 * (r - c.rtt) + 8
  {
    var x := NewRtt(c.rtt as real, packet as real);
    assert 8.0 * x == 7.0 * c.rtt as real + packet as real;
    FloorIs(x, x.Floor);
  }

  /** The variance moves a quarter of the way to the distance between the old average
      and the measurement, rounded down. */
  lemma {:induction false} VarianceMovesQuarter(c: Control, packet: nat, diff: nat, now: nat)
    requires 0 < packet <= U32_MAX && c.rtt <= U32_MAX && c.rttVar <= U32_MAX
    ensures var v := UpdateRtt(c, packet, diff, now).rttVar;
      4 * (v - c.rttVar) <= Distance(c.rtt, packet) - c.rttVar < 4 * (v - c.rttVar) + 4
  {
    var x := NewVar(c.rtt as real, c.rttVar as real, packet as real);
    assert Abs(c.rtt as real - packet as real) == Distance(c.rtt, packet) as real;
    assert 4.0 * x == 3.0 * c.rttVar as real + Distance(c.rtt, packet) as real;
    FloorIs(x, x.Floor);
  }

  /** The first measurement on a new connection: a round trip time of 0.1 s and no
      variance are moved by it, and its delay is the base delay. */
  lemma {:induction false} FirstMeasurement(start: nat, packet: nat, diff: nat, now: nat)
    requires 0 < packet <= U32_MAX && diff <= U32_MAX
    ensures var r := UpdateRtt(Fresh(start), packet, diff, now);
      && r.rtt == (700_000 + packet) / 8
      && r.rttVar == Distance(100_000, packet) / 4
      && r.baseDelay == diff && r.window == 65_536
  {
    RttMovesEighth(Fresh(start), packet, diff, now);
    VarianceMovesQuarter(Fresh(start), packet, diff, now);
    assert [] + [(now, diff)] == [(now, diff)];
    assert Least([(now, diff)]) == Min(diff, Least([]));
  }

  /** Eight times the timeout before it is rounded and kept above half a second: the
      new average and four times the new variance. */
  function TimeoutEighths(c: Control, packet: nat): nat {
    7 * c.rtt + packet + 8 * (3 * c.rttVar + Distance(c.rtt, packet))
  }

  lemma {:induction false} TimeoutIsSum(c: Control, packet: nat, diff: nat, now: nat)
    requires 0 < packet && TimeoutEighths(c, packet) <= 8 * U32_MAX
    ensures var e, r := TimeoutEighths(c, packet), UpdateRtt(c, packet, diff, now).timeout;
      if e >= 4_000_000 then 8 * r <= e < 8 * r + 8 else r == 500_000
  {
    var x := NewRtt(c.rtt as real, packet as real) + NewVar(c.rtt as real, c.rttVar as real, packet as real) * 4.0;
    assert Abs(c.rtt as real - packet as real) == Distance(c.rtt, packet) as real;
    assert 8.0 * x == TimeoutEighths(c, packet) as real;
    FloorIs(MaxReal(x, 500_000.0), MaxReal(x, 500_000.0).Floor);
  }

  lemma {:induction false} Cancels(a: real, b: real)
    requires b > 0.0
    ensures a / b * b == a
  {
  }

  /** The gain is 3000 bytes times the part of the target delay that is unused, times
      the part of the window that is in flight. */
  lemma {:induction false} GainIsProduct(window: nat, outstanding: nat, delay: int)
    requires window > 0
    ensures Gain(window, outstanding, delay) * window as real == 0.03 * (100_000 - delay) as real * outstanding as real
  {
    var d, f := (TARGET - delay as real) / TARGET, outstanding as real / window as real;
    Cancels(outstanding as real, window as real);
    assert d == (100_000 - delay) as real * 0.00001;
    assert Gain(window, outstanding, delay) == 3000.0 * d * f;
    ProductRegroups(3000.0 * d, f, window as real);
  }

  lemma {:induction false} ProductRegroups(a: real, b: real, c: real)
    ensures a * b * c == a * (b * c)
  {
  }

  lemma {:induction false} WindowMovesByGain(window: nat, outstanding: nat, delay: int)
    ensures var x, w := window as real + Gain(window, outstanding, delay), NewWindow(window, outstanding, delay);
      if x <= 1500.0 then w == 1500
      else if x >= U32_MAX as real then w == U32_MAX
      else w as real <= x < w as real + 1.0
  {
  }

  /** A loss halves the window, but not below one packet, and is remembered as the
      last decay. */
  lemma {:induction false} LossHalves(c: Control, now: nat)
    requires c.window <= U32_MAX
    ensures PacketLoss(c, now) == c.(window := Max(c.window / 2, 1500), lastDecay := now)
  {
    var x := c.window as real * 0.5;
    FloorIs(MaxReal(x, 1500.0), Max(c.window / 2, 1500));
  }

  /** Within a round trip of the last update only the delay is recorded. Afterwards the
      window moves by the gain, at the delay above the base delay, and is halved if
      half a second has passed since the last decay. */
  lemma {:induction false} UpdatesOncePerRoundTrip(c: Control, outstanding: nat, diff: nat, now: nat)
    requires c.lastUpdate <= now && c.lastDecay <= now
    ensures var r, m := UpdateWindow(c, outstanding, diff, now), Measure(c, diff, now);
      var moved := NewWindow(c.window, outstanding, diff - m.baseDelay);
      && r.rtt == c.rtt && r.rttVar == c.rttVar && r.timeout == c.timeout
      && r.history == m.history && r.baseDelay == m.baseDelay
      && (now - c.lastUpdate < c.rtt ==> r.window == c.window && r.lastUpdate == c.lastUpdate && r.lastDecay == c.lastDecay)
      && (now - c.lastUpdate >= c.rtt ==> r.lastUpdate == now)
      && (now - c.lastUpdate >= c.rtt && now - c.lastDecay < 500_000 ==> r.window == moved && r.lastDecay == c.lastDecay)
      && (now - c.lastUpdate >= c.rtt && now - c.lastDecay >= 500_000 ==> r.window == Max(moved / 2, 1500) && r.lastDecay == now)
  {
    var m := Measure(c, diff, now);
    var moved := NewWindow(c.window, outstanding, diff - m.baseDelay);
    LossHalves(m.(window := moved, lastUpdate := now), now);
  }

  /** No sample without a measured round trip. */
  lemma {:induction false} NoPacketNoUpdate(c: Control, diff: nat, now: nat)
    ensures UpdateRtt(c, 0, diff, now) == c
    ensures forall packet: nat :: packet > 0 ==> UpdateRtt(c, packet, diff, now).history == Measure(c, diff, now).history
  {
  }
}
