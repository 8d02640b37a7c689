/** What single calls of the request manager do: which items come in flight, when they
    are overdue, and how the response times steer the timeout. */
module RequestEffects {
  import opened Basics
  import opened RequestModel
  import opened RequestCoherence

  // ---- adding and taking out -------------------------------------------------------------

  /** An item comes in flight exactly if it is new and there is room; then it is the
      youngest in flight, with the time and the deadline of this moment. A new item
      without room waits behind all others. */
  lemma {:induction false} AddAcceptsIff<T(!new)>(m: Manager<T>, b: T, now: nat)
    requires Coherent(m)
    ensures var (r, accepted) := Add(m, b, now); var isNew := b !in m.requests && b !in m.fulfilled;
      && (accepted <==> isNew && |m.requests| < m.limit)
      && (accepted ==>
          (r.requests == m.requests + [b] && r.index[b] == |m.requests|
           && r.startTimes[b] == now && r.timeouts == m.timeouts + [(now + Timeout(m), b)]))
      && (!accepted ==> r == m.(queue := r.queue))
      && r.queue == m.queue + (if isNew && !accepted then [b] else [])
  {
    SameSize(m);
    assert b in m.index ==> m.requests[m.index[b]] == b;
    assert m.queue + [] == m.queue;
    TimeoutBounds(m);
  }

  lemma {:induction false} SameSize<T(!new)>(m: Manager<T>)
    requires Coherent(m)
    ensures |m.index| == |m.requests|
  {
    PositionsOf(m, |m.requests|);
    assert m.index.Keys == FirstItems(m.requests, |m.requests|) by {
      forall b | b in m.index ensures b in FirstItems(m.requests, |m.requests|) {
        assert m.requests[m.index[b]] == b;
      }
    }
  }

  function FirstItems<T>(s: seq<T>, k: nat): set<T>
    requires k <= |s|
  {
    set i | 0 <= i < k :: s[i]
  }

  lemma {:induction false} PositionsOf<T(!new)>(m: Manager<T>, k: nat)
    requires Coherent(m) && k <= |m.requests|
    ensures |FirstItems(m.requests, k)| == k
  {
    if k > 0 {
      PositionsOf(m, k - 1);
      assert FirstItems(m.requests, k) == FirstItems(m.requests, k - 1) + {m.requests[k - 1]};
      assert m.requests[k - 1] !in FirstItems(m.requests, k - 1);
    }
  }

  /** No operation brings more in flight than the limit, unless there were more
      already. */
  lemma {:induction false} InFlightIsLimited<T(!new)>(m: Manager<T>, op: Op<T>)
    requires Coherent(m) && Careful(m, op)
    ensures |Apply(m, op).requests| <= Max(|m.requests|, m.limit)
  {
    match op
    case AddOp(b, now) => AddAcceptsIff(m, b, now);
    case _ =>
  }

  /** An item whose mark was dropped, and that is not in flight, is requested again as
      soon as there is room. */
  lemma {:induction false} UnfulfilledIsRequested<T(!new)>(m: Manager<T>, b: T, now: nat)
    requires Coherent(m) && b !in m.requests
    ensures Add(Unfulfill(m, b), b, now).1 <==> |m.requests| < m.limit
    ensures Unfulfill(m, b).fulfilled == m.fulfilled - {b}
  {
    SameSize(m);
    assert b !in m.index;
    assert Unfulfill(m, b).index == m.index;
  }

  /** The items that waited longest are taken first. */
  lemma {:induction false} OldestWaitFirst<T>(m: Manager<T>, n: nat)
    ensures var (r, items) := DrainQueue(m, n);
      && items + r.queue == m.queue && |items| == Min(n, |m.queue|)
      && r == m.(queue := r.queue)
  {
  }

  /** A waiting item gives its place to the last one; the others keep theirs. */
  lemma {:induction false} LastTakesPlace<T>(s: seq<T>, i: nat)
    requires i < |s|
    ensures |SwapRemove(s, i)| == |s| - 1
    ensures forall j :: 0 <= j < |s| - 1 ==> SwapRemove(s, i)[j] == if j == i then s[|s| - 1] else s[j]
  {
  }

  // ---- response times --------------------------------------------------------------------------

  /** The time from request to answer is recorded exactly when an item in flight, and
      not waiting too, is fulfilled. */
  lemma {:induction false} FulfillMeasures<T(!new)>(m: Manager<T>, b: T, now: nat)
    requires Coherent(m)
    ensures var r := Fulfill(m, b, now).0;
      if b !in m.queue && b in m.requests then
        var m1 := RecordResponse(m, Max(now - m.startTimes[b], 0));
        r.recvTimes == m1.recvTimes && r.avgRecvTime == m1.avgRecvTime && r.timeoutMult == m1.timeoutMult
      else
        r.recvTimes == m.recvTimes && r.avgRecvTime == m.avgRecvTime && r.timeoutMult == m.timeoutMult
  {
    assert b in m.index ==> m.requests[m.index[b]] == b;
  }

  function Latest(history: seq<nat>): seq<nat> {
    history[|history| - Min(10, |history|)..]
  }

  /** What is kept are the ten latest response times. */
  lemma {:induction false} LatestAreKept(history: seq<nat>, time: nat)
    ensures LastTen(Latest(history), time) == Latest(history + [time])
  {
  }

  /** The first measurement becomes the average; any later one moves it a fifth of the
      way, rounded down. */
  lemma {:induction false} AverageMovesFifth(avg: nat, time: nat)
    ensures avg == 0 ==> Smoothed(avg, time) == time
    ensures avg > 0 ==> 5 * (Smoothed(avg, time) - avg) <= time - avg < 5 * (Smoothed(avg, time) - avg) + 5
  {
  }

  lemma {:induction false} DistancesAdd(times: seq<nat>, time: nat, avg: nat)
    ensures SquaredDistances([], avg) == 0
    ensures SquaredDistances(times + [time], avg) ==
      SquaredDistances(times, avg) + (time / 1000 - avg / 1000) * (time / 1000 - avg / 1000)
  {
    if times == [] {
      assert [time][1..] == [];
      assert [] + [time] == [time];
    } else {
      DistancesAdd(times[1..], time, avg);
      assert (times + [time])[1..] == times[1..] + [time];
    }
  }

  /** From the fifth kept response on, the multiplier grows by a tenth, up to 4, exactly
      if the kept times scatter by more than 10 ms around the new average, and shrinks
      by a tenth, down to 2, otherwise. */
  lemma {:induction false} ScatterSteersMultiplier<T>(m: Manager<T>, time: nat)
    requires 2.0 <= m.timeoutMult <= 4.0
    ensures var r := RecordResponse(m, time); var n := |r.recvTimes|;
      && r.recvTimes == LastTen(m.recvTimes, time) && r.avgRecvTime == Smoothed(m.avgRecvTime, time)
      && r.timeoutMult ==
        if n < 5 then m.timeoutMult
        else if SquaredDistances(r.recvTimes, r.avgRecvTime) > 100 * n then
          (if 11.0 * m.timeoutMult <= 40.0 then 11.0 * m.timeoutMult / 10.0 else 4.0)
        else
          (if 9.0 * m.timeoutMult >= 20.0 then 9.0 * m.timeoutMult / 10.0 else 2.0)
  {
    var r := RecordResponse(m, time);
    var n, d := |r.recvTimes|, SquaredDistances(r.recvTimes, r.avgRecvTime);
    if n >= 5 {
      QuotientAbove(d as real, n as real, d as real / n as real);
    }
  }

  lemma {:induction false} SameSign(x: real, n: real)
    requires n > 0.0
    ensures x * n > 0.0 <==> x > 0.0
  {
    if x > 0.0 {
      assert x * n > 0.0;
    } else {
      assert -x * n >= 0.0;
    }
  }

  lemma {:induction false} QuotientAbove(d: real, n: real, q: real)
    requires n > 0.0 && q * n == d
    ensures q > 100.0 <==> d > 100.0 * n
  {
    SameSign(q - 100.0, n);
    assert (q - 100.0) * n == d - 100.0 * n;
  }

  /** The timeout is the average response time times the multiplier, rounded down,
      whenever that lies within 3 and 30 seconds, and the nearer limit otherwise;
      before the first response it is 5 seconds. */
  lemma {:induction false} TimeoutIsProduct<T>(m: Manager<T>)
    ensures m.avgRecvTime == 0 ==> Timeout(m) == 5_000_000
    ensures var x := m.avgRecvTime as real * m.timeoutMult;
      m.avgRecvTime > 0 ==>
        && (3_000_000.0 <= x <= 30_000_000.0 ==> Timeout(m) as real <= x < Timeout(m) as real + 1.0)
        && (x < 3_000_000.0 ==> Timeout(m) == 3_000_000)
        && (x > 30_000_000.0 ==> Timeout(m) == 30_000_000)
  {
  }

  // ---- starting afresh -----------------------------------------------------------------------------

  /** What is given back comes in the order it was requested, then waiting; response
      times are forgotten with it, so that the next timeout is 5 seconds again. */
  lemma {:induction false} DrainStartsAfresh<T>(m: Manager<T>)
    ensures var (r, items) := Drain(m);
      && |items| == |m.requests| + |m.queue|
      && items[..|m.requests|] == m.requests && items[|m.requests|..] == m.queue
      && r.recvTimes == [] && Timeout(r) == 5_000_000
    ensures Timeout(Clear(m)) == 5_000_000
  {
  }

  /** A new manager asks for up to 500 items; its first timeout is 5 seconds, the one
      after the first response three times the time that took, within the limits. */
  lemma {:induction false} FirstResponseTriples<T>(time: nat)
    requires time > 0
    ensures var m := Default<T>();
      && m.limit == 500 && Timeout(m) == 5_000_000
      && Timeout(RecordResponse(m, time)) == Max(3_000_000, Min(30_000_000, 3 * time))
  {
    var r := RecordResponse(Default<T>(), time);
    assert r.avgRecvTime as real * r.timeoutMult == (3 * time) as real;
  }
}
