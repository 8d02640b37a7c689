/** What the request manager keeps over every run of its operations, and exactly
    which calls break it. */
module RequestCoherence {
  import opened Basics
  import opened RequestModel

  // ---- invariants ------------------------------------------------------------------

  /** `index` is the exact inverse of `requests` (so no item is in flight twice),
      and each in-flight item has one start time and one timeout entry. */
  ghost predicate Coherent<T(!new)>(m: Manager<T>) {
    && Pointing(m)
    && (forall i :: 0 <= i < |m.requests| ==> m.requests[i] in m.index && m.index[m.requests[i]] == i)
    && |m.timeouts| == |m.requests|
    && (forall i :: 0 <= i < |m.timeouts| ==> m.timeouts[i].1 == m.requests[i])
    && m.startTimes.Keys == m.index.Keys
  }

  /** The adaptive timeout stays within its limits, and so does the deadline of
      every in-flight item relative to the moment it was requested. */
  ghost predicate Timely<T(!new)>(m: Manager<T>) {
    && 2.0 <= m.timeoutMult <= 4.0
    && |m.recvTimes| <= 10
    && forall i :: 0 <= i < |m.timeouts| ==>
      m.timeouts[i].1 in m.startTimes ==>
        m.startTimes[m.timeouts[i].1] + MIN_TIMEOUT <= m.timeouts[i].0 <= m.startTimes[m.timeouts[i].1] + MAX_TIMEOUT
  }

  ghost predicate NoDuplicates<T>(s: seq<T>) {
    forall i, j :: 0 <= i < j < |s| ==> s[i] != s[j]
  }

  /** In flight, waiting and fulfilled: no item is in two of the three. */
  ghost predicate Apart<T(!new)>(m: Manager<T>) {
    && NoDuplicates(m.queue)
    && (forall b :: b in m.queue ==> b !in m.index && b !in m.fulfilled)
    && (forall b :: b in m.index ==> b !in m.fulfilled)
  }

  // ---- timeouts ----------------------------------------------------------------------

  lemma {:induction false} TimeoutBounds<T>(m: Manager<T>)
    ensures MIN_TIMEOUT <= Timeout(m) <= MAX_TIMEOUT
  {
  }

  /** The average lies between the previous average and the new measurement, so
      it never leaves the range of the response times seen so far. */
  lemma {:induction false} SmoothedBetween(avg: nat, time: nat)
    requires avg > 0
    ensures Min(avg, time) <= Smoothed(avg, time) <= Max(avg, time)
  {
  }

  lemma {:induction false} ResponseKeepsLimits<T>(m: Manager<T>, time: nat)
    requires 2.0 <= m.timeoutMult <= 4.0 && |m.recvTimes| <= 10
    ensures 2.0 <= RecordResponse(m, time).timeoutMult <= 4.0
    ensures |RecordResponse(m, time).recvTimes| <= 10
  {
  }

  // ---- reindexing ----------------------------------------------------------------------

  /** After reindexing, an item at a rewritten position is recorded there, and any
      other item keeps its record. */
  lemma {:induction false} ReindexedAt<T>(index: map<T, nat>, requests: seq<T>, lo: nat, hi: nat, b: T)
    requires lo <= hi <= |requests|
    ensures var r := Reindexed(index, requests, lo, hi);
      if b in requests[lo..hi] then
        b in r && lo <= r[b] < hi && requests[r[b]] == b
      else
        (b in r <==> b in index) && (b in index ==> r[b] == index[b])
    decreases hi
  {
    if lo < hi {
      ReindexedAt(index, requests, lo, hi - 1, b);
      assert requests[lo..hi] == requests[lo..hi - 1] + [requests[hi - 1]];
    }
  }

  /** The first `n` entries without the one at `pos`. */
  function Skipping<T>(entries: seq<T>, pos: nat, n: nat): seq<T>
    requires pos < |entries| && n <= |entries|
  {
    if n <= pos then entries[..n] else entries[..pos] + entries[pos + 1..n]
  }

  lemma {:induction false} SkippingNext<T>(entries: seq<T>, pos: nat, n: nat)
    requires pos < |entries| && 0 < n <= |entries|
    ensures Skipping(entries, pos, n) == Skipping(entries, pos, n - 1) + if n - 1 == pos then [] else [entries[n - 1]]
  {
    if n - 1 < pos {
      assert entries[..n] == entries[..n - 1] + [entries[n - 1]];
    } else if n - 1 > pos {
      assert entries[pos + 1..n] == entries[pos + 1..n - 1] + [entries[n - 1]];
    }
  }

  lemma {:induction false} WithoutOne<T>(entries: seq<(nat, T)>, requests: seq<T>, pos: nat, n: nat)
    requires |entries| == |requests| && pos < |entries| && n <= |entries|
    requires forall i :: 0 <= i < |entries| ==> entries[i].1 == requests[i]
    requires NoDuplicates(requests)
    ensures Without(entries, requests[pos], n) == Skipping(entries, pos, n)
  {
    if n > 0 {
      WithoutOne(entries, requests, pos, n - 1);
      SkippingNext(entries, pos, n);
      hide Skipping;
      assert n - 1 != pos ==> requests[n - 1] != requests[pos];
    } else {
      assert Skipping(entries, pos, 0) == [];
    }
  }

  // ---- every operation keeps positions valid ----------------------------------------------

  lemma {:induction false} FulfillKeepsPointing<T(!new)>(m: Manager<T>, b: T, now: nat)
    requires Pointing(m)
    ensures Pointing(Fulfill(m, b, now).0)
  {
    if b !in m.queue && b in m.index {
      var pos := m.index[b];
      var rest := RemoveAt(m.requests, pos);
      var r := Fulfill(m, b, now).0;
      forall x | x in r.index ensures r.index[x] < |rest| && rest[r.index[x]] == x {
        if x in m.index && m.index[x] > pos {
          assert rest[pos..|rest|][m.index[x] - 1 - pos] == x;
        }
        ReindexedAt(m.index - {b}, rest, pos, |rest|, x);
      }
    }
  }

  /** Taking one in-flight item out shifts the later ones down by one and leaves
      the index the inverse of what remains. */
  lemma {:induction false} ReindexedInverse<T(!new)>(m: Manager<T>, pos: nat, rest: seq<T>, index: map<T, nat>, i: nat)
    requires Coherent(m) && pos < |m.requests| && rest == RemoveAt(m.requests, pos) && i < |rest|
    requires index == Reindexed(m.index - {m.requests[pos]}, rest, pos, |rest|)
    ensures rest[i] == m.requests[if i < pos then i else i + 1]
    ensures rest[i] in m.index - {m.requests[pos]}
    ensures rest[i] in index && index[rest[i]] == i
  {
    if i >= pos {
      assert rest[pos..|rest|][i - pos] == rest[i];
    }
    ReindexedAt(m.index - {m.requests[pos]}, rest, pos, |rest|, rest[i]);
    if rest[i] in rest[pos..|rest|] {
      var j := index[rest[i]];
      assert rest[j] == m.requests[j + 1];
    }
  }

  lemma {:induction false} CoherentRest<T(!new)>(m: Manager<T>, pos: nat, r: Manager<T>)
    requires Coherent(m) && pos < |m.requests| && r.requests == RemoveAt(m.requests, pos)
    requires r.timeouts == RemoveAt(m.timeouts, pos) && r.startTimes.Keys == r.index.Keys && Pointing(r)
    requires forall i :: 0 <= i < |r.requests| ==> r.requests[i] in r.index && r.index[r.requests[i]] == i
    ensures Coherent(r)
  {
    hide NoDuplicates, Pointing;
    forall i | 0 <= i < |r.timeouts| ensures r.timeouts[i].1 == r.requests[i] {
      var was := if i < pos then i else i + 1;
      assert r.timeouts[i] == m.timeouts[was] && r.requests[i] == m.requests[was];
    }
  }

  lemma {:induction false} TimeoutsRest<T(!new)>(m: Manager<T>, pos: nat)
    requires Coherent(m) && pos < |m.requests|
    ensures Without(m.timeouts, m.requests[pos], |m.timeouts|) == RemoveAt(m.timeouts, pos)
  {
    assert NoDuplicates(m.requests);
    WithoutOne(m.timeouts, m.requests, pos, |m.timeouts|);
  }

  lemma {:induction false} FulfillKeepsCoherence<T(!new)>(m: Manager<T>, b: T, now: nat)
    requires Coherent(m)
    ensures Coherent(Fulfill(m, b, now).0)
  {
    if b !in m.queue && b in m.index {
      FulfillKeepsPointing(m, b, now);
      var pos, rest, r := m.index[b], RemoveAt(m.requests, m.index[b]), Fulfill(m, b, now).0;
      forall i | 0 <= i < |rest| ensures rest[i] in r.index && r.index[rest[i]] == i {
        ReindexedInverse(m, pos, rest, r.index, i);
      }
      TimeoutsRest(m, pos);
      assert r.startTimes.Keys == r.index.Keys by {
        ReindexedKeys(m, pos, rest, r.index);
      }
      CoherentRest(m, pos, r);
    }
  }

  lemma {:induction false} ReindexedKeys<T(!new)>(m: Manager<T>, pos: nat, rest: seq<T>, index: map<T, nat>)
    requires Coherent(m) && pos < |m.requests| && rest == RemoveAt(m.requests, pos)
    requires index == Reindexed(m.index - {m.requests[pos]}, rest, pos, |rest|)
    requires forall x :: x in index ==> index[x] < |rest| && rest[index[x]] == x
    ensures index.Keys == m.index.Keys - {m.requests[pos]}
  {
    forall x ensures x in index <==> x in m.index - {m.requests[pos]} {
      ReindexedAt(m.index - {m.requests[pos]}, rest, pos, |rest|, x);
      if x in index {
        ReindexedInverse(m, pos, rest, index, index[x]);
      }
    }
  }

  /** Dropping a mark keeps coherence exactly when the item is not in flight: the
      in-flight list, the heap and the start times are not touched. */
  lemma {:induction false} UnfulfillCoherentIff<T(!new)>(m: Manager<T>, b: T)
    requires Coherent(m)
    ensures Coherent(Unfulfill(m, b)) <==> b !in m.requests
    ensures Pointing(Unfulfill(m, b))
  {
    if b in m.requests {
      var i :| 0 <= i < |m.requests| && m.requests[i] == b;
      assert Unfulfill(m, b).requests[i] !in Unfulfill(m, b).index;
    } else {
      assert b !in m.index;
    }
  }

  // ---- in flight, waiting, fulfilled -----------------------------------------------------

  lemma {:induction false} SwapRemoveTakes<T>(s: seq<T>, i: nat)
    requires i < |s|
    ensures multiset(SwapRemove(s, i)) == multiset(s) - multiset{s[i]}
  {
    var last := |s| - 1;
    assert s == s[..last] + [s[last]];
    if i < last {
      assert SwapRemove(s, i) == s[..last][i := s[last]];
    } else {
      assert SwapRemove(s, i) == s[..last];
    }
  }

  lemma {:induction false} SwapRemoveSplits<T>(s: seq<T>, i: nat)
    requires i < |s| && NoDuplicates(s)
    ensures NoDuplicates(SwapRemove(s, i)) && s[i] !in SwapRemove(s, i)
    ensures forall x :: x in SwapRemove(s, i) ==> x in s
    ensures multiset(SwapRemove(s, i)) == multiset(s) - multiset{s[i]}
  {
    SwapRemoveTakes(s, i);
    var r, last := SwapRemove(s, i), |s| - 1;
    assert forall j :: 0 <= j < last ==> r[j] == if j == i then s[last] else s[j];
  }

  lemma {:induction false} FulfilledKeys<T(!new)>(m: Manager<T>, b: T, now: nat)
    requires Coherent(m) && b !in m.queue && b in m.index
    ensures Fulfill(m, b, now).0.index.Keys == m.index.Keys - {b}
  {
    FulfillKeepsPointing(m, b, now);
    ReindexedKeys(m, m.index[b], RemoveAt(m.requests, m.index[b]), Fulfill(m, b, now).0.index);
  }

  /** Fulfilling an item keeps in-flight, waiting and fulfilled items apart
      exactly when the item was not both waiting and in flight: then only the
      waiting copy is taken out. */
  lemma {:induction false} FulfillApartIff<T(!new)>(m: Manager<T>, b: T, now: nat)
    requires Coherent(m) && NoDuplicates(m.queue)
    requires forall x :: x in m.fulfilled ==> x !in m.queue && x !in m.index
    requires forall x :: x in m.queue && x != b ==> x !in m.index
    ensures Apart(Fulfill(m, b, now).0) <==> !(b in m.queue && b in m.index)
  {
    var r := Fulfill(m, b, now).0;
    if b in m.queue && b in m.index {
      assert b in r.index && b in r.fulfilled;
    } else if b in m.queue {
      SwapRemoveSplits(m.queue, IndexOf(m.queue, b));
      assert Apart(r);
    } else if b in m.index {
      FulfilledKeys(m, b, now);
      assert forall x :: x in r.index <==> x in r.index.Keys;
      assert Apart(r);
    } else {
      assert Apart(r);
    }
  }

  /** Adding an item keeps them apart exactly when it was not waiting already, or
      was refused. */
  lemma {:induction false} AddApartIff<T(!new)>(m: Manager<T>, b: T, now: nat)
    requires Coherent(m) && Apart(m)
    ensures Apart(Add(m, b, now).0) <==> b !in m.queue
  {
    var r := Add(m, b, now).0;
    if b in m.queue {
      var i :| 0 <= i < |m.queue| && m.queue[i] == b;
      if |m.index| >= m.limit {
        assert r.queue[i] == r.queue[|m.queue|];
      } else {
        assert b in r.queue && b in r.index;
      }
    }
  }

  // ---- conservation ------------------------------------------------------------------------

  /** Everything handed to the manager and not yet given back or fulfilled. */
  ghost function Outstanding<T>(m: Manager<T>): multiset<T> {
    multiset(m.requests) + multiset(m.queue)
  }

  /** A refused item is already in flight or fulfilled; any other is kept. */
  lemma {:induction false} AddConserves<T(!new)>(m: Manager<T>, b: T, now: nat)
    ensures Outstanding(Add(m, b, now).0) ==
      Outstanding(m) + if b in m.index || b in m.fulfilled then multiset{} else multiset{b}
  {
  }

  lemma {:induction false} RemoveAtSplits<T>(s: seq<T>, i: nat)
    requires i < |s|
    ensures multiset(RemoveAt(s, i)) == multiset(s) - multiset{s[i]}
  {
    assert s == s[..i] + [s[i]] + s[i + 1..];
  }

  /** Fulfilling an outstanding item takes out exactly one copy of it; fulfilling
      any other item takes out nothing. */
  lemma {:induction false} FulfillConserves<T(!new)>(m: Manager<T>, b: T, now: nat)
    requires Coherent(m) && NoDuplicates(m.queue)
    ensures Outstanding(Fulfill(m, b, now).0) == Outstanding(m) - multiset{b}
    ensures Fulfill(m, b, now).1 <==> b in Outstanding(m)
    ensures Fulfill(m, b, now).0.fulfilled == m.fulfilled + {b}
  {
    if b in m.queue {
      assert multiset(SwapRemove(m.queue, IndexOf(m.queue, b))) == multiset(m.queue) - multiset{b} by {
        SwapRemoveSplits(m.queue, IndexOf(m.queue, b));
      }
    } else if b in m.index {
      RemoveAtSplits(m.requests, m.index[b]);
    } else {
      assert b !in m.requests;
    }
  }

  /** Draining gives back exactly what was outstanding and forgets nothing that
      was fulfilled. */
  lemma {:induction false} DrainConserves<T(!new)>(m: Manager<T>)
    ensures multiset(Drain(m).1) == Outstanding(m)
    ensures Outstanding(Drain(m).0) == multiset{} && Drain(m).0.fulfilled == m.fulfilled
    ensures Coherent(Drain(m).0) && Apart(Drain(m).0)
    ensures Drain(m).0.limit == m.limit && Drain(m).0.timeoutMult == m.timeoutMult
  {
  }

  lemma {:induction false} DrainQueueConserves<T(!new)>(m: Manager<T>, n: nat)
    ensures Outstanding(DrainQueue(m, n).0) + multiset(DrainQueue(m, n).1) == Outstanding(m)
    ensures |DrainQueue(m, n).1| <= n
  {
    var k := Min(n, |m.queue|);
    assert m.queue == m.queue[..k] + m.queue[k..];
  }

  // ---- runs ----------------------------------------------------------------------------------

  datatype Op<T> =
    | AddOp(item: T, now: nat)
    | FulfillOp(item: T, now: nat)
    | UnfulfillOp(item: T)
    | DrainOp
    | ClearOp
    | DrainQueueOp(n: nat)
    | SetLimitOp(limit: nat)

  ghost function Apply<T(!new)>(m: Manager<T>, op: Op<T>): Manager<T>
    requires Pointing(m)
  {
    match op
    case AddOp(b, now) => Add(m, b, now).0
    case FulfillOp(b, now) => Fulfill(m, b, now).0
    case UnfulfillOp(b) => Unfulfill(m, b)
    case DrainOp => Drain(m).0
    case ClearOp => Clear(m)
    case DrainQueueOp(n) => DrainQueue(m, n).0
    case SetLimitOp(limit) => SetLimit(m, limit)
  }

  /** Every operation, without any condition, keeps positions valid. */
  lemma {:induction false} ApplyKeepsPointing<T(!new)>(m: Manager<T>, op: Op<T>)
    requires Pointing(m)
    ensures Pointing(Apply(m, op))
  {
    if op.FulfillOp? {
      FulfillKeepsPointing(m, op.item, op.now);
    }
  }

  ghost function RunOps<T(!new)>(ops: seq<Op<T>>, k: nat): (m: Manager<T>)
    requires k <= |ops|
    ensures Pointing(m)
  {
    if k == 0 then
      Default()
    else
      ApplyKeepsPointing(RunOps(ops, k - 1), ops[k - 1]);
      Apply(RunOps(ops, k - 1), ops[k - 1])
  }

  lemma {:induction false} AddKeepsTimely<T(!new)>(m: Manager<T>, b: T, now: nat)
    requires Coherent(m) && Timely(m)
    ensures Timely(Add(m, b, now).0)
  {
    TimeoutBounds(m);
    var r := Add(m, b, now).0;
    forall i | 0 <= i < |m.timeouts| ensures r.timeouts[i] == m.timeouts[i] && m.timeouts[i].1 in m.index {
      assert m.timeouts[i].1 == m.requests[i];
    }
  }

  lemma {:induction false} FulfillKeepsTimely<T(!new)>(m: Manager<T>, b: T, now: nat)
    requires Coherent(m) && Timely(m)
    ensures Timely(Fulfill(m, b, now).0)
  {
    if b !in m.queue && b in m.index {
      var pos, r := m.index[b], Fulfill(m, b, now).0;
      TimeoutsRest(m, pos);
      ResponseKeepsLimits(m.(fulfilled := m.fulfilled + {b}, startTimes := m.startTimes - {b}), Max(now - m.startTimes[b], 0));
      assert r.timeouts == RemoveAt(m.timeouts, pos) && r.startTimes == m.startTimes - {b};
      forall i | 0 <= i < |r.timeouts| ensures exists j :: 0 <= j < |m.timeouts| && r.timeouts[i] == m.timeouts[j] {
        assert r.timeouts[i] == m.timeouts[if i < pos then i else i + 1];
      }
    }
  }

  lemma {:induction false} ApplyKeepsTimely<T(!new)>(m: Manager<T>, op: Op<T>)
    requires Coherent(m) && Timely(m)
    ensures Timely(Apply(m, op))
  {
    match op
    case AddOp(b, now) => AddKeepsTimely(m, b, now);
    case FulfillOp(b, now) => FulfillKeepsTimely(m, b, now);
    case _ =>
  }

  /** Marks are dropped only for items not in flight. */
  ghost predicate Careful<T(!new)>(m: Manager<T>, op: Op<T>) {
    op.UnfulfillOp? ==> op.item !in m.requests
  }

  ghost predicate AllCareful<T(!new)>(ops: seq<Op<T>>, k: nat)
    requires k <= |ops|
  {
    k == 0 || (AllCareful(ops, k - 1) && Careful(RunOps(ops, k - 1), ops[k - 1]))
  }

  lemma {:induction false} ApplyKeepsCoherence<T(!new)>(m: Manager<T>, op: Op<T>)
    requires Coherent(m) && Careful(m, op)
    ensures Coherent(Apply(m, op))
  {
    match op
    case FulfillOp(b, now) => FulfillKeepsCoherence(m, b, now);
    case UnfulfillOp(b) => UnfulfillCoherentIff(m, b);
    case _ =>
  }

  /** Over every run that drops marks only for items not in flight, the in-flight
      list has no duplicates, the index is its exact inverse, every in-flight item
      has exactly one start time and one timeout entry, and every deadline lies
      between 3 and 30 seconds after the request. */
  lemma {:induction false} RunIsCoherent<T(!new)>(ops: seq<Op<T>>, k: nat)
    requires k <= |ops|
    requires AllCareful(ops, k)
    ensures Coherent(RunOps(ops, k)) && Timely(RunOps(ops, k))
    ensures NoDuplicates(RunOps(ops, k).requests)
  {
    if k > 0 {
      RunIsCoherent(ops, k - 1);
      ApplyKeepsTimely(RunOps(ops, k - 1), ops[k - 1]);
      ApplyKeepsCoherence(RunOps(ops, k - 1), ops[k - 1]);
    }
  }

  /** Besides, items are added only while not already waiting. */
  ghost predicate Fresh<T(!new)>(m: Manager<T>, op: Op<T>) {
    Careful(m, op) && (op.AddOp? ==> op.item !in m.queue)
  }

  ghost predicate AllFresh<T(!new)>(ops: seq<Op<T>>, k: nat)
    requires k <= |ops|
  {
    k == 0 || (AllFresh(ops, k - 1) && Fresh(RunOps(ops, k - 1), ops[k - 1]))
  }

  lemma {:induction false} DrainQueueKeepsApart<T(!new)>(m: Manager<T>, n: nat)
    requires Apart(m)
    ensures Apart(DrainQueue(m, n).0)
  {
    var k := Min(n, |m.queue|);
    assert forall b :: b in m.queue[k..] ==> b in m.queue;
  }

  lemma {:induction false} ApplyKeepsApart<T(!new)>(m: Manager<T>, op: Op<T>)
    requires Coherent(m) && Apart(m) && Fresh(m, op)
    ensures Apart(Apply(m, op))
  {
    match op
    case AddOp(b, now) => AddApartIff(m, b, now);
    case FulfillOp(b, now) => FulfillApartIff(m, b, now);
    case DrainQueueOp(n) => DrainQueueKeepsApart(m, n);
    case _ =>
  }

  /** Over every run that also never adds an item still waiting, no item is ever
      two of: in flight, waiting, fulfilled. */
  lemma {:induction false} RunStaysApart<T(!new)>(ops: seq<Op<T>>, k: nat)
    requires k <= |ops|
    requires AllFresh(ops, k)
    ensures Coherent(RunOps(ops, k)) && Apart(RunOps(ops, k))
  {
    if k > 0 {
      RunStaysApart(ops, k - 1);
      ApplyKeepsCoherence(RunOps(ops, k - 1), ops[k - 1]);
      ApplyKeepsApart(RunOps(ops, k - 1), ops[k - 1]);
    }
  }
}
