/** The request manager: six coupled collections updated in place. Each method is
    proved to make the change RequestModel describes. */
module RequestManager {
  import opened Basics
  import opened RequestModel

  /** Index of the first occurrence of an item. */
  method Position<T(==)>(s: seq<T>, x: T) returns (pos: Option<nat>)
    ensures pos == if x in s then Some(IndexOf(s, x)) else None
  {
    for i := 0 to |s|
      invariant x !in s[..i]
    {
      if s[i] == x {
        FirstIndex(s, x, i);
        return Some(i);
      }
    }
    return None;
  }

  lemma {:induction false} FirstIndex<T>(s: seq<T>, x: T, i: nat)
    requires i < |s| && s[i] == x && x !in s[..i]
    ensures x in s && IndexOf(s, x) == i
  {
    if i > 0 {
      assert s[..i][0] == s[0] && s[1..][..i - 1] == s[..i][1..];
      FirstIndex(s[1..], x, i - 1);
    }
  }

  /** Keep only the heap entries of other items. */
  method Retain<T(==)>(entries: seq<(nat, T)>, x: T) returns (kept: seq<(nat, T)>)
    ensures kept == Without(entries, x, |entries|)
  {
    kept := [];
    for i := 0 to |entries|
      invariant kept == Without(entries, x, i)
    {
      if entries[i].1 != x {
        kept := kept + [entries[i]];
      }
    }
  }

  class RequestManager<T(==,!new)> {
    var queue: seq<T>
    var timeouts: seq<(nat, T)>
    var requests: seq<T>
    var index: map<T, nat>
    var fulfilledIndex: set<T>
    var limit: nat
    var recvTimes: seq<nat>
    var avgRecvTime: nat
    var timeoutMult: real
    var reqStartTimes: map<T, nat>

    ghost function State(): Manager<T>
      reads this
    {
      Manager(queue, timeouts, requests, index, fulfilledIndex, limit, recvTimes, avgRecvTime, timeoutMult, reqStartTimes)
    }

    constructor ()
      ensures State() == Default()
    {
      queue, timeouts, requests, index, fulfilledIndex := [], [], [], map[], {};
      limit, recvTimes, avgRecvTime, timeoutMult, reqStartTimes := DEFAULT_REQUEST_QUEUE_LEN, [], 0, 3.0, map[];
    }

    method GetTimeout() returns (timeout: int)
      ensures timeout == Timeout(State())
    {
      if avgRecvTime == 0 {
        return FIRST_TIMEOUT;
      }
      var scaled := (avgRecvTime as real * timeoutMult).Floor;
      timeout := Max(MIN_TIMEOUT, Min(MAX_TIMEOUT, scaled));
    }

    method AdjustTimeoutMultiplier()
      modifies this`timeoutMult
      ensures timeoutMult == AdjustedMult(recvTimes, avgRecvTime, old(timeoutMult))
    {
      if |recvTimes| < 5 {
        return;
      }
      var sum := 0;
      for i := 0 to |recvTimes|
        invariant sum + SquaredDistances(recvTimes[i..], avgRecvTime) == SquaredDistances(recvTimes, avgRecvTime)
      {
        assert recvTimes[i..][1..] == recvTimes[i + 1..];
        var distance := recvTimes[i] / 1000 - avgRecvTime / 1000;
        sum := sum + Square(distance);
      }
      var variance := sum as real / |recvTimes| as real;
      if variance > 100.0 {
        timeoutMult := if timeoutMult * 1.1 <= 4.0 then timeoutMult * 1.1 else 4.0;
      } else {
        timeoutMult := if timeoutMult * 0.9 >= 2.0 then timeoutMult * 0.9 else 2.0;
      }
    }

    method UpdateResponseTime(time: nat)
      modifies this`recvTimes, this`avgRecvTime, this`timeoutMult
      ensures State() == RecordResponse(old(State()), time)
    {
      if |recvTimes| >= 10 {
        recvTimes := recvTimes[1..];
      }
      recvTimes := recvTimes + [time];
      if avgRecvTime == 0 {
        avgRecvTime := time;
      } else {
        avgRecvTime := (0.2 * time as real + (1.0 - 0.2) * avgRecvTime as real).Floor;
      }
      AdjustTimeoutMultiplier();
    }

    method IsFull() returns (full: bool)
      ensures full == (|index| >= limit)
    {
      full := |index| >= limit;
    }

    /** How many requests can be made right now. */
    method GetAvailableRequestLen() returns (n: nat)
      ensures n == Max(limit - |index|, 0)
    {
      n := Max(limit - |index|, 0);
    }

    /** True if the item was inserted; a duplicate is refused and an item for
        which there is no room waits in the queue. */
    method AddRequest(block: T, now: nat) returns (added: bool)
      modifies this
      ensures (State(), added) == Add(old(State()), block, now)
    {
      if block in index || block in fulfilledIndex {
        return false;
      }
      var full := IsFull();
      if full {
        queue := queue + [block];
        return false;
      }
      var timeout := GetTimeout();
      reqStartTimes := reqStartTimes[block := now];
      requests := requests + [block];
      index := index[block := |requests| - 1];
      timeouts := timeouts + [(now + Max(0, timeout), block)];
      added := true;
    }

    method Unfulfill(req: T)
      modifies this`fulfilledIndex, this`index
      ensures State() == RequestModel.Unfulfill(old(State()), req)
    {
      fulfilledIndex := fulfilledIndex - {req};
      index := index - {req};
    }

    /** Rewrite the recorded positions from `pos` on. */
    method Reindex(pos: nat)
      requires pos <= |requests|
      modifies this`index
      ensures index == Reindexed(old(index), requests, pos, |requests|)
    {
      for i := pos to |requests|
        invariant index == Reindexed(old(index), requests, pos, i)
      {
        index := index[requests[i] := i];
      }
    }

    /** Mark an item as fulfilled, whether or not it was requested, and take one
        copy of it out: a waiting one if there is any, else the one in flight. */
    method FulfillRequest(req: T, now: nat) returns (existed: bool)
      requires Pointing(State())
      modifies this
      ensures Pointing(old(State())) && (State(), existed) == Fulfill(old(State()), req, now)
    {
      fulfilledIndex := fulfilledIndex + {req};
      var waiting := Position(queue, req);
      if waiting.Some? {
        queue := queue[waiting.value := queue[|queue| - 1]][..|queue| - 1];
        return true;
      }
      if req !in index {
        return false;
      }
      RemoveInFlight(req, now);
      existed := true;
    }

    /** The response to an item has come: time it, if its start is known. */
    method StopTiming(req: T, now: nat)
      modifies this`reqStartTimes, this`recvTimes, this`avgRecvTime, this`timeoutMult
      ensures State() ==
        if req in old(reqStartTimes) then
          RecordResponse(old(State()).(startTimes := old(reqStartTimes) - {req}), Max(now - old(reqStartTimes)[req], 0))
        else
          old(State())
    {
      if req in reqStartTimes {
        var responseTime := Max(now - reqStartTimes[req], 0);
        reqStartTimes := reqStartTimes - {req};
        UpdateResponseTime(responseTime);
      }
    }

    /** Take an in-flight item out of every collection and time its response. */
    method RemoveInFlight(req: T, now: nat)
      requires Pointing(State()) && req in index && req !in queue && req in fulfilledIndex
      modifies this
      ensures State() == Fulfill(old(State()), req, now).0
    {
      var pos := index[req];
      index := index - {req};
      StopTiming(req, now);
      requests := requests[..pos] + requests[pos + 1..];
      timeouts := Retain(timeouts, req);
      Reindex(pos);
    }

    /** Give back everything outstanding; fulfilled items stay marked. */
    method Drain() returns (items: seq<T>)
      modifies this
      ensures (State(), items) == RequestModel.Drain(old(State()))
    {
      items := requests + queue;
      Reset(fulfilledIndex);
    }

    method Clear()
      modifies this
      ensures State() == RequestModel.Clear(old(State()))
    {
      Reset({});
    }

    method Reset(fulfilled: set<T>)
      modifies this
      ensures State() == Empty(old(limit), old(timeoutMult), fulfilled)
    {
      queue, timeouts, requests, index, fulfilledIndex := [], [], [], map[], fulfilled;
      recvTimes, avgRecvTime, reqStartTimes := [], 0, map[];
    }

    method DrainQntQueue(n: nat) returns (items: seq<T>)
      modifies this`queue
      ensures (State(), items) == DrainQueue(old(State()), n)
    {
      var k := Min(n, |queue|);
      items := queue[..k];
      queue := queue[k..];
    }

    method SetLimit(n: nat)
      modifies this`limit
      ensures State() == RequestModel.SetLimit(old(State()), n)
    {
      limit := n;
    }

    /** The earliest deadline of the heap. */
    method GetLastTimestamp() returns (t: Option<nat>)
      ensures t == None <==> timeouts == []
      ensures t.Some? ==> (exists i :: 0 <= i < |timeouts| && timeouts[i].0 == t.value)
      ensures t.Some? ==> forall i :: 0 <= i < |timeouts| ==> t.value <= timeouts[i].0
    {
      if timeouts == [] {
        return None;
      }
      var best, at := timeouts[0].0, 0;
      for i := 1 to |timeouts|
        invariant 0 <= at < |timeouts| && timeouts[at].0 == best
        invariant forall j :: 0 <= j < i ==> best <= timeouts[j].0
      {
        if timeouts[i].0 < best {
          best, at := timeouts[i].0, i;
        }
      }
      t := Some(best);
    }

    /** Up to `n` outstanding items, in-flight ones first. */
    method CloneQnt(n: nat) returns (items: seq<T>)
      ensures items == (requests + queue)[..Min(n, |requests| + |queue|)]
    {
      var k := Min(n, |requests|);
      items := requests[..k];
      if |items| < n {
        var more := Min(n - |items|, |queue|);
        items := items + queue[..more];
      }
    }
  }
}
