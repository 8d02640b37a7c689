/** The bookkeeping of outstanding requests as a value: what each operation of
    the request manager does to its coupled collections. Times are microseconds
    and every operation that reads the clock takes `now`. */
module RequestModel {
  import opened Basics

  const DEFAULT_REQUEST_QUEUE_LEN: nat := 500
  const FIRST_TIMEOUT: nat := 5_000_000
  const MIN_TIMEOUT: nat := 3_000_000
  const MAX_TIMEOUT: nat := 30_000_000

  /** `timeouts` lists the entries of the heap as (deadline, item); only their
      earliest deadline can be observed. */
  datatype Manager<T> = Manager(
    queue: seq<T>,
    timeouts: seq<(nat, T)>,
    requests: seq<T>,
    index: map<T, nat>,
    fulfilled: set<T>,
    limit: nat,
    recvTimes: seq<nat>,
    avgRecvTime: nat,
    timeoutMult: real,
    startTimes: map<T, nat>)

  function Empty<T>(limit: nat, mult: real, fulfilled: set<T>): Manager<T> {
    Manager([], [], [], map[], fulfilled, limit, [], 0, mult, map[])
  }

  function Default<T>(): Manager<T> {
    Empty(DEFAULT_REQUEST_QUEUE_LEN, 3.0, {})
  }

  // ---- timeouts ------------------------------------------------------------------

  function Timeout<T>(m: Manager<T>): int {
    if m.avgRecvTime == 0 then
      FIRST_TIMEOUT
    else
      Max(MIN_TIMEOUT, Min(MAX_TIMEOUT, (m.avgRecvTime as real * m.timeoutMult).Floor))
  }

  function Square(x: int): int {
    x * x
  }

  /** Sum of the squared distances, in milliseconds, of the last response times
      from the average. */
  function SquaredDistances(times: seq<nat>, avg: nat): int {
    if times == [] then 0 else
      Square(times[0] / 1000 - avg / 1000) + SquaredDistances(times[1..], avg)
  }

  function AdjustedMult(times: seq<nat>, avg: nat, mult: real): real {
    if |times| < 5 then
      mult
    else if SquaredDistances(times, avg) as real / |times| as real > 100.0 then
      if mult * 1.1 <= 4.0 then mult * 1.1 else 4.0
    else
      if mult * 0.9 >= 2.0 then mult * 0.9 else 2.0
  }

  /** Exponential moving average with smoothing factor 0.2, in whole microseconds. */
  function Smoothed(avg: nat, time: nat): nat {
    if avg == 0 then time else (time + 4 * avg) / 5
  }

  function LastTen(times: seq<nat>, time: nat): seq<nat> {
    (if |times| >= 10 then times[1..] else times) + [time]
  }

  function RecordResponse<T>(m: Manager<T>, time: nat): Manager<T> {
    var times, avg := LastTen(m.recvTimes, time), Smoothed(m.avgRecvTime, time);
    m.(recvTimes := times, avgRecvTime := avg, timeoutMult := AdjustedMult(times, avg, m.timeoutMult))
  }

  // ---- operations ------------------------------------------------------------------

  function Add<T>(m: Manager<T>, b: T, now: nat): (Manager<T>, bool) {
    if b in m.index || b in m.fulfilled then
      (m, false)
    else if |m.index| >= m.limit then
      (m.(queue := m.queue + [b]), false)
    else
      (m.(startTimes := m.startTimes[b := now],
          requests := m.requests + [b],
          index := m.index[b := |m.requests|],
          timeouts := m.timeouts + [(now + Max(0, Timeout(m)), b)]), true)
  }

  function IndexOf<T(==)>(s: seq<T>, x: T): (i: nat)
    requires x in s
    ensures i < |s| && s[i] == x && x !in s[..i]
  {
    if s[0] == x then 0 else
      assert s == [s[0]] + s[1..];
      1 + IndexOf(s[1..], x)
  }

  function SwapRemove<T>(s: seq<T>, i: nat): seq<T>
    requires i < |s|
  {
    s[i := s[|s| - 1]][..|s| - 1]
  }

  function RemoveAt<T>(s: seq<T>, i: nat): seq<T>
    requires i < |s|
  {
    s[..i] + s[i + 1..]
  }

  /** The entries among the first `n` that are not for item `x`. */
  function Without<T(==)>(entries: seq<(nat, T)>, x: T, n: nat): seq<(nat, T)>
    requires n <= |entries|
  {
    if n == 0 then [] else
      Without(entries, x, n - 1) + (if entries[n - 1].1 == x then [] else [entries[n - 1]])
  }

  /** The index after positions `lo..hi` have been written to it. */
  function Reindexed<T>(index: map<T, nat>, requests: seq<T>, lo: nat, hi: nat): map<T, nat>
    requires lo <= hi <= |requests|
    decreases hi
  {
    if hi == lo then index else Reindexed(index, requests, lo, hi - 1)[requests[hi - 1] := hi - 1]
  }

  /** Each position the index records holds the item it is recorded for. */
  ghost predicate Pointing<T(!new)>(m: Manager<T>) {
    forall b :: b in m.index ==> m.index[b] < |m.requests| && m.requests[m.index[b]] == b
  }

  function Fulfill<T(==,!new)>(m: Manager<T>, b: T, now: nat): (Manager<T>, bool)
    requires b in m.index ==> m.index[b] < |m.requests|
  {
    var marked := m.(fulfilled := m.fulfilled + {b});
    if b in m.queue then
      (marked.(queue := SwapRemove(m.queue, IndexOf(m.queue, b))), true)
    else if b !in m.index then
      (marked, false)
    else
      var timed :=
        if b in m.startTimes then
          RecordResponse(marked.(startTimes := m.startTimes - {b}), Max(now - m.startTimes[b], 0))
        else
          marked;
      var rest := RemoveAt(m.requests, m.index[b]);
      (timed.(requests := rest,
              timeouts := Without(m.timeouts, b, |m.timeouts|),
              index := Reindexed(m.index - {b}, rest, m.index[b], |rest|)), true)
  }

  function Unfulfill<T>(m: Manager<T>, b: T): Manager<T> {
    m.(fulfilled := m.fulfilled - {b}, index := m.index - {b})
  }

  function Drain<T>(m: Manager<T>): (Manager<T>, seq<T>) {
    (Empty(m.limit, m.timeoutMult, m.fulfilled), m.requests + m.queue)
  }

  function Clear<T>(m: Manager<T>): Manager<T> {
    Empty(m.limit, m.timeoutMult, {})
  }

  function DrainQueue<T>(m: Manager<T>, n: nat): (Manager<T>, seq<T>) {
    var k := Min(n, |m.queue|);
    (m.(queue := m.queue[k..]), m.queue[..k])
  }

  function SetLimit<T>(m: Manager<T>, limit: nat): Manager<T> {
    m.(limit := limit)
  }
}
