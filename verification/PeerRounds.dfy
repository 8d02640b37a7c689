/** What a round of requests does for the blocks of a peer: exactly the blocks that
    come in flight are handed to the connection, and a round that is not cut short
    fills the room there is, from the waiting blocks first. */
module PeerRounds {
  import opened Basics
  import opened Metainfo
  import opened RequestModel
  import opened RequestCoherence
  import opened PeerModel
  import PeerRuns

  function Sent(blocks: seq<BlockInfo>): seq<Emit> {
    seq(|blocks|, i requires 0 <= i < |blocks| => SendRequest(blocks[i]))
  }

  // ---- what is sent ----------------------------------------------------------------------

  /** From `s` to `r` these blocks came in flight, and requests for them, in this
      order, were handed to the connection. */
  ghost predicate Sends(s: PeerState, r: PeerState, blocks: seq<BlockInfo>) {
    r.man.requests == s.man.requests + blocks && r.out == s.out + Sent(blocks)
  }

  lemma {:induction false} SendsTwice(p: PeerState, q: PeerState, r: PeerState, a: seq<BlockInfo>, b: seq<BlockInfo>)
    requires Sends(p, q, a) && Sends(q, r, b)
    ensures Sends(p, r, a + b)
  {
    assert Sent(a + b) == Sent(a) + Sent(b);
    assert p.out + Sent(a) + Sent(b) == p.out + (Sent(a) + Sent(b));
    assert p.man.requests + a + b == p.man.requests + (a + b);
  }

  lemma {:induction false} AddOneSends(s: PeerState, b: BlockInfo, now: nat)
    ensures Sends(s, AddOne(s, b, now), if Add(s.man, b, now).1 then [b] else [])
  {
    assert Sent([b]) == [SendRequest(b)] && Sent([]) == [];
    assert s.man.requests + [] == s.man.requests && s.out + [] == s.out;
  }

  lemma {:induction false} AddsSend(s: PeerState, blocks: seq<BlockInfo>, now: nat, sends: nat, n: nat) returns (sent: seq<BlockInfo>)
    requires n <= |blocks|
    ensures var r := Adds(s, blocks, now, sends, n);
      && Sends(s, r.state, sent)
      && (if r.ok then |sent| + r.left == sends else |sent| == sends + 1)
  {
    if n == 0 {
      sent := [];
      assert s.man.requests + [] == s.man.requests && s.out + Sent([]) == s.out;
    } else {
      sent := AddsSend(s, blocks, now, sends, n - 1);
      var before := Adds(s, blocks, now, sends, n - 1);
      if before.ok {
        AddOneSends(before.state, blocks[n - 1], now);
        var next := if Add(before.state.man, blocks[n - 1], now).1 then [blocks[n - 1]] else [];
        SendsTwice(s, before.state, AddOne(before.state, blocks[n - 1], now), sent, next);
        sent := sent + next;
      }
    }
  }

  lemma {:induction false} RefillSends(s: PeerState)
    ensures Sends(s, Refill(s).0, [])
  {
    assert s.man.requests + [] == s.man.requests && s.out + Sent([]) == s.out;
  }

  /** A round hands to the connection a request for each block that comes in flight,
      in that order, and nothing else; it is cut short exactly if one more block
      came in flight than sends succeed. */
  lemma {:induction false} RoundSends(s: PeerState, reply: Option<seq<BlockInfo>>, now: nat, sends: nat) returns (sent: seq<BlockInfo>)
    ensures var o := RequestRound(s, reply, now, sends);
      && Sends(s, o.state, sent)
      && (if o.ok then |sent| <= sends else |sent| == sends + 1)
  {
    hide Sends, Adds;
    var blocks := Given(reply);
    sent := AddsSend(s, blocks, now, sends, |blocks|);
    var first := Adds(s, blocks, now, sends, |blocks|);
    if first.ok {
      var (s2, more) := Refill(first.state);
      RefillSends(first.state);
      var later := AddsSend(s2, more, now, first.left, |more|);
      var second := Adds(s2, more, now, first.left, |more|);
      SendsTwice(first.state, s2, second.state, [], later);
      SendsTwice(s, first.state, second.state, sent, [] + later);
      assert [] + later == later;
      sent := sent + later;
    }
  }

  // ---- blocks that fit --------------------------------------------------------------------------

  /** While there is room nothing is parked: each block is in flight afterwards, or is
      fulfilled already. */
  lemma {:induction false} AddAllFits(s: PeerState, blocks: seq<BlockInfo>, now: nat, n: nat)
    requires n <= |blocks| && |s.man.index| + n <= s.man.limit
    ensures var r := AddAll(s, blocks, now, n);
      && r.man.queue == s.man.queue && r.endgameQueue == s.endgameQueue
      && r.man.limit == s.man.limit && r.man.fulfilled == s.man.fulfilled
      && |r.man.index| <= |s.man.index| + n
      && (forall b :: b in s.man.index ==> b in r.man.index)
      && (forall i :: 0 <= i < n ==> blocks[i] in r.man.index || blocks[i] in s.man.fulfilled)
  {
    if n > 0 {
      AddAllFits(s, blocks, now, n - 1);
    }
  }

  lemma {:induction false} NewFits(s: PeerState, b: BlockInfo, now: nat)
    requires |s.man.index| < s.man.limit && b !in s.man.index && b !in s.man.fulfilled
    ensures var r := AddOne(s, b, now).man;
      r.index.Keys == s.man.index.Keys + {b} && |r.index| == |s.man.index| + 1
      && r.fulfilled == s.man.fulfilled && r.limit == s.man.limit
  {
    assert AddOne(s, b, now).man.index.Keys == s.man.index.Keys + {b};
  }

  lemma {:induction false} LastIsNew(blocks: seq<BlockInfo>, n: nat)
    requires 0 < n <= |blocks| && NoDuplicates(blocks)
    ensures blocks[n - 1] !in blocks[..n - 1] && blocks[..n] == blocks[..n - 1] + [blocks[n - 1]]
  {
  }

  /** New blocks that fit all come in flight. */
  lemma {:induction false} AddAllAccepts(s: PeerState, blocks: seq<BlockInfo>, now: nat, n: nat)
    requires n <= |blocks| && |s.man.index| + n <= s.man.limit && NoDuplicates(blocks)
    requires forall i :: 0 <= i < n ==> blocks[i] !in s.man.index && blocks[i] !in s.man.fulfilled
    ensures var r := AddAll(s, blocks, now, n).man;
      && |r.index| == |s.man.index| + n && r.fulfilled == s.man.fulfilled && r.limit == s.man.limit
      && (forall b :: b in r.index.Keys <==> b in s.man.index || b in blocks[..n])
  {
    if n > 0 {
      LastIsNew(blocks, n);
      hide AddOne, NoDuplicates;
      AddAllAccepts(s, blocks, now, n - 1);
      NewFits(AddAll(s, blocks, now, n - 1), blocks[n - 1], now);
    }
  }

  // ---- rounds that are not cut short -----------------------------------------------------------------

  /** The peer after it took up what the disk gave. */
  function Taken(s: PeerState, reply: Option<seq<BlockInfo>>, now: nat): PeerState {
    AddAll(s, Given(reply), now, |Given(reply)|)
  }

  lemma {:induction false} UnbrokenRound(s: PeerState, reply: Option<seq<BlockInfo>>, now: nat, sends: nat)
    requires RequestRound(s, reply, now, sends).ok
    ensures var (q, more) := Refill(Taken(s, reply, now));
      RequestRound(s, reply, now, sends).state == AddAll(q, more, now, |more|)
  {
    var blocks := Given(reply);
    var first := Adds(s, blocks, now, sends, |blocks|);
    AddsTakesFirst(s, blocks, now, sends, |blocks|);
    var (q, more) := Refill(first.state);
    AddsTakesFirst(q, more, now, first.left, |more|);
  }

  /** Apart and coherent, and what waits was waiting before or is among the first `n`
      of some blocks. */
  ghost predicate Ordered(s: PeerState, r: PeerState, blocks: seq<BlockInfo>, n: nat)
    requires n <= |blocks|
  {
    && Coherent(r.man) && Apart(r.man) && r.man.limit == s.man.limit
    && (forall b :: b in r.man.queue ==> b in s.man.queue || b in blocks[..n])
    && (forall b :: b in s.man.queue ==> b in r.man.queue)
    && (forall b :: b in s.man.index ==> b in r.man.index)
  }

  lemma {:induction false} AddOneOrders(s: PeerState, b: BlockInfo, now: nat)
    requires Coherent(s.man) && Apart(s.man) && b !in s.man.queue
    ensures var r := AddOne(s, b, now);
      && Coherent(r.man) && Apart(r.man) && r.man.limit == s.man.limit
      && (forall x :: x in r.man.queue ==> x in s.man.queue || x == b)
      && (forall x :: x in s.man.queue ==> x in r.man.queue)
      && (forall x :: x in s.man.index ==> x in r.man.index)
  {
    AddApartIff(s.man, b, now);
    ApplyKeepsCoherence(s.man, AddOp(b, now));
    hide Coherent, Apart;
  }

  lemma {:induction false} OrderedNext(s: PeerState, q: PeerState, blocks: seq<BlockInfo>, n: nat, now: nat)
    requires 0 < n <= |blocks| && Ordered(s, q, blocks, n - 1) && blocks[n - 1] !in q.man.queue
    ensures Ordered(s, AddOne(q, blocks[n - 1], now), blocks, n)
  {
    AddOneOrders(q, blocks[n - 1], now);
    hide Coherent, Apart, AddOne;
    assert blocks[..n] == blocks[..n - 1] + [blocks[n - 1]];
  }

  lemma {:induction false} TakenIsApart(s: PeerState, blocks: seq<BlockInfo>, now: nat, n: nat)
    requires n <= |blocks| && Coherent(s.man) && Apart(s.man) && NoDuplicates(blocks)
    requires forall b :: b in blocks ==> b !in s.man.queue
    ensures Ordered(s, AddAll(s, blocks, now, n), blocks, n)
  {
    if n > 0 {
      TakenIsApart(s, blocks, now, n - 1);
      var before := AddAll(s, blocks, now, n - 1);
      assert blocks[n - 1] in blocks && blocks[n - 1] !in blocks[..n - 1];
      assert blocks[n - 1] !in before.man.queue;
      hide Ordered, AddOne;
      OrderedNext(s, before, blocks, n, now);
    }
  }

  /** What a filled round leaves: the room is used up or nobody waits, the blocks that
      waited longest went first, and all that left are in flight. */
  ghost predicate Filled(s: PeerState, r: PeerState) {
    && (|r.man.index| >= r.man.limit || r.man.queue == [])
    && |r.man.queue| <= |s.man.queue| && r.man.queue == s.man.queue[|s.man.queue| - |r.man.queue|..]
    && (forall b :: b in s.man.queue ==> b in r.man.queue || b in r.man.index)
    && (forall b :: b in s.man.index ==> b in r.man.index)
  }

  lemma {:induction false} WaitingRefill(s: PeerState)
    requires s.man.queue != []
    ensures var (q, more) := Refill(s); var k := Min(Room(s.man), |s.man.queue|);
      && (k > 0 ==> more == s.man.queue[..k])
      && (k == 0 ==> more == [])
      && q.man == s.man.(queue := s.man.queue[k..])
  {
  }

  lemma {:induction false} WaitingFill(s: PeerState, now: nat)
    requires Coherent(s.man) && Apart(s.man) && s.man.queue != []
    ensures var (q, more) := Refill(s); Filled(s, AddAll(q, more, now, |more|))
  {
    var (q, more) := Refill(s);
    WaitingRefill(s);
    if Room(s.man) > 0 {
      MoreFill(s, q, more, now);
    } else {
      NoneFill(s, q);
      assert AddAll(q, more, now, 0) == q;
    }
  }

  lemma {:induction false} NoneFill(s: PeerState, q: PeerState)
    requires Room(s.man) == 0 && q.man == s.man.(queue := s.man.queue[0..])
    ensures Filled(s, q)
  {
  }

  lemma {:induction false} MoreFill(s: PeerState, q: PeerState, more: seq<BlockInfo>, now: nat)
    requires Apart(s.man) && s.man.queue != [] && Room(s.man) > 0
    requires var k := Min(Room(s.man), |s.man.queue|);
      more == s.man.queue[..k] && q.man == s.man.(queue := s.man.queue[k..])
    ensures Filled(s, AddAll(q, more, now, |more|))
  {
    var k := |more|;
    FirstWaiting(s.man, k);
    hide AddAll, Apart, NoDuplicates, Filled;
    AddAllFits(q, more, now, k);
    AddAllAccepts(q, more, now, k);
    assert more[..k] == more;
    forall i | 0 <= i < k ensures s.man.queue[i] in AddAll(q, more, now, k).man.index {
      assert more[i] in more;
    }
    FilledWith(s, q, AddAll(q, more, now, k), k);
  }

  lemma {:induction false} FilledWith(s: PeerState, q: PeerState, r: PeerState, k: nat)
    requires k == Min(Room(s.man), |s.man.queue|) && k > 0
    requires q.man == s.man.(queue := s.man.queue[k..]) && r.man.queue == q.man.queue && r.man.limit == s.man.limit
    requires |r.man.index| == |s.man.index| + k
    requires forall b :: b in s.man.index ==> b in r.man.index
    requires forall i :: 0 <= i < k ==> s.man.queue[i] in r.man.index
    ensures Filled(s, r)
  {
    forall b | b in s.man.queue ensures b in r.man.queue || b in r.man.index {
      var i :| 0 <= i < |s.man.queue| && s.man.queue[i] == b;
      assert i >= k ==> r.man.queue[i - k] == b;
    }
  }

  lemma {:induction false} FirstWaiting(m: Manager<BlockInfo>, k: nat)
    requires Apart(m) && k <= |m.queue|
    ensures NoDuplicates(m.queue[..k])
    ensures forall i :: 0 <= i < k ==> m.queue[..k][i] !in m.index && m.queue[..k][i] !in m.fulfilled
  {
    forall i | 0 <= i < k ensures m.queue[..k][i] in m.queue {
      assert m.queue[..k][i] == m.queue[i];
    }
  }

  /** The first `k` copied blocks have left the list of copies and are in flight or
      fulfilled. */
  ghost predicate TakesCopies(s: PeerState, r: PeerState, k: nat) {
    && k <= |s.endgameQueue| && r.endgameQueue == s.endgameQueue[k..]
    && forall i :: 0 <= i < k ==> s.endgameQueue[i] in r.man.index || s.endgameQueue[i] in s.man.fulfilled
  }

  lemma {:induction false} EmptyRefill(s: PeerState)
    requires s.man.queue == []
    ensures var (q, more) := Refill(s); var k := Min(Room(s.man), |s.endgameQueue|);
      more == s.endgameQueue[..k] && q == s.(endgameQueue := s.endgameQueue[k..])
  {
  }

  function Refilled(s: PeerState, now: nat): PeerState {
    var (q, more) := Refill(s);
    AddAll(q, more, now, |more|)
  }

  lemma {:induction false} FirstCopiesFit(s: PeerState, q: PeerState, now: nat, k: nat)
    requires k == Min(Room(s.man), |s.endgameQueue|) && q == s.(endgameQueue := s.endgameQueue[k..])
    ensures var r := AddAll(q, s.endgameQueue[..k], now, k);
      && r.man.queue == s.man.queue && r.endgameQueue == s.endgameQueue[k..]
      && (forall b :: b in s.man.index ==> b in r.man.index)
      && (forall i :: 0 <= i < k ==> s.endgameQueue[..k][i] in r.man.index || s.endgameQueue[..k][i] in s.man.fulfilled)
  {
    if k > 0 {
      AddAllFits(q, s.endgameQueue[..k], now, k);
    }
  }

  lemma {:induction false} NobodyWaits(s: PeerState, now: nat)
    requires s.man.queue == []
    ensures Filled(s, Refilled(s, now))
  {
    EmptyRefill(s);
    FirstCopiesFit(s, Refill(s).0, now, Min(Room(s.man), |s.endgameQueue|));
    hide Refill, AddAll;
  }

  lemma {:induction false} CopiesAreTaken(s: PeerState, now: nat)
    requires s.man.queue == []
    ensures TakesCopies(s, Refilled(s, now), Min(Room(s.man), |s.endgameQueue|))
  {
    var k := Min(Room(s.man), |s.endgameQueue|);
    EmptyRefill(s);
    FirstCopiesFit(s, Refill(s).0, now, k);
    hide Refill, AddAll;
    forall i | 0 <= i < k ensures s.endgameQueue[i] in Refilled(s, now).man.index || s.endgameQueue[i] in s.man.fulfilled {
      assert s.endgameQueue[..k][i] == s.endgameQueue[i];
    }
  }

  lemma {:induction false} InFlightWasSent(s: PeerState, r: PeerState, sent: seq<BlockInfo>, b: BlockInfo)
    requires Coherent(s.man) && Pointing(r.man) && Sends(s, r, sent)
    requires b in r.man.index && b !in s.man.index
    ensures SendRequest(b) in r.out
  {
    var i := r.man.index[b];
    assert forall j :: 0 <= j < |s.man.requests| ==> s.man.requests[j] in s.man.index && r.man.requests[j] == s.man.requests[j];
    assert Sent(sent)[i - |s.man.requests|] == SendRequest(b);
    assert r.out[|s.out| + (i - |s.man.requests|)] == SendRequest(b);
  }

  /** After a round that was not cut short either the limit is reached or no block
      waits, and every block that left the waiting list, those that waited longest
      first, is in flight. The disk gave blocks that were not waiting already. */
  lemma {:induction false} RoundFills(s: PeerState, reply: Option<seq<BlockInfo>>, now: nat, sends: nat)
    requires Coherent(s.man) && Apart(s.man) && RequestRound(s, reply, now, sends).ok
    requires NoDuplicates(Given(reply)) && forall b :: b in Given(reply) ==> b !in s.man.queue
    ensures Filled(Taken(s, reply, now), RequestRound(s, reply, now, sends).state)
    ensures var r := RequestRound(s, reply, now, sends).state;
      forall b :: b in s.man.queue ==> b in r.man.queue || (b in r.man.index && SendRequest(b) in r.out)
  {
    var first, r := Taken(s, reply, now), RequestRound(s, reply, now, sends).state;
    TakenIsApart(s, Given(reply), now, |Given(reply)|);
    assert Ordered(s, first, Given(reply), |Given(reply)|);
    UnbrokenRound(s, reply, now, sends);
    var sent := RoundSends(s, reply, now, sends);
    PeerRuns.RoundEffect(s, reply, now, sends, BlockInfo(0, 0, 0));
    hide Taken, RequestRound, Refill;
    if first.man.queue != [] {
      WaitingFill(first, now);
    } else {
      NobodyWaits(first, now);
    }
    forall b | b in s.man.queue && b !in r.man.queue ensures b in r.man.index && SendRequest(b) in r.out {
      InFlightWasSent(s, r, sent, b);
    }
  }

  /** The block is in flight and was requested, unless it was in flight before or is
      fulfilled. */
  ghost predicate RequestedNow(s: PeerState, r: PeerState, b: BlockInfo) {
    b in s.man.index || b in s.man.fulfilled || (b in r.man.index && SendRequest(b) in r.out)
  }

  /** As many copied blocks as the manager `m` has room for have left the list of
      copies, the first ones first, and are requested. */
  ghost predicate Copied(s: PeerState, m: Manager<BlockInfo>, r: PeerState) {
    var k := Min(Max(m.limit - |m.index|, 0), |s.endgameQueue|);
    && r.endgameQueue == s.endgameQueue[k..]
    && forall i :: 0 <= i < k ==> RequestedNow(s, r, s.endgameQueue[i])
  }

  /** If nobody waits after the answer of the disk, the room is filled with the blocks
      copied first: they leave the list of copies, and each is requested unless it is
      in flight or fulfilled already. */
  lemma {:induction false} RoundCopies(s: PeerState, reply: Option<seq<BlockInfo>>, now: nat, sends: nat)
    requires Coherent(s.man) && Coherent(Taken(s, reply, now).man) && Taken(s, reply, now).man.queue == []
    requires RequestRound(s, reply, now, sends).ok
    ensures Copied(s, Taken(s, reply, now).man, RequestRound(s, reply, now, sends).state)
  {
    var first, r := Taken(s, reply, now), RequestRound(s, reply, now, sends).state;
    TakenKeepsCopies(s, Given(reply), now, |Given(reply)|);
    UnbrokenRound(s, reply, now, sends);
    var sent := RoundSends(s, reply, now, sends);
    PeerRuns.RoundEffect(s, reply, now, sends, BlockInfo(0, 0, 0));
    CopiesAreTaken(first, now);
    hide Taken, RequestRound, Refill, Filled;
    var k := Min(Max(first.man.limit - |first.man.index|, 0), |s.endgameQueue|);
    forall i | 0 <= i < k ensures RequestedNow(s, r, s.endgameQueue[i]) {
      if s.endgameQueue[i] !in s.man.index && s.endgameQueue[i] !in s.man.fulfilled {
        InFlightWasSent(s, r, sent, s.endgameQueue[i]);
      }
    }
  }

  lemma {:induction false} TakenKeepsCopies(s: PeerState, blocks: seq<BlockInfo>, now: nat, n: nat)
    requires n <= |blocks|
    ensures var r := AddAll(s, blocks, now, n); r.endgameQueue == s.endgameQueue && r.man.fulfilled == s.man.fulfilled
  {
    if n > 0 {
      TakenKeepsCopies(s, blocks, now, n - 1);
    }
  }
}
