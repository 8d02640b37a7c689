/** That the steps of the protocol lead somewhere: a newcomer that announces pieces is
    asked for every block of those that are missing, and once it has sent what it was
    asked for, in any order, each block has been written and nothing is left open. */
module AllocationProgress {
  import opened Basics
  import opened Metainfo
  import opened DiskModel
  import opened RequestModel
  import opened RequestCoherence
  import opened PeerModel
  import opened PeerRounds
  import opened TorrentModel
  import opened Allocation
  import opened AllocationMoves

  // ---- a peer that answers ---------------------------------------------------------------

  /** From event `i` on only this peer does something: it sends blocks. */
  predicate Answers(es: seq<Event>, i: nat, k: nat, j: nat)
    requires i <= k <= |es|
  {
    i == k || (Answers(es, i, k - 1, j) && es[k - 1].BlockEvent? && es[k - 1].peer == j)
  }

  function Arrived(es: seq<Event>, i: nat, k: nat): multiset<BlockInfo>
    requires i <= k <= |es|
  {
    if i == k then multiset{} else
      Arrived(es, i, k - 1) + if es[k - 1].BlockEvent? then multiset{es[k - 1].block.Info()} else multiset{}
  }

  ghost predicate Ready(s: System, j: nat) {
    j < |s.peers| && Coherent(s.peers[j].state.man) && Apart(s.peers[j].state.man) && !s.peers[j].state.seedOnly
  }

  ghost function Open(s: System, j: nat): multiset<BlockInfo>
    requires j < |s.peers|
  {
    Outstanding(s.peers[j].state.man)
  }

  lemma {:induction false} OutstandingIsNew(m: Manager<BlockInfo>, b: BlockInfo)
    requires Coherent(m) && Apart(m) && b in Outstanding(m)
    ensures b !in m.fulfilled && !(b in m.queue && b in m.index)
  {
    if b in m.requests {
      var i :| 0 <= i < |m.requests| && m.requests[i] == b;
      assert m.requests[i] in m.index;
    }
  }

  lemma {:induction false} OneArrives(s: System, j: nat, b: Block, now: nat)
    requires Ready(s, j) && b.Info() in Open(s, j)
    ensures var r := Arrive(s, j, b, now);
      && |r.peers| == |s.peers| && Ready(r, j) && Open(r, j) == Open(s, j) - multiset{b.Info()}
      && r.written == s.written + multiset{b.Info()} && r.dropped == s.dropped
  {
    var m := s.peers[j].state.man;
    OutstandingIsNew(m, b.Info());
    FulfillConserves(m, b.Info(), now);
    FulfillKeepsCoherence(m, b.Info(), now);
    FulfillApartIff(m, b.Info(), now);
    assert Arrive(s, j, b, now).peers[j].state.man == Fulfill(m, b.Info(), now).0;
    hide Coherent, Apart, Fulfill, Outstanding;
  }

  lemma {:induction false} Less(all: multiset<BlockInfo>, a: multiset<BlockInfo>, b: BlockInfo)
    requires a + multiset{b} <= all
    ensures a <= all && b in all - a && all - a - multiset{b} == all - (a + multiset{b})
  {
    assert (a + multiset{b})[b] <= all[b];
    forall x ensures a[x] <= all[x] {
      assert (a + multiset{b})[x] <= all[x];
    }
  }

  lemma {:induction false} RunStep(t: Torrent, s: System, es: seq<Event>, k: nat)
    requires 0 < k <= |es|
    ensures Run(t, s, es, k) == Step(t, Run(t, s, es, k - 1), es[k - 1])
  {
  }

  lemma {:induction false} BlockStep(t: Torrent, s: System, j: nat, b: Block, now: nat)
    requires Ready(s, j)
    ensures ValidPeer(s.peers[j].state) && Step(t, s, BlockEvent(j, b, now)) == Arrive(s, j, b, now)
  {
  }

  /** From `a` to `r` these blocks came in at the peer: they were written and are not
      open any more. */
  ghost predicate Closed(a: System, r: System, j: nat, blocks: multiset<BlockInfo>) {
    && |r.peers| == |a.peers| && Ready(a, j) && Ready(r, j)
    && Open(r, j) == Open(a, j) - blocks
    && r.written == a.written + blocks && r.dropped == a.dropped
  }

  lemma {:induction false} NothingClosed(s: System, j: nat)
    requires Ready(s, j)
    ensures Closed(s, s, j, multiset{})
  {
    hide Ready, Open;
  }

  lemma {:induction false} OneCloses(t: Torrent, a: System, s: System, e: Event, j: nat, before: multiset<BlockInfo>)
    requires Closed(a, s, j, before) && e.BlockEvent? && e.peer == j
    requires before + multiset{e.block.Info()} <= Open(a, j)
    ensures Closed(a, Step(t, s, e), j, before + multiset{e.block.Info()})
  {
    var b := e.block.Info();
    Less(Open(a, j), before, b);
    BlockStep(t, s, j, e.block, e.now);
    OneArrives(s, j, e.block, e.now);
    hide Step, Ready, Open, Arrive;
    assert a.written + before + multiset{b} == a.written + (before + multiset{b});
  }

  lemma {:induction false} LastAnswer(es: seq<Event>, i: nat, k: nat, j: nat)
    requires i < k <= |es| && Answers(es, i, k, j)
    ensures Answers(es, i, k - 1, j) && es[k - 1].BlockEvent? && es[k - 1].peer == j
    ensures Arrived(es, i, k) == Arrived(es, i, k - 1) + multiset{es[k - 1].block.Info()}
  {
  }

  lemma {:induction false} NoAnswer(es: seq<Event>, i: nat)
    requires i <= |es|
    ensures Arrived(es, i, i) == multiset{}
  {
  }

  /** Blocks that were asked for may come in any order: each is written, once, and
      leaves what is open at the peer. */
  lemma {:induction false} AnswersClose(t: Torrent, s: System, es: seq<Event>, i: nat, k: nat, j: nat)
    requires i <= k <= |es| && Answers(es, i, k, j)
    requires j < |Run(t, s, es, i).peers| && Ready(Run(t, s, es, i), j)
    requires Arrived(es, i, k) <= Open(Run(t, s, es, i), j)
    ensures Closed(Run(t, s, es, i), Run(t, s, es, k), j, Arrived(es, i, k))
    decreases k
  {
    hide Step, Run, Ready, Open, Closed, Answers, Arrived;
    var a := Run(t, s, es, i);
    if i == k {
      NoAnswer(es, i);
      NothingClosed(a, j);
    } else {
      LastAnswer(es, i, k, j);
      Less(Open(a, j), Arrived(es, i, k - 1), es[k - 1].block.Info());
      AnswersClose(t, s, es, i, k - 1, j);
      RunStep(t, s, es, k);
      OneCloses(t, a, Run(t, s, es, k - 1), es[k - 1], j, Arrived(es, i, k - 1));
    }
  }

  // ---- a newcomer is asked ---------------------------------------------------------------------

  /** Exactly the first `n` blocks are in flight, in their order. */
  ghost predicate Took(m: Manager<BlockInfo>, blocks: seq<BlockInfo>, n: nat)
    requires n <= |blocks|
  {
    m.requests == blocks[..n] && m.queue == [] && Coherent(m)
  }

  lemma {:induction false} TookNext(q: PeerState, blocks: seq<BlockInfo>, n: nat, now: nat)
    requires 0 < n <= |blocks| && Took(q.man, blocks, n - 1)
    requires |q.man.index| < q.man.limit && blocks[n - 1] !in q.man.index && blocks[n - 1] !in q.man.fulfilled
    ensures Took(AddOne(q, blocks[n - 1], now).man, blocks, n)
  {
    ApplyKeepsCoherence(q.man, AddOp(blocks[n - 1], now));
    hide Coherent;
    assert blocks[..n - 1] + [blocks[n - 1]] == blocks[..n];
  }

  lemma {:induction false} FreshAccepts(blocks: seq<BlockInfo>, now: nat, n: nat)
    requires n <= |blocks| <= 500 && NoDuplicates(blocks)
    ensures var m := AddAll(NewPeer(), blocks, now, n).man;
      && |m.index| == n && m.fulfilled == {} && m.limit == 500
      && (forall b :: b in m.index ==> b in blocks[..n])
  {
    AddAllAccepts(NewPeer(), blocks, now, n);
    hide AddAll, NoDuplicates;
    assert forall b :: b in AddAll(NewPeer(), blocks, now, n).man.index.Keys ==> b in blocks[..n];
  }

  lemma {:induction false} NextIsNew(blocks: seq<BlockInfo>, now: nat, n: nat)
    requires 0 < n <= |blocks| <= 500 && NoDuplicates(blocks)
    ensures var m := AddAll(NewPeer(), blocks, now, n - 1).man;
      |m.index| < m.limit && blocks[n - 1] !in m.index && blocks[n - 1] !in m.fulfilled
  {
    FreshAccepts(blocks, now, n - 1);
    LastIsNew(blocks, n);
    hide AddAll, NoDuplicates;
  }

  lemma {:induction false} NothingTaken(blocks: seq<BlockInfo>, now: nat)
    ensures Took(AddAll(NewPeer(), blocks, now, 0).man, blocks, 0)
  {
  }

  lemma {:induction false} AllTakenInOrder(blocks: seq<BlockInfo>, now: nat, n: nat)
    requires n <= |blocks| <= 500 && NoDuplicates(blocks)
    ensures Took(AddAll(NewPeer(), blocks, now, n).man, blocks, n)
  {
    hide AddOne, NoDuplicates, Took, NewPeer;
    if n == 0 {
      NothingTaken(blocks, now);
    } else {
      AllTakenInOrder(blocks, now, n - 1);
      NextIsNew(blocks, now, n);
      TookNext(AddAll(NewPeer(), blocks, now, n - 1), blocks, n, now);
    }
  }

  lemma {:induction false} FreshTakesAll(blocks: seq<BlockInfo>, now: nat, n: nat)
    requires n <= |blocks| <= 500 && NoDuplicates(blocks)
    ensures var r := AddAll(NewPeer(), blocks, now, n);
      && r.man.requests == blocks[..n] && r.man.queue == [] && Coherent(r.man) && Apart(r.man)
      && r.endgameQueue == [] && !r.seedOnly
  {
    AllTakenInOrder(blocks, now, n);
    FreshAccepts(blocks, now, n);
    TakenKeepsCopies(NewPeer(), blocks, now, n);
    KeepsSeedOnly(NewPeer(), blocks, now, n);
  }

  lemma {:induction false} KeepsSeedOnly(s: PeerState, blocks: seq<BlockInfo>, now: nat, n: nat)
    requires n <= |blocks|
    ensures AddAll(s, blocks, now, n).seedOnly == s.seedOnly
  {
    if n > 0 {
      KeepsSeedOnly(s, blocks, now, n - 1);
    }
  }

  lemma {:induction false} NothingToRefill(s: PeerState, now: nat, sends: nat)
    requires s.man.queue == [] && s.endgameQueue == []
    ensures var (q, more) := Refill(s); more == [] && q == s && Adds(q, more, now, sends, 0) == Progress(s, sends, 0, true)
  {
  }

  /** A peer just connected requests all it is given, if that is at most 500 blocks and
      no send fails. */
  lemma {:induction false} FreshRound(blocks: seq<BlockInfo>, now: nat, sends: nat)
    requires |blocks| <= 500 && |blocks| <= sends && NoDuplicates(blocks)
    ensures var o := RequestRound(NewPeer(), Some(blocks), now, sends);
      && o.ok && o.dropped == [] && o.state.out == Sent(blocks) && !o.state.seedOnly
      && o.state.man.requests == blocks && o.state.man.queue == [] && Coherent(o.state.man) && Apart(o.state.man)
  {
    var first := Adds(NewPeer(), blocks, now, sends, |blocks|);
    var sent := AddsSend(NewPeer(), blocks, now, sends, |blocks|);
    AddsTakesFirst(NewPeer(), blocks, now, sends, |blocks|);
    FreshTakesAll(blocks, now, first.taken);
    hide Coherent, Apart, Adds, AddAll, NoDuplicates, Refill;
    assert [] + sent == sent && [] + Sent(sent) == Sent(sent);
    assert |sent| == first.taken;
    assert first.ok;
    assert blocks[..|blocks|] == blocks;
    NothingToRefill(first.state, now, first.left);
  }

  /** The pieces a peer with this bitfield is asked for when nothing was handed out. */
  function Wanted(have: seq<bool>, bits: seq<bool>, wanted: nat): seq<nat> {
    Want(Missing(Resize(bits, |have|), have), Unset(|have|), wanted, 0).0
  }

  function AskedFor(t: Torrent, have: seq<bool>, bits: seq<bool>, wanted: nat): seq<BlockInfo> {
    BlocksOfPieces(t.total, t.pl, Wanted(have, bits, wanted), |Wanted(have, bits, wanted)|)
  }

  /** A peer connects, sends its bitfield, and is served once. */
  predicate Opens(es: seq<Event>, id: PeerId, bits: seq<bool>, wanted: nat) {
    && |es| >= 5 && es[0] == JoinEvent(id) && es[1] == BitfieldEvent(id, bits) && es[2] == RequestEvent(id, wanted)
    && es[3].ServeEvent? && es[3].msg == 0
    && es[4].RoundEvent? && es[4].peer == 0 && es[4].msg == 0
  }

  /** One peer is connected and has nothing yet, and nothing was served. */
  ghost predicate Alone(s: System, id: PeerId) {
    && s.peers == [Conn(id, NewPeer())] && s.disk.queue == [] && !s.disk.endgame
    && s.written == multiset{} && s.dropped == multiset{}
  }

  lemma {:induction false} Connects(t: Torrent, image: seq<byte>, have: seq<bool>, id: PeerId, bits: seq<bool>)
    ensures var s := Step(t, Step(t, Outset(image, have), JoinEvent(id)), BitfieldEvent(id, bits));
      && Alone(s, id) && s.pool == [] && s.torrent.req == Unset(|have|)
      && id in s.torrent.diff && s.torrent.diff[id] == Missing(Resize(bits, |have|), have)
      && id in s.torrent.peerPieces
  {
  }

  lemma {:induction false} IsAsked(t: Torrent, s: System, id: PeerId, have: seq<bool>, bits: seq<bool>, wanted: nat)
    requires Alone(s, id) && s.pool == [] && s.torrent.req == Unset(|have|)
    requires id in s.torrent.diff && s.torrent.diff[id] == Missing(Resize(bits, |have|), have)
    requires id in s.torrent.peerPieces
    ensures var r := Step(t, s, RequestEvent(id, wanted));
      && Alone(r, id) && |r.pool| == 1
      && r.pool[0].Ask? && r.pool[0].id == id && r.pool[0].pieces == Wanted(have, bits, wanted)
  {
  }

  lemma {:induction false} IsServed(t: Torrent, s: System, id: PeerId, pending: nat)
    requires Alone(s, id) && |s.pool| == 1 && s.pool[0].Ask? && s.pool[0].id == id
    ensures var r, pieces := Step(t, s, ServeEvent(0, pending)), s.pool[0].pieces;
      && r.peers == s.peers && r.written == s.written && r.dropped == s.dropped
      && r.pool == [Reply(id, BlocksOfPieces(t.total, t.pl, pieces, |pieces|))]
  {
    var made := BlocksOfPieces(t.total, t.pl, s.pool[0].pieces, |s.pool[0].pieces|);
    assert Popped([], 0) == [] && made + [] == made;
  }

  lemma {:induction false} AskedForOnce(t: Torrent, have: seq<bool>, bits: seq<bool>, wanted: nat, b: BlockInfo)
    ensures multiset(AskedFor(t, have, bits, wanted))[b] ==
      if b.index in Wanted(have, bits, wanted) && b in PieceBlocks(t.total, t.pl, b.index) then 1 else 0
  {
    var pieces := Wanted(have, bits, wanted);
    WantIsFirstEligible(Missing(Resize(bits, |have|), have), Unset(|have|), wanted, 0);
    MadeOnce(t.total, t.pl, pieces, |pieces|, b);
    AmongIff(pieces, |pieces|, b.index);
    assert pieces[..|pieces|] == pieces;
  }

  lemma {:induction false} AskedForIsDistinct(t: Torrent, have: seq<bool>, bits: seq<bool>, wanted: nat)
    ensures NoDuplicates(AskedFor(t, have, bits, wanted))
  {
    forall b ensures multiset(AskedFor(t, have, bits, wanted))[b] <= 1 {
      AskedForOnce(t, have, bits, wanted, b);
    }
    OnceIsDistinct(AskedFor(t, have, bits, wanted));
  }

  /** After it was served once the newcomer has been sent a request for exactly these
      blocks, and has all of them in flight. */
  lemma {:induction false} NewcomerIsAsked(t: Torrent, image: seq<byte>, have: seq<bool>, es: seq<Event>, id: PeerId, bits: seq<bool>, wanted: nat)
    requires Opens(es, id, bits, wanted)
    requires |AskedFor(t, have, bits, wanted)| <= Min(500, es[4].sends)
    ensures var s := Run(t, Outset(image, have), es, 5); var blocks := AskedFor(t, have, bits, wanted);
      && |s.peers| == 1 && s.peers[0].state.out == Sent(blocks) && Ready(s, 0) && Open(s, 0) == multiset(blocks)
      && s.written == multiset{} && s.dropped == multiset{}
  {
    var o, blocks := Outset(image, have), AskedFor(t, have, bits, wanted);
    Connects(t, image, have, id, bits);
    var s2 := Step(t, Step(t, o, es[0]), es[1]);
    IsAsked(t, s2, id, have, bits, wanted);
    var s3 := Step(t, s2, es[2]);
    IsServed(t, s3, id, es[3].pending);
    var s4 := Step(t, s3, es[3]);
    AskedForIsDistinct(t, have, bits, wanted);
    FreshRound(blocks, es[4].now, es[4].sends);
    IsPlayed(t, s4, id, blocks, es[4].now, es[4].sends);
    hide Step, Ready, Open, Alone, AskedFor;
    assert Run(t, o, es, 0) == o;
    RunStep(t, o, es, 1);
    RunStep(t, o, es, 2);
    RunStep(t, o, es, 3);
    RunStep(t, o, es, 4);
    RunStep(t, o, es, 5);
  }

  lemma {:induction false} IsDelivered(t: Torrent, s: System, id: PeerId, blocks: seq<BlockInfo>, now: nat, sends: nat)
    requires s.peers == [Conn(id, NewPeer())] && s.pool == [Reply(id, blocks)]
    ensures var r, o := Step(t, s, RoundEvent(0, 0, now, sends)), RequestRound(NewPeer(), Some(blocks), now, sends);
      r.peers == [Conn(id, o.state)] && r.written == s.written && r.dropped == s.dropped + multiset(o.dropped)
  {
    hide RequestRound;
  }

  lemma {:induction false} IsPlayed(t: Torrent, s: System, id: PeerId, blocks: seq<BlockInfo>, now: nat, sends: nat)
    requires s.peers == [Conn(id, NewPeer())] && s.pool == [Reply(id, blocks)]
    requires s.written == multiset{} && s.dropped == multiset{}
    requires |blocks| <= 500 && |blocks| <= sends && NoDuplicates(blocks)
    ensures var r := Step(t, s, RoundEvent(0, 0, now, sends));
      && |r.peers| == 1 && r.peers[0].state.out == Sent(blocks) && Ready(r, 0) && Open(r, 0) == multiset(blocks)
      && r.written == multiset{} && r.dropped == multiset{}
  {
    IsDelivered(t, s, id, blocks, now, sends);
    FreshRound(blocks, now, sends);
    assert multiset(blocks) + multiset([]) == multiset(blocks);
    hide Step, RequestRound, Coherent, Apart, NoDuplicates;
  }

  lemma {:induction false} WantsAllMissing(have: seq<bool>, bits: seq<bool>, p: nat)
    ensures p in Wanted(have, bits, 0) <==> p < |have| && Bit(bits, p) && !have[p]
  {
    var d := Missing(Resize(bits, |have|), have);
    assert Bit(d, p) <==> p < |have| && Bit(bits, p) && !have[p];
    WantIsFirstEligible(d, Unset(|have|), 0, 0);
  }

  /** A block of a piece that is in the bitfield and missing here. */
  ghost predicate Fetched(t: Torrent, have: seq<bool>, bits: seq<bool>, b: BlockInfo) {
    b.index < |have| && Bit(bits, b.index) && !have[b.index] && b in PieceBlocks(t.total, t.pl, b.index)
  }

  lemma {:induction false} AskedForMissing(t: Torrent, have: seq<bool>, bits: seq<bool>, b: BlockInfo)
    ensures multiset(AskedFor(t, have, bits, 0))[b] == if Fetched(t, have, bits, b) then 1 else 0
  {
    AskedForOnce(t, have, bits, 0, b);
    WantsAllMissing(have, bits, b.index);
  }

  /** A newcomer that is asked for everything it has and we miss, and that sends what it
      was asked for in any order, has every block of those pieces written exactly once,
      and no other block; nothing is left open at it or dropped. */
  lemma {:induction false} MissingIsFetched(t: Torrent, image: seq<byte>, have: seq<bool>, es: seq<Event>, k: nat, id: PeerId, bits: seq<bool>)
    requires Opens(es, id, bits, 0) && 5 <= k <= |es| && Answers(es, 5, k, 0)
    requires |AskedFor(t, have, bits, 0)| <= Min(500, es[4].sends)
    requires Arrived(es, 5, k) == multiset(AskedFor(t, have, bits, 0))
    ensures var s := Run(t, Outset(image, have), es, k);
      && |s.peers| == 1 && Open(s, 0) == multiset{} && s.dropped == multiset{}
      && forall b :: s.written[b] == (if Fetched(t, have, bits, b) then 1 else 0)
  {
    NewcomerIsAsked(t, image, have, es, id, bits, 0);
    hide Run, Open, Ready, AskedFor, Outset, Opens, Answers, Fetched;
    AnswersClose(t, Outset(image, have), es, 5, k, 0);
    forall b ensures Run(t, Outset(image, have), es, k).written[b] == (if Fetched(t, have, bits, b) then 1 else 0) {
      AskedForMissing(t, have, bits, b);
    }
  }
}
