/** What one step of the block-sharing protocol does to the blocks handed out: all
    steps but the handing out of pieces only move them, or take one out that is
    written. Holds before endgame and without a corrupted piece. */
module AllocationMoves {
  import opened Basics
  import opened Metainfo
  import opened DiskModel
  import opened RequestModel
  import opened RequestCoherence
  import opened PeerModel
  import opened TorrentModel
  import TorrentRuns
  import opened Allocation

  // ---- invariants -------------------------------------------------------------------------

  /** No block is in two places or twice in one, none in a place was dropped, and
      each belongs to a piece that was handed out. */
  ghost predicate Exclusive(t: Torrent, all: multiset<BlockInfo>, req: seq<bool>) {
    forall b :: b in all ==> all[b] == 1 && Bit(req, b.index) && b in PieceBlocks(t.total, t.pl, b.index)
  }

  /** Every block of every piece handed out is among `all` or has been written. */
  ghost predicate NoneLost(t: Torrent, all: multiset<BlockInfo>, req: seq<bool>, written: multiset<BlockInfo>) {
    forall p: nat, b :: Bit(req, p) && b in PieceBlocks(t.total, t.pl, p) ==> b in all || b in written
  }

  ghost predicate GoodMsg(m: Msg, announced: set<(PeerId, nat)>) {
    match m
    case Ask(id, pieces, bits) =>
      && (forall p: nat :: p in pieces ==> (id, p) in announced)
      && (forall p: nat :: Bit(bits, p) ==> (id, p) in announced)
    case Reply(id, blocks) => forall b :: b in blocks ==> (id, b.index) in announced
    case _ => true
  }

  ghost predicate GoodPeer(c: Conn, written: multiset<BlockInfo>, announced: set<(PeerId, nat)>) {
    && Coherent(c.state.man)
    && c.state.endgameQueue == [] && !c.state.inEndgame
    && (forall b :: b in c.state.man.fulfilled ==> b in written)
    && (forall b :: b in Outstanding(c.state.man) ==> (c.id, b.index) in announced)
    && (forall b :: SendRequest(b) in c.state.out ==> (c.id, b.index) in announced)
  }

  ghost predicate GoodMsgs(s: System) {
    forall i :: 0 <= i < |s.pool| ==> GoodMsg(s.pool[i], s.announced)
  }

  ghost predicate GoodPeers(s: System) {
    forall j :: 0 <= j < |s.peers| ==> GoodPeer(s.peers[j], s.written, s.announced)
  }

  ghost predicate GoodTorrent(s: System) {
    && TorrentRuns.Sound(s.torrent)
    && (forall id, p: nat :: id in s.torrent.peerPieces && Bit(s.torrent.peerPieces[id], p) ==> (id, p) in s.announced)
  }

  ghost predicate Good(t: Torrent, s: System) {
    GoodMsgs(s) && GoodPeers(s) && GoodTorrent(s) && Exclusive(t, Total(t, s), s.torrent.req)
  }

  // ---- sums --------------------------------------------------------------------------------

  lemma {:induction false} SumPrefix(a: seq<multiset<BlockInfo>>, b: seq<multiset<BlockInfo>>, k: nat)
    requires k <= |a| && k <= |b| && forall i :: 0 <= i < k ==> a[i] == b[i]
    ensures Sum(a, k) == Sum(b, k)
  {
    if k > 0 {
      SumPrefix(a, b, k - 1);
    }
  }

  lemma {:induction false} AddToBoth(a: multiset<BlockInfo>, x: multiset<BlockInfo>, b: multiset<BlockInfo>, y: multiset<BlockInfo>, c: multiset<BlockInfo>)
    requires a + x == b + y
    ensures (a + c) + x == (b + c) + y
  {
    assert (a + c) + x == (a + x) + c;
    assert (b + c) + y == (b + y) + c;
  }

  lemma {:induction false} SumUpdate(bags: seq<multiset<BlockInfo>>, i: nat, m: multiset<BlockInfo>, k: nat)
    requires i < k <= |bags|
    ensures Sum(bags[i := m], k) + bags[i] == Sum(bags, k) + m
  {
    if i == k - 1 {
      SumPrefix(bags, bags[i := m], i);
    } else {
      SumUpdate(bags, i, m, k - 1);
      assert bags[i := m][k - 1] == bags[k - 1];
      AddToBoth(Sum(bags[i := m], k - 1), bags[i], Sum(bags, k - 1), m, bags[k - 1]);
    }
  }

  lemma {:induction false} SumAppend(bags: seq<multiset<BlockInfo>>, m: multiset<BlockInfo>)
    ensures Sum(bags + [m], |bags| + 1) == Sum(bags, |bags|) + m
  {
    SumPrefix(bags, bags + [m], |bags|);
  }

  lemma {:induction false} SumIncludes(bags: seq<multiset<BlockInfo>>, i: nat, k: nat)
    requires i < k <= |bags|
    ensures bags[i] <= Sum(bags, k)
  {
    if i < k - 1 {
      SumIncludes(bags, i, k - 1);
    }
  }

  // ---- totals ------------------------------------------------------------------------------

  lemma {:induction false} PoolUpdate(t: Torrent, pool: seq<Msg>, i: nat, m: Msg)
    requires i < |pool|
    ensures Sum(MsgBags(t, pool[i := m]), |pool|) + MsgBag(t, pool[i]) == Sum(MsgBags(t, pool), |pool|) + MsgBag(t, m)
  {
    assert MsgBags(t, pool[i := m]) == MsgBags(t, pool)[i := MsgBag(t, m)];
    SumUpdate(MsgBags(t, pool), i, MsgBag(t, m), |pool|);
  }

  lemma {:induction false} PoolAppend(t: Torrent, pool: seq<Msg>, m: Msg)
    ensures Sum(MsgBags(t, pool + [m]), |pool| + 1) == Sum(MsgBags(t, pool), |pool|) + MsgBag(t, m)
  {
    assert MsgBags(t, pool + [m]) == MsgBags(t, pool) + [MsgBag(t, m)];
    SumAppend(MsgBags(t, pool), MsgBag(t, m));
  }

  lemma {:induction false} PeerUpdate(peers: seq<Conn>, j: nat, c: Conn)
    requires j < |peers|
    ensures Sum(PeerBags(peers[j := c]), |peers|) + Outstanding(peers[j].state.man) ==
      Sum(PeerBags(peers), |peers|) + Outstanding(c.state.man)
  {
    assert PeerBags(peers[j := c]) == PeerBags(peers)[j := Outstanding(c.state.man)];
    SumUpdate(PeerBags(peers), j, Outstanding(c.state.man), |peers|);
  }

  lemma {:induction false} PeerAppend(peers: seq<Conn>, c: Conn)
    ensures Sum(PeerBags(peers + [c]), |peers| + 1) == Sum(PeerBags(peers), |peers|) + Outstanding(c.state.man)
  {
    assert PeerBags(peers + [c]) == PeerBags(peers) + [Outstanding(c.state.man)];
    SumAppend(PeerBags(peers), Outstanding(c.state.man));
  }

  lemma {:induction false} PeerIncluded(t: Torrent, s: System, j: nat)
    requires j < |s.peers|
    ensures Outstanding(s.peers[j].state.man) <= Placed(t, s) <= Total(t, s)
  {
    SumIncludes(PeerBags(s.peers), j, |s.peers|);
  }

  // ---- blocks made from pieces -----------------------------------------------------------------

  lemma {:induction false} CountsInDistinct(s: seq<BlockInfo>, b: BlockInfo)
    requires forall i, j :: 0 <= i < j < |s| ==> s[i] != s[j]
    ensures multiset(s)[b] == if b in s then 1 else 0
  {
    if s != [] {
      var n := |s| - 1;
      CountsInDistinct(s[..n], b);
      assert s == s[..n] + [s[n]];
      assert s[n] !in s[..n];
    }
  }

  lemma {:induction false} PieceBlocksOnce(total: nat, pl: nat, p: nat, b: BlockInfo)
    ensures multiset(PieceBlocks(total, pl, p))[b] == if b in PieceBlocks(total, pl, p) then 1 else 0
    ensures b in PieceBlocks(total, pl, p) ==> b.index == p
  {
    var s := PieceBlocks(total, pl, p);
    assert forall i :: 0 <= i < |s| ==> s[i].index == p && s[i].begin == i * BLOCK_LEN;
    CountsInDistinct(s, b);
  }

  predicate Among(pieces: seq<nat>, k: nat, p: nat)
    requires k <= |pieces|
  {
    k > 0 && (pieces[k - 1] == p || Among(pieces, k - 1, p))
  }

  lemma {:induction false} AmongIff(pieces: seq<nat>, k: nat, p: nat)
    requires k <= |pieces|
    ensures Among(pieces, k, p) <==> exists i :: 0 <= i < k && pieces[i] == p
  {
    if k > 0 {
      AmongIff(pieces, k - 1, p);
    }
  }

  /** Expanding ascending pieces makes each of their blocks once and no others. */
  lemma {:induction false} MadeOnce(total: nat, pl: nat, pieces: seq<nat>, k: nat, b: BlockInfo)
    requires k <= |pieces| && Ascending(pieces)
    ensures multiset(BlocksOfPieces(total, pl, pieces, k))[b] ==
      if Among(pieces, k, b.index) && b in PieceBlocks(total, pl, b.index) then 1 else 0
  {
    hide PieceBlocks;
    if k > 0 {
      MadeOnce(total, pl, pieces, k - 1, b);
      PieceBlocksOnce(total, pl, pieces[k - 1], b);
      AmongIff(pieces, k - 1, pieces[k - 1]);
      var front, back := BlocksOfPieces(total, pl, pieces, k - 1), PieceBlocks(total, pl, pieces[k - 1]);
      assert multiset(front + back)[b] == multiset(front)[b] + multiset(back)[b];
    }
  }

  // ---- what a peer does with blocks ----------------------------------------------------------------

  /** From `p` to `r` a peer took up `extra` and dropped `lost` of it: nothing
      appears from elsewhere, and what it had or was given is kept unless it is
      fulfilled or dropped; only such blocks are requested. */
  ghost predicate TakesUp(p: PeerState, r: PeerState, extra: multiset<BlockInfo>, lost: multiset<BlockInfo>) {
    && r.man.fulfilled == p.man.fulfilled
    && Outstanding(r.man) + lost <= Outstanding(p.man) + extra
    && (forall b :: b in Outstanding(p.man) + extra ==> b in Outstanding(r.man) || b in lost || b in p.man.fulfilled)
    && (forall b :: SendRequest(b) in r.out ==> SendRequest(b) in p.out || b in Outstanding(p.man) + extra)
  }

  lemma {:induction false} AtMostTwice(o: multiset<BlockInfo>, p: multiset<BlockInfo>, q: multiset<BlockInfo>, e1: multiset<BlockInfo>, e2: multiset<BlockInfo>)
    requires q + multiset{} <= p + e1 && o <= q + e2
    ensures o <= p + (e1 + e2)
  {
    forall b ensures o[b] <= (p + (e1 + e2))[b] {
      assert (q + multiset{})[b] <= (p + e1)[b] && o[b] <= (q + e2)[b];
    }
  }

  lemma {:induction false} TakesUpTwice(p: PeerState, q: PeerState, r: PeerState, e1: multiset<BlockInfo>, e2: multiset<BlockInfo>, lost: multiset<BlockInfo>)
    requires TakesUp(p, q, e1, multiset{}) && TakesUp(q, r, e2, lost)
    ensures TakesUp(p, r, e1 + e2, lost)
  {
    hide Outstanding;
    AtMostTwice(Outstanding(r.man) + lost, Outstanding(p.man), Outstanding(q.man), e1, e2);
    forall b | b in Outstanding(p.man) + (e1 + e2) ensures b in Outstanding(r.man) || b in lost || b in p.man.fulfilled {
      if b in Outstanding(p.man) + e1 {
        assert b in Outstanding(q.man) || b in p.man.fulfilled;
        assert b in Outstanding(q.man) ==> b in Outstanding(q.man) + e2;
      } else {
        assert b in Outstanding(q.man) + e2;
      }
    }
    forall b | SendRequest(b) in r.out ensures SendRequest(b) in p.out || b in Outstanding(p.man) + (e1 + e2) {
      if SendRequest(b) !in q.out {
        assert b in Outstanding(q.man) + e2;
        assert b in Outstanding(q.man) ==> (Outstanding(q.man) + multiset{})[b] > 0;
      } else {
        assert SendRequest(b) in p.out || b in Outstanding(p.man) + e1;
      }
    }
  }

  lemma {:induction false} AtMostAndRest(o: multiset<BlockInfo>, p: multiset<BlockInfo>, rest: multiset<BlockInfo>, e: multiset<BlockInfo>)
    requires o + multiset{} <= p + e
    ensures o + rest <= p + (e + rest)
  {
    forall b ensures (o + rest)[b] <= (p + (e + rest))[b] {
      assert (o + multiset{})[b] <= (p + e)[b];
    }
  }

  /** A peer that was given more and drops the rest of it. */
  lemma {:induction false} TakesUpSome(p: PeerState, r: PeerState, extra: multiset<BlockInfo>, rest: multiset<BlockInfo>)
    requires TakesUp(p, r, extra, multiset{})
    ensures TakesUp(p, r, extra + rest, rest)
  {
    hide Outstanding;
    AtMostAndRest(Outstanding(r.man), Outstanding(p.man), rest, extra);
    forall b | b in Outstanding(p.man) + (extra + rest) ensures b in Outstanding(r.man) || b in rest || b in p.man.fulfilled {
      assert b in Outstanding(p.man) + extra || b in rest;
    }
    forall b | SendRequest(b) in r.out ensures SendRequest(b) in p.out || b in Outstanding(p.man) + (extra + rest) {
      assert SendRequest(b) in p.out || b in Outstanding(p.man) + extra;
    }
  }

  /** Enough of a valid peer for adding blocks, kept by it. */
  ghost predicate Plain(p: PeerState) {
    Coherent(p.man) && p.endgameQueue == [] && !p.inEndgame
  }

  lemma {:induction false} AddKeeps(m: Manager<BlockInfo>, x: BlockInfo, now: nat)
    requires Coherent(m)
    ensures var r := Add(m, x, now).0;
      && r.fulfilled == m.fulfilled
      && Outstanding(r) <= Outstanding(m) + multiset{x}
      && Outstanding(m) <= Outstanding(r)
      && (x in Outstanding(r) || x in m.fulfilled)
  {
    AddConserves(m, x, now);
    if x in m.index {
      assert m.requests[m.index[x]] == x;
    }
  }

  lemma {:induction false} AddOneTakesUp(p: PeerState, x: BlockInfo, now: nat)
    requires Plain(p)
    ensures TakesUp(p, AddOne(p, x, now), multiset{x}, multiset{})
    ensures Plain(AddOne(p, x, now))
  {
    var r := AddOne(p, x, now);
    AddKeeps(p.man, x, now);
    ApplyKeepsCoherence(p.man, AddOp(x, now));
    forall b | SendRequest(b) in r.out ensures SendRequest(b) in p.out || b == x {
    }
  }

  lemma {:induction false} AddNextTakesUp(p: PeerState, q: PeerState, e: multiset<BlockInfo>, x: BlockInfo, now: nat)
    requires TakesUp(p, q, e, multiset{}) && Plain(q)
    ensures TakesUp(p, AddOne(q, x, now), e + multiset{x}, multiset{})
    ensures Plain(AddOne(q, x, now))
  {
    AddOneTakesUp(q, x, now);
    TakesUpTwice(p, q, AddOne(q, x, now), e, multiset{x}, multiset{});
  }

  function BagOf(blocks: seq<BlockInfo>, n: nat): multiset<BlockInfo>
    requires n <= |blocks|
  {
    if n == 0 then multiset{} else BagOf(blocks, n - 1) + multiset{blocks[n - 1]}
  }

  lemma {:induction false} BagOfAll(blocks: seq<BlockInfo>, n: nat)
    requires n <= |blocks|
    ensures BagOf(blocks, n) == multiset(blocks[..n])
  {
    if n > 0 {
      BagOfAll(blocks, n - 1);
      assert blocks[..n] == blocks[..n - 1] + [blocks[n - 1]];
    }
  }

  lemma {:induction false} AddAllTakesUp(p: PeerState, blocks: seq<BlockInfo>, now: nat, n: nat)
    requires Plain(p) && n <= |blocks|
    ensures TakesUp(p, AddAll(p, blocks, now, n), BagOf(blocks, n), multiset{})
    ensures Plain(AddAll(p, blocks, now, n))
  {
    if n > 0 {
      AddAllTakesUp(p, blocks, now, n - 1);
      AddNextTakesUp(p, AddAll(p, blocks, now, n - 1), BagOf(blocks, n - 1), blocks[n - 1], now);
    }
  }

  lemma {:induction false} BagOfRest(blocks: seq<BlockInfo>, n: nat)
    requires n <= |blocks|
    ensures BagOf(blocks, n) + multiset(blocks[n..]) == multiset(blocks)
  {
    BagOfAll(blocks, n);
    assert blocks == blocks[..n] + blocks[n..];
  }

  /** Over a connection that may break the blocks not looked at are dropped. */
  lemma {:induction false} AddsTakesUp(p: PeerState, blocks: seq<BlockInfo>, now: nat, sends: nat)
    requires Plain(p)
    ensures var r := Adds(p, blocks, now, sends, |blocks|);
      Plain(r.state) && TakesUp(p, r.state, multiset(blocks), multiset(blocks[r.taken..]))
  {
    var r := Adds(p, blocks, now, sends, |blocks|);
    AddsTakesFirst(p, blocks, now, sends, |blocks|);
    AddAllTakesUp(p, blocks, now, r.taken);
    BagOfRest(blocks, r.taken);
    TakesUpSome(p, r.state, BagOf(blocks, r.taken), multiset(blocks[r.taken..]));
  }

  /** Waiting blocks are taken out and added again. */
  lemma {:induction false} RefillTakesUp(p: PeerState, now: nat, sends: nat)
    requires Plain(p)
    ensures var (q, more) := Refill(p); var r := Adds(q, more, now, sends, |more|);
      Plain(r.state) && TakesUp(p, r.state, multiset{}, multiset(more[r.taken..]))
  {
    var (q, more) := Refill(p);
    var r := Adds(q, more, now, sends, |more|);
    RefillSplits(p);
    AddsTakesUp(q, more, now, sends);
    MovesThenTakesUp(p, q, r.state, multiset(more), multiset(more[r.taken..]));
  }

  lemma {:induction false} RefillSplits(p: PeerState)
    requires Plain(p)
    ensures var (q, more) := Refill(p);
      Plain(q) && q.man.fulfilled == p.man.fulfilled && q.out == p.out && Outstanding(q.man) + multiset(more) == Outstanding(p.man)
  {
    DrainQueueConserves(p.man, Room(p.man));
    ApplyKeepsCoherence(p.man, DrainQueueOp(Room(p.man)));
  }

  lemma {:induction false} MovesThenTakesUp(p: PeerState, q: PeerState, r: PeerState, more: multiset<BlockInfo>, lost: multiset<BlockInfo>)
    requires q.man.fulfilled == p.man.fulfilled && q.out == p.out && Outstanding(q.man) + more == Outstanding(p.man)
    requires TakesUp(q, r, more, lost)
    ensures TakesUp(p, r, multiset{}, lost)
  {
    assert Outstanding(p.man) + multiset{} == Outstanding(p.man);
  }

  /** A round of requests over a connection that may break in it: what the peer had
      and was given is pending afterwards, fulfilled, or dropped. */
  lemma {:induction false} RoundTakesUp(p: PeerState, reply: Option<seq<BlockInfo>>, now: nat, sends: nat)
    requires Plain(p)
    ensures var o := RequestRound(p, reply, now, sends);
      && Plain(o.state)
      && TakesUp(p, o.state, multiset(Given(reply)), multiset(o.dropped))
      && (o.ok ==> o.dropped == [])
  {
    var blocks := Given(reply);
    var first := Adds(p, blocks, now, sends, |blocks|);
    AddsTakesUp(p, blocks, now, sends);
    if first.ok {
      assert blocks[first.taken..] == [];
      RefillTakesUp(first.state, now, first.left);
      var o := RequestRound(p, reply, now, sends);
      TakesUpTwice(p, first.state, o.state, multiset(blocks), multiset{}, multiset(o.dropped));
      assert multiset(blocks) + multiset{} == multiset(blocks);
    }
  }

  // ---- totals after one change -----------------------------------------------------------------

  lemma {:induction false} TotalPoolSet(t: Torrent, s: System, i: nat, m: Msg)
    requires i < |s.pool|
    ensures Total(t, s.(pool := s.pool[i := m])) + MsgBag(t, s.pool[i]) == Total(t, s) + MsgBag(t, m)
  {
    PoolUpdate(t, s.pool, i, m);
    var r, a := s.(pool := s.pool[i := m]), multiset(s.disk.queue) + Sum(PeerBags(s.peers), |s.peers|) + s.dropped;
    assert Total(t, r) == Sum(MsgBags(t, r.pool), |s.pool|) + a;
    assert Total(t, s) == Sum(MsgBags(t, s.pool), |s.pool|) + a;
    AddToBoth(Sum(MsgBags(t, r.pool), |s.pool|), MsgBag(t, s.pool[i]), Sum(MsgBags(t, s.pool), |s.pool|), MsgBag(t, m), a);
  }

  lemma {:induction false} TotalPoolAppend(t: Torrent, s: System, m: Msg)
    ensures Total(t, s.(pool := s.pool + [m])) == Total(t, s) + MsgBag(t, m)
  {
    PoolAppend(t, s.pool, m);
  }

  lemma {:induction false} TotalPeerSet(t: Torrent, s: System, j: nat, p: PeerState)
    requires j < |s.peers|
    ensures Total(t, SetPeer(s, j, p)) + Outstanding(s.peers[j].state.man) == Total(t, s) + Outstanding(p.man)
  {
    var r, a := SetPeer(s, j, p), multiset(s.disk.queue) + Sum(MsgBags(t, s.pool), |s.pool|) + s.dropped;
    PeerUpdate(s.peers, j, s.peers[j].(state := p));
    assert Total(t, r) == Sum(PeerBags(r.peers), |s.peers|) + a;
    assert Total(t, s) == Sum(PeerBags(s.peers), |s.peers|) + a;
    AddToBoth(Sum(PeerBags(r.peers), |s.peers|), Outstanding(s.peers[j].state.man), Sum(PeerBags(s.peers), |s.peers|), Outstanding(p.man), a);
  }

  lemma {:induction false} TotalDrops(t: Torrent, s: System, lost: multiset<BlockInfo>)
    ensures Total(t, s.(dropped := s.dropped + lost)) == Total(t, s) + lost
  {
    assert Placed(t, s.(dropped := s.dropped + lost)) == Placed(t, s);
  }

  // ---- steps that only move blocks ----------------------------------------------------------------

  /** Blocks change places or go to the disk for good. */
  ghost predicate Moves(t: Torrent, s: System, r: System) {
    && r.torrent.req == s.torrent.req
    && Total(t, r) <= Total(t, s)
    && s.written <= r.written
    && forall b :: b in Total(t, s) ==> b in Total(t, r) || b in r.written
  }

  lemma {:induction false} MovesKeep(t: Torrent, s: System, r: System)
    requires Moves(t, s, r)
    ensures Exclusive(t, Total(t, s), s.torrent.req) ==> Exclusive(t, Total(t, r), r.torrent.req)
    ensures NoneLost(t, Total(t, s), s.torrent.req, s.written) ==> NoneLost(t, Total(t, r), r.torrent.req, r.written)
  {
    var a, b := Total(t, s), Total(t, r);
    if Exclusive(t, a, s.torrent.req) {
      forall x | x in b ensures b[x] == 1 && Bit(r.torrent.req, x.index) && x in PieceBlocks(t.total, t.pl, x.index) {
        assert x in a && a[x] == 1;
      }
    }
  }

  lemma {:induction false} TakingUpMoves(t: Torrent, s: System, r: System, p: PeerState, q: PeerState, extra: multiset<BlockInfo>, lost: multiset<BlockInfo>)
    requires TakesUp(p, q, extra, lost) && r.torrent.req == s.torrent.req && r.written == s.written
    requires forall b :: b in p.man.fulfilled ==> b in s.written
    requires Total(t, r) + (Outstanding(p.man) + extra) == Total(t, s) + (Outstanding(q.man) + lost)
    requires Outstanding(q.man) + lost <= Total(t, r)
    ensures Moves(t, s, r)
  {
    var a, b, o, x := Total(t, s), Total(t, r), Outstanding(q.man) + lost, Outstanding(p.man) + extra;
    forall y ensures b[y] <= a[y] {
      assert (b + x)[y] == (a + o)[y];
    }
    forall y | y in a ensures y in b || y in r.written {
      assert (b + x)[y] == (a + o)[y];
      if y !in b {
        assert y in x && y !in o;
      }
    }
  }

  lemma {:induction false} PlayTotal(t: Torrent, s: System, j: nat, reply: Option<seq<BlockInfo>>, now: nat, sends: nat)
    requires j < |s.peers|
    ensures var r := PlayRound(s, j, reply, now, sends); var o := RequestRound(s.peers[j].state, reply, now, sends);
      && Total(t, r) + Outstanding(s.peers[j].state.man) == Total(t, s) + (Outstanding(o.state.man) + multiset(o.dropped))
      && Outstanding(o.state.man) + multiset(o.dropped) <= Total(t, r)
  {
    var o := RequestRound(s.peers[j].state, reply, now, sends);
    var mid, lost := SetPeer(s, j, o.state), multiset(o.dropped);
    TotalPeerSet(t, s, j, o.state);
    TotalDrops(t, mid, lost);
    assert PlayRound(s, j, reply, now, sends) == mid.(dropped := mid.dropped + lost);
    AddToBoth(Total(t, mid), Outstanding(s.peers[j].state.man), Total(t, s), Outstanding(o.state.man), lost);
    PeerIncluded(t, mid, j);
  }

  lemma {:induction false} DeliverTotal(t: Torrent, s: System, j: nat, i: nat, now: nat, sends: nat)
    requires j < |s.peers| && i < |s.pool| && s.pool[i].Reply?
    ensures var o := RequestRound(s.peers[j].state, Some(s.pool[i].blocks), now, sends);
      var r, left := Deliver(s, j, i, now, sends), Outstanding(o.state.man) + multiset(o.dropped);
      && Total(t, r) + (Outstanding(s.peers[j].state.man) + multiset(s.pool[i].blocks)) == Total(t, s) + left
      && left <= Total(t, r)
  {
    var mid, r := PlayRound(s, j, Some(s.pool[i].blocks), now, sends), Deliver(s, j, i, now, sends);
    var out, x := Outstanding(s.peers[j].state.man), multiset(s.pool[i].blocks);
    PlayTotal(t, s, j, Some(s.pool[i].blocks), now, sends);
    TotalPoolSet(t, mid, i, Gone);
    assert Total(t, r) + x == Total(t, mid);
    assert Total(t, r) + (out + x) == (Total(t, r) + x) + out;
    var o := RequestRound(s.peers[j].state, Some(s.pool[i].blocks), now, sends);
    assert r.peers[j].state == o.state;
    PeerIncluded(t, r, j);
    PlacedAndDropped(t, r, Outstanding(o.state.man), multiset(o.dropped));
  }

  lemma {:induction false} PlacedAndDropped(t: Torrent, s: System, a: multiset<BlockInfo>, b: multiset<BlockInfo>)
    requires a <= Placed(t, s) && b <= s.dropped
    ensures a + b <= Total(t, s)
  {
  }

  lemma {:induction false} DeliverMoves(t: Torrent, s: System, j: nat, i: nat, now: nat, sends: nat)
    requires Good(t, s) && j < |s.peers| && i < |s.pool| && s.pool[i].Reply?
    ensures Moves(t, s, Deliver(s, j, i, now, sends))
  {
    var p, blocks := s.peers[j].state, s.pool[i].blocks;
    var o := RequestRound(p, Some(blocks), now, sends);
    assert GoodPeer(s.peers[j], s.written, s.announced);
    RoundTakesUp(p, Some(blocks), now, sends);
    DeliverTotal(t, s, j, i, now, sends);
    TakingUpMoves(t, s, Deliver(s, j, i, now, sends), p, o.state, multiset(blocks), multiset(o.dropped));
  }

  lemma {:induction false} IdleRoundMoves(t: Torrent, s: System, j: nat, now: nat, sends: nat)
    requires Good(t, s) && j < |s.peers|
    ensures Moves(t, s, PlayRound(s, j, None, now, sends))
  {
    var p := s.peers[j].state;
    var o := RequestRound(p, None, now, sends);
    assert GoodPeer(s.peers[j], s.written, s.announced);
    RoundTakesUp(p, None, now, sends);
    PlayTotal(t, s, j, None, now, sends);
    assert Outstanding(p.man) + multiset{} == Outstanding(p.man);
    TakingUpMoves(t, s, PlayRound(s, j, None, now, sends), p, o.state, multiset{}, multiset(o.dropped));
  }

  lemma {:induction false} OnceIsDistinct(q: seq<BlockInfo>)
    requires forall b :: multiset(q)[b] <= 1
    ensures NoDuplicates(q)
  {
    forall i, j | 0 <= i < j < |q| ensures q[i] != q[j] {
      assert q == q[..j] + q[j..];
      assert q[i] in q[..j] && q[j] in q[j..];
      assert multiset(q)[q[i]] == multiset(q[..j])[q[i]] + multiset(q[j..])[q[i]];
      assert q[i] in multiset(q[..j]) && q[j] in multiset(q[j..]);
    }
  }

  lemma {:induction false} WaitingDistinct(t: Torrent, s: System, j: nat)
    requires Good(t, s) && j < |s.peers|
    ensures NoDuplicates(s.peers[j].state.man.queue)
  {
    var q := s.peers[j].state.man.queue;
    PeerIncluded(t, s, j);
    forall b ensures multiset(q)[b] <= 1 {
      assert multiset(q)[b] <= Outstanding(s.peers[j].state.man)[b] <= Total(t, s)[b];
    }
    OnceIsDistinct(q);
  }

  lemma {:induction false} ReceiveTakesOut(p: PeerState, b: Block, now: nat)
    requires Plain(p) && NoDuplicates(p.man.queue)
    ensures var q := ReceiveBlock(p, b, now); var idle := p.seedOnly || b.Info() in p.man.fulfilled;
      && Plain(q)
      && Outstanding(q.man) == (if idle then Outstanding(p.man) else Outstanding(p.man) - multiset{b.Info()})
      && q.man.fulfilled == (if idle then p.man.fulfilled else p.man.fulfilled + {b.Info()})
      && forall x :: SendRequest(x) in q.out ==> SendRequest(x) in p.out
  {
    if !(p.seedOnly || b.Info() in p.man.fulfilled) {
      FulfillConserves(p.man, b.Info(), now);
      FulfillKeepsCoherence(p.man, b.Info(), now);
    }
  }

  lemma {:induction false} TakingOutMoves(t: Torrent, s: System, j: nat, q: PeerState, x: BlockInfo)
    requires j < |s.peers| && Outstanding(q.man) == Outstanding(s.peers[j].state.man) - multiset{x}
    ensures Moves(t, s, SetPeer(s, j, q).(written := s.written + multiset{x}))
  {
    var mid := SetPeer(s, j, q);
    TotalPeerSet(t, s, j, q);
    LosesOne(Total(t, s), Total(t, mid), Outstanding(s.peers[j].state.man), Outstanding(q.man), x);
    assert Total(t, mid.(written := s.written + multiset{x})) == Total(t, mid);
  }

  lemma {:induction false} ArriveMoves(t: Torrent, s: System, j: nat, b: Block, now: nat)
    requires Good(t, s) && j < |s.peers|
    ensures Moves(t, s, Arrive(s, j, b, now))
  {
    var p, info := s.peers[j].state, b.Info();
    var q := ReceiveBlock(p, b, now);
    WaitingDistinct(t, s, j);
    ReceiveTakesOut(p, b, now);
    if p.seedOnly || info in p.man.fulfilled {
      ResetTotal(t, s, j, q);
    } else {
      TakingOutMoves(t, s, j, q, info);
    }
  }

  lemma {:induction false} LosesOne(a: multiset<BlockInfo>, b: multiset<BlockInfo>, o: multiset<BlockInfo>, q: multiset<BlockInfo>, x: BlockInfo)
    requires b + o == a + q && q == o - multiset{x}
    ensures b <= a && forall y :: y in a && y != x ==> y in b
  {
    forall y ensures b[y] <= a[y] && (y != x ==> b[y] == a[y]) {
      assert (b + o)[y] == (a + q)[y];
    }
  }

  lemma {:induction false} GiveBackTotal(t: Torrent, s: System, j: nat)
    requires j < |s.peers|
    ensures Total(t, GiveBack(s, j)) == Total(t, s)
    ensures Outstanding(GiveBack(s, j).peers[j].state.man) == multiset{}
  {
    var p := s.peers[j].state;
    var blocks, mid := Drain(p.man).1, SetPeer(s, j, FreePending(p));
    DrainConserves(p.man);
    TotalPeerSet(t, s, j, FreePending(p));
    assert Total(t, mid) + Outstanding(p.man) == Total(t, s);
    if blocks != [] {
      TotalPoolAppend(t, mid, Returned(blocks));
    } else {
      assert multiset(blocks) == multiset{};
    }
  }

  lemma {:induction false} ResetTotal(t: Torrent, s: System, j: nat, p: PeerState)
    requires j < |s.peers| && Outstanding(s.peers[j].state.man) == Outstanding(p.man)
    ensures Total(t, SetPeer(s, j, p)) == Total(t, s)
  {
    var r, o := SetPeer(s, j, p), Outstanding(p.man);
    TotalPeerSet(t, s, j, p);
    forall y ensures Total(t, r)[y] == Total(t, s)[y] {
      assert (Total(t, r) + o)[y] == (Total(t, s) + o)[y];
    }
  }

  lemma {:induction false} LeaveTotal(t: Torrent, s: System, j: nat)
    requires j < |s.peers|
    ensures Total(t, Leave(s, j)) == Total(t, s)
  {
    GiveBackTotal(t, s, j);
    assert Outstanding(NewPeer().man) == multiset{};
    ResetTotal(t, GiveBack(s, j), j, NewPeer());
  }

  lemma {:induction false} TakeBackMoves(t: Torrent, s: System, i: nat)
    requires i < |s.pool| && s.pool[i].Returned?
    ensures Moves(t, s, TakeBack(s, i))
  {
    var blocks := s.pool[i].blocks;
    TotalPoolSet(t, s, i, Gone);
    assert multiset(s.disk.queue + blocks) == multiset(s.disk.queue) + multiset(blocks);
    assert Total(t, TakeBack(s, i)) == Total(t, s.(pool := s.pool[i := Gone])) + multiset(blocks);
  }

  lemma {:induction false} PoppedSplits(queue: seq<BlockInfo>, k: nat)
    requires k <= |queue|
    ensures multiset(queue[..|queue| - k]) + multiset(Popped(queue, k)) == multiset(queue)
  {
    if k > 0 {
      var n := |queue| - k;
      PoppedSplits(queue, k - 1);
      assert Popped(queue, k) == Popped(queue, k - 1) + [queue[n]];
      assert queue[..n + 1] == queue[..n] + [queue[n]];
    } else {
      assert queue[..|queue|] == queue;
    }
  }

  lemma {:induction false} ServeTotals(a: multiset<BlockInfo>, made: multiset<BlockInfo>, popped: multiset<BlockInfo>, mid: multiset<BlockInfo>, r: multiset<BlockInfo>)
    requires mid + made == a + (made + popped) && r + popped == mid
    ensures r == a
  {
    forall y ensures r[y] == a[y] {
      assert (mid + made)[y] == (a + (made + popped))[y] && (r + popped)[y] == mid[y];
    }
  }

  lemma {:induction false} QueueShrinks(t: Torrent, s: System, queue: seq<BlockInfo>, popped: multiset<BlockInfo>)
    requires multiset(queue) + popped == multiset(s.disk.queue)
    ensures Total(t, s.(disk := s.disk.(queue := queue))) + popped == Total(t, s)
  {
    var rest := Sum(MsgBags(t, s.pool), |s.pool|) + Sum(PeerBags(s.peers), |s.peers|) + s.dropped;
    hide Sum;
    assert Total(t, s) == multiset(s.disk.queue) + rest;
    assert Total(t, s.(disk := s.disk.(queue := queue))) == multiset(queue) + rest;
  }

  lemma {:induction false} ServeTotal(t: Torrent, s: System, i: nat, pending: nat)
    requires i < |s.pool| && s.pool[i].Ask? && !s.disk.endgame
    ensures Total(t, Serve(t, s, i, pending)) == Total(t, s)
  {
    var m, r := s.pool[i], Serve(t, s, i, pending);
    var made, k := BlocksOfPieces(t.total, t.pl, m.pieces, |m.pieces|), PopCount(s.disk.queue, m.bits, |s.disk.queue|);
    var popped, front := Popped(s.disk.queue, k), s.disk.queue[..|s.disk.queue| - k];
    var reply := Reply(m.id, made + popped);
    assert r.disk.queue == front && r.pool == s.pool[i := reply];
    hide BlocksOfPieces, PopCount, Popped;
    PoppedSplits(s.disk.queue, k);
    TotalPoolSet(t, s, i, reply);
    var mid := s.(pool := s.pool[i := reply]);
    QueueShrinks(t, mid, front, multiset(popped));
    assert Total(t, r) == Total(t, mid.(disk := mid.disk.(queue := front)));
    assert MsgBag(t, reply) == multiset(made) + multiset(popped);
    hide Total;
    ServeTotals(Total(t, s), multiset(made), multiset(popped), Total(t, mid), Total(t, r));
  }

  /** Outside endgame the disk only moves blocks into the reply. */
  lemma {:induction false} ServeMoves(t: Torrent, s: System, i: nat, pending: nat)
    requires i < |s.pool| && s.pool[i].Ask? && !s.disk.endgame
    ensures Moves(t, s, Serve(t, s, i, pending))
  {
    hide Total;
    ServeTotal(t, s, i, pending);
  }
}
