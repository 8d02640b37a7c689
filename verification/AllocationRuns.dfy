/** What the block-sharing protocol keeps before endgame and without a corrupted
    piece: a block is in one place at a time, exactly the dropped ones can be lost,
    each is written once if nothing comes unasked, and a peer is only asked for
    pieces it announced. */
module AllocationRuns {
  import opened Basics
  import opened Metainfo
  import opened DiskModel
  import opened DiskAnswers
  import opened RequestModel
  import opened RequestCoherence
  import opened PeerModel
  import opened TorrentModel
  import TorrentRuns
  import opened Allocation
  import opened AllocationMoves

  // ---- handing out pieces ---------------------------------------------------------------------

  /** New pieces were not marked, so their blocks are nowhere yet; and all of
      their blocks are made. */
  lemma {:induction false} MakingKeeps(t: Torrent, all: multiset<BlockInfo>, req: seq<bool>, pieces: seq<nat>, r: seq<bool>, written: multiset<BlockInfo>)
    requires Exclusive(t, all, req) && Ascending(pieces)
    requires forall p: nat :: p in pieces ==> !Bit(req, p)
    requires forall p: nat :: Bit(r, p) <==> Bit(req, p) || p in pieces
    ensures var after := all + multiset(BlocksOfPieces(t.total, t.pl, pieces, |pieces|));
      && Exclusive(t, after, r)
      && (NoneLost(t, all, req, written) ==> NoneLost(t, after, r, written))
  {
    var made := multiset(BlocksOfPieces(t.total, t.pl, pieces, |pieces|));
    forall b ensures made[b] == if b.index in pieces && b in PieceBlocks(t.total, t.pl, b.index) then 1 else 0 {
      MadeOnce(t.total, t.pl, pieces, |pieces|, b);
      AmongIff(pieces, |pieces|, b.index);
    }
    var after := all + made;
    forall b | b in after ensures after[b] == 1 && Bit(r, b.index) && b in PieceBlocks(t.total, t.pl, b.index) {
      assert after[b] == all[b] + made[b];
      if b in all {
        assert Bit(req, b.index);
      }
    }
    if NoneLost(t, all, req, written) {
      forall p: nat, b | Bit(r, p) && b in PieceBlocks(t.total, t.pl, p) ensures b in after || b in written {
        if !Bit(req, p) {
          PieceBlocksOnce(t.total, t.pl, p, b);
          assert made[b] == 1;
        }
      }
    }
  }

  lemma {:induction false} HandOutKeeps(t: Torrent, s: System, id: PeerId, wanted: nat)
    requires Good(t, s)
    ensures var r := HandOut(s, id, wanted);
      && Exclusive(t, Total(t, r), r.torrent.req)
      && (NoneLost(t, Total(t, s), s.torrent.req, s.written) ==> NoneLost(t, Total(t, r), r.torrent.req, r.written))
  {
    var r := HandOut(s, id, wanted);
    if id in s.torrent.diff {
      var (pieces, req) := Want(s.torrent.diff[id], s.torrent.req, wanted, 0);
      var m := Ask(id, pieces, s.torrent.peerPieces[id]);
      WantIsFirstEligible(s.torrent.diff[id], s.torrent.req, wanted, 0);
      TotalPoolAppend(t, s, m);
      assert Total(t, r) == Total(t, s.(pool := s.pool + [m]));
      MakingKeeps(t, Total(t, s), s.torrent.req, pieces, req, s.written);
    } else {
      TotalPoolAppend(t, s, Reply(id, []));
      assert MsgBag(t, Reply(id, [])) == multiset{};
      assert Total(t, r) == Total(t, s);
    }
  }

  lemma {:induction false} HandOutKeepsMsgs(s: System, id: PeerId, wanted: nat)
    requires GoodMsgs(s) && GoodTorrent(s)
    ensures GoodMsgs(HandOut(s, id, wanted)) && GoodTorrent(HandOut(s, id, wanted))
  {
    if id in s.torrent.diff {
      var diff, bits := s.torrent.diff[id], s.torrent.peerPieces[id];
      WantIsFirstEligible(diff, s.torrent.req, wanted, 0);
      var pieces := Want(diff, s.torrent.req, wanted, 0).0;
      assert TorrentRuns.Below(diff, bits, s.torrent.have);
      forall p: nat | p in pieces ensures (id, p) in s.announced {
        assert Bit(diff, p) && Bit(bits, p);
      }
      assert GoodMsg(Ask(id, pieces, bits), s.announced);
    }
  }

  lemma {:induction false} HandOutKeepsParts(s: System, id: PeerId, wanted: nat)
    requires GoodMsgs(s) && GoodPeers(s) && GoodTorrent(s)
    ensures var r := HandOut(s, id, wanted); GoodMsgs(r) && GoodPeers(r) && GoodTorrent(r)
  {
    HandOutKeepsMsgs(s, id, wanted);
  }

  // ---- messages and peers stay good --------------------------------------------------------------

  lemma {:induction false} GoodMsgGrows(m: Msg, a: set<(PeerId, nat)>, b: set<(PeerId, nat)>)
    requires GoodMsg(m, a) && a <= b
    ensures GoodMsg(m, b)
  {
  }

  lemma {:induction false} GoodPeerGrows(c: Conn, w: multiset<BlockInfo>, x: multiset<BlockInfo>, a: set<(PeerId, nat)>, b: set<(PeerId, nat)>)
    requires GoodPeer(c, w, a) && w <= x && a <= b
    ensures GoodPeer(c, x, b)
  {
  }

  /** Announcing more and writing more spoils nothing. */
  lemma {:induction false} PartsGrow(s: System, r: System)
    requires GoodMsgs(s) && GoodPeers(s)
    requires r.pool == s.pool && r.peers == s.peers && s.announced <= r.announced && s.written <= r.written
    ensures GoodMsgs(r) && GoodPeers(r)
  {
    forall i | 0 <= i < |r.pool| ensures GoodMsg(r.pool[i], r.announced) {
      GoodMsgGrows(s.pool[i], s.announced, r.announced);
    }
    forall j | 0 <= j < |r.peers| ensures GoodPeer(r.peers[j], r.written, r.announced) {
      GoodPeerGrows(s.peers[j], s.written, r.written, s.announced, r.announced);
    }
  }

  lemma {:induction false} PeerChanges(s: System, r: System, j: nat, p: PeerState)
    requires GoodPeers(s) && j < |s.peers|
    requires r.peers == s.peers[j := s.peers[j].(state := p)] && s.written <= r.written && r.announced == s.announced
    requires GoodPeer(s.peers[j].(state := p), r.written, r.announced)
    ensures GoodPeers(r)
  {
    forall i | 0 <= i < |r.peers| ensures GoodPeer(r.peers[i], r.written, r.announced) {
      if i != j {
        GoodPeerGrows(s.peers[i], s.written, r.written, s.announced, r.announced);
      }
    }
  }

  lemma {:induction false} TakingUpIsGood(c: Conn, q: PeerState, extra: multiset<BlockInfo>, lost: multiset<BlockInfo>, written: multiset<BlockInfo>, announced: set<(PeerId, nat)>)
    requires GoodPeer(c, written, announced) && TakesUp(c.state, q, extra, lost) && Plain(q)
    requires forall b :: b in extra ==> (c.id, b.index) in announced
    ensures GoodPeer(c.(state := q), written, announced)
  {
    forall b | b in Outstanding(q.man) ensures (c.id, b.index) in announced {
      assert b in Outstanding(c.state.man) + extra;
    }
    forall b | SendRequest(b) in q.out ensures (c.id, b.index) in announced {
      assert SendRequest(b) in c.state.out || b in Outstanding(c.state.man) + extra;
    }
  }

  lemma {:induction false} PlayKeepsPeers(t: Torrent, s: System, j: nat, reply: Option<seq<BlockInfo>>, now: nat, sends: nat)
    requires GoodPeers(s) && j < |s.peers|
    requires forall b :: b in Given(reply) ==> (s.peers[j].id, b.index) in s.announced
    ensures GoodPeers(PlayRound(s, j, reply, now, sends))
  {
    var o := RequestRound(s.peers[j].state, reply, now, sends);
    assert GoodPeer(s.peers[j], s.written, s.announced);
    RoundTakesUp(s.peers[j].state, reply, now, sends);
    TakingUpIsGood(s.peers[j], o.state, multiset(Given(reply)), multiset(o.dropped), s.written, s.announced);
    PeerChanges(s, PlayRound(s, j, reply, now, sends), j, o.state);
  }

  lemma {:induction false} RoundKeepsParts(t: Torrent, s: System, j: nat, i: nat, now: nat, sends: nat)
    requires GoodMsgs(s) && GoodPeers(s) && j < |s.peers|
    requires i < |s.pool| && s.pool[i].Reply? && s.pool[i].id == s.peers[j].id
    ensures var r := Deliver(s, j, i, now, sends); GoodMsgs(r) && GoodPeers(r)
  {
    assert GoodMsg(s.pool[i], s.announced);
    PlayKeepsPeers(t, s, j, Some(s.pool[i].blocks), now, sends);
    assert Deliver(s, j, i, now, sends).peers == PlayRound(s, j, Some(s.pool[i].blocks), now, sends).peers;
  }

  lemma {:induction false} ReceivingIsGood(c: Conn, b: Block, now: nat, written: multiset<BlockInfo>, announced: set<(PeerId, nat)>)
    requires GoodPeer(c, written, announced) && NoDuplicates(c.state.man.queue)
    ensures var p := c.state;
      GoodPeer(c.(state := ReceiveBlock(p, b, now)),
        if p.seedOnly || b.Info() in p.man.fulfilled then written else written + multiset{b.Info()}, announced)
  {
    ReceiveTakesOut(c.state, b, now);
    hide Fulfill;
  }

  lemma {:induction false} ArriveKeepsParts(t: Torrent, s: System, j: nat, b: Block, now: nat)
    requires Good(t, s) && j < |s.peers|
    ensures var r := Arrive(s, j, b, now); GoodMsgs(r) && GoodPeers(r)
  {
    hide ReceiveBlock, Total;
    var r, q := Arrive(s, j, b, now), ReceiveBlock(s.peers[j].state, b, now);
    WaitingDistinct(t, s, j);
    ReceivingIsGood(s.peers[j], b, now, s.written, s.announced);
    PeerChanges(s, r, j, q);
  }

  lemma {:induction false} GiveBackKeepsParts(s: System, j: nat)
    requires GoodMsgs(s) && GoodPeers(s) && j < |s.peers|
    ensures GoodMsgs(GiveBack(s, j)) && GoodPeers(GiveBack(s, j))
  {
    var q := FreePending(s.peers[j].state);
    DrainConserves(s.peers[j].state.man);
    assert GoodPeer(s.peers[j].(state := q), s.written, s.announced);
    PeerChanges(s, GiveBack(s, j), j, q);
  }

  lemma {:induction false} LeaveKeepsParts(s: System, j: nat)
    requires GoodMsgs(s) && GoodPeers(s) && j < |s.peers|
    ensures GoodMsgs(Leave(s, j)) && GoodPeers(Leave(s, j))
  {
    var mid := GiveBack(s, j);
    GiveBackKeepsParts(s, j);
    assert GoodPeer(mid.peers[j].(state := NewPeer()), mid.written, mid.announced);
    PeerChanges(mid, Leave(s, j), j, NewPeer());
  }

  lemma {:induction false} MadeFrom(total: nat, pl: nat, pieces: seq<nat>, k: nat, b: BlockInfo)
    requires k <= |pieces| && b in BlocksOfPieces(total, pl, pieces, k)
    ensures b.index in pieces
  {
    if b in PieceBlocks(total, pl, pieces[k - 1]) {
      PieceBlocksOnce(total, pl, pieces[k - 1], b);
    } else {
      MadeFrom(total, pl, pieces, k - 1, b);
    }
  }

  /** Every block of an answer belongs to a new piece or to one in the bitfield. */
  lemma {:induction false} AnswerIsHeld(t: Torrent, s: DiskState, pieces: seq<nat>, bits: seq<bool>, pending: nat, x: BlockInfo)
    requires x in Request(t, s, pieces, bits, pending).1
    ensures x.index in pieces || Bit(bits, x.index)
  {
    var made := BlocksOfPieces(t.total, t.pl, pieces, |pieces|);
    if x in made {
      MadeFrom(t.total, t.pl, pieces, |pieces|, x);
    } else if s.endgame {
      OwnedCounts(s.queue, bits, |s.queue|, x);
      assert x in multiset(Owned(s.queue, bits, |s.queue|));
    } else {
      PoppedAreOwned(s.queue, bits, PopCount(s.queue, bits, |s.queue|));
    }
  }

  lemma {:induction false} ServeKeepsMsgs(t: Torrent, s: System, i: nat, pending: nat)
    requires GoodMsgs(s) && i < |s.pool| && s.pool[i].Ask?
    ensures GoodMsgs(Serve(t, s, i, pending))
  {
    var m, r := s.pool[i], Serve(t, s, i, pending);
    assert GoodMsg(m, s.announced);
    forall x | x in r.pool[i].blocks ensures (m.id, x.index) in s.announced {
      AnswerIsHeld(t, s.disk, m.pieces, m.bits, pending, x);
    }
    assert GoodMsg(r.pool[i], r.announced);
    forall j | 0 <= j < |r.pool| ensures GoodMsg(r.pool[j], r.announced) {
      assert GoodMsg(s.pool[j], s.announced);
    }
  }

  lemma {:induction false} ServeKeepsParts(t: Torrent, s: System, i: nat, pending: nat)
    requires GoodMsgs(s) && GoodPeers(s) && i < |s.pool| && s.pool[i].Ask?
    ensures var r := Serve(t, s, i, pending); GoodMsgs(r) && GoodPeers(r)
  {
    ServeKeepsMsgs(t, s, i, pending);
  }

  lemma {:induction false} AnnouncingKeepsTorrent(t: Torrent, s: System, e: Event)
    requires GoodTorrent(s) && (e.HaveEvent? || e.BitfieldEvent? || e.DownloadedEvent?)
    ensures GoodTorrent(Step(t, s, e)) && Step(t, s, e).torrent.req == s.torrent.req
    ensures s.announced <= Step(t, s, e).announced
  {
    var r := Step(t, s, e);
    match e
    case HaveEvent(id, piece) =>
      if piece < |s.torrent.have| {
        TorrentRuns.PeerHaveKeepsSound(s.torrent, id, piece);
        forall x, p: nat | x in r.torrent.peerPieces && Bit(r.torrent.peerPieces[x], p) ensures (x, p) in r.announced {
          assert (x == id && p == piece) || (x in s.torrent.peerPieces && Bit(s.torrent.peerPieces[x], p));
        }
      }
    case BitfieldEvent(id, bits) =>
      TorrentRuns.StepKeepsSound(s.torrent, TorrentRuns.BitfieldEvent(id, bits));
      forall x, p: nat | x in r.torrent.peerPieces && Bit(r.torrent.peerPieces[x], p) ensures (x, p) in r.announced {
        assert (x == id && Bit(bits, p)) || (x in s.torrent.peerPieces && Bit(s.torrent.peerPieces[x], p));
      }
    case DownloadedEvent(piece) => TorrentRuns.DownloadedKeepsSound(s.torrent, piece);
  }

  // ---- single steps -----------------------------------------------------------------------------

  lemma {:induction false} SameTotal(t: Torrent, s: System, r: System)
    requires r.disk.queue == s.disk.queue && r.pool == s.pool && r.peers == s.peers && r.dropped == s.dropped
    requires r.torrent.req == s.torrent.req && s.written <= r.written
    ensures Moves(t, s, r)
  {
    assert Total(t, r) == Total(t, s);
  }

  lemma {:induction false} JoinMoves(t: Torrent, s: System, id: PeerId)
    ensures Moves(t, s, Join(s, id))
  {
    PeerAppend(s.peers, Conn(id, NewPeer()));
    assert Outstanding(NewPeer().man) == multiset{};
  }

  lemma {:induction false} JoinKeepsParts(s: System, id: PeerId)
    requires GoodMsgs(s) && GoodPeers(s)
    ensures GoodMsgs(Join(s, id)) && GoodPeers(Join(s, id))
  {
    assert GoodPeer(Conn(id, NewPeer()), s.written, s.announced);
  }

  lemma {:induction false} LimitMoves(t: Torrent, s: System, j: nat, limit: nat)
    requires j < |s.peers|
    ensures Moves(t, s, ChangeLimit(s, j, limit))
  {
    var p := s.peers[j].state;
    ResetTotal(t, s, j, p.(man := SetLimit(p.man, limit)));
  }

  lemma {:induction false} LimitKeepsParts(s: System, j: nat, limit: nat)
    requires GoodMsgs(s) && GoodPeers(s) && j < |s.peers|
    ensures GoodMsgs(ChangeLimit(s, j, limit)) && GoodPeers(ChangeLimit(s, j, limit))
  {
    var p := s.peers[j].state;
    var q := p.(man := SetLimit(p.man, limit));
    assert Outstanding(q.man) == Outstanding(p.man);
    assert GoodPeer(s.peers[j].(state := q), s.written, s.announced);
    PeerChanges(s, SetPeer(s, j, q), j, q);
  }

  /** Blocks only move, and messages and peers stay good. */
  ghost predicate Fine(t: Torrent, s: System, r: System) {
    Moves(t, s, r) && GoodMsgs(r) && GoodPeers(r)
  }

  lemma {:induction false} StayingIsFine(t: Torrent, s: System)
    requires Good(t, s)
    ensures Fine(t, s, s)
  {
  }

  lemma {:induction false} AnnouncingIsFine(t: Torrent, s: System, e: Event)
    requires Good(t, s) && (e.HaveEvent? || e.BitfieldEvent? || e.DownloadedEvent?)
    ensures Fine(t, s, Step(t, s, e))
  {
    AnnouncingKeepsTorrent(t, s, e);
    SameTotal(t, s, Step(t, s, e));
    PartsGrow(s, Step(t, s, e));
  }

  lemma {:induction false} ServeIsFine(t: Torrent, s: System, i: nat, pending: nat)
    requires Good(t, s) && !s.disk.endgame && i < |s.pool| && s.pool[i].Ask?
    ensures Fine(t, s, Serve(t, s, i, pending))
  {
    ServeMoves(t, s, i, pending);
    ServeKeepsParts(t, s, i, pending);
  }

  lemma {:induction false} TakeBackIsFine(t: Torrent, s: System, i: nat)
    requires Good(t, s) && i < |s.pool| && s.pool[i].Returned?
    ensures Fine(t, s, TakeBack(s, i))
  {
    TakeBackMoves(t, s, i);
  }

  lemma {:induction false} DeliverIsFine(t: Torrent, s: System, j: nat, i: nat, now: nat, sends: nat)
    requires Good(t, s) && j < |s.peers| && i < |s.pool| && s.pool[i].Reply? && s.pool[i].id == s.peers[j].id
    ensures Fine(t, s, Deliver(s, j, i, now, sends))
  {
    DeliverMoves(t, s, j, i, now, sends);
    RoundKeepsParts(t, s, j, i, now, sends);
  }

  lemma {:induction false} ArriveIsFine(t: Torrent, s: System, j: nat, b: Block, now: nat)
    requires Good(t, s) && j < |s.peers|
    ensures Fine(t, s, Arrive(s, j, b, now))
  {
    ArriveMoves(t, s, j, b, now);
    ArriveKeepsParts(t, s, j, b, now);
  }

  lemma {:induction false} GiveBackIsFine(t: Torrent, s: System, j: nat)
    requires Good(t, s) && j < |s.peers|
    ensures Fine(t, s, GiveBack(s, j))
  {
    GiveBackTotal(t, s, j);
    GiveBackKeepsParts(s, j);
  }

  lemma {:induction false} LeaveIsFine(t: Torrent, s: System, j: nat)
    requires Good(t, s) && j < |s.peers|
    ensures Fine(t, s, Leave(s, j))
  {
    LeaveTotal(t, s, j);
    LeaveKeepsParts(s, j);
  }

  lemma {:induction false} LimitIsFine(t: Torrent, s: System, j: nat, limit: nat)
    requires Good(t, s) && j < |s.peers|
    ensures Fine(t, s, ChangeLimit(s, j, limit))
  {
    LimitMoves(t, s, j, limit);
    LimitKeepsParts(s, j, limit);
  }

  lemma {:induction false} JoinIsFine(t: Torrent, s: System, id: PeerId)
    requires Good(t, s)
    ensures Fine(t, s, Join(s, id))
  {
    JoinMoves(t, s, id);
    JoinKeepsParts(s, id);
  }

  lemma {:induction false} IdleRoundIsFine(t: Torrent, s: System, j: nat, now: nat, sends: nat)
    requires Good(t, s) && j < |s.peers|
    ensures Fine(t, s, PlayRound(s, j, None, now, sends))
  {
    IdleRoundMoves(t, s, j, now, sends);
    PlayKeepsPeers(t, s, j, None, now, sends);
  }

  lemma {:induction false} DropIsFine(t: Torrent, s: System, i: nat)
    requires Good(t, s) && i < |s.pool| && s.pool[i].Reply?
    ensures Fine(t, s, Drop(s, i))
  {
    var mid := s.(pool := s.pool[i := Gone]);
    TotalPoolSet(t, s, i, Gone);
    TotalDrops(t, mid, multiset(s.pool[i].blocks));
    assert Drop(s, i) == mid.(dropped := mid.dropped + multiset(s.pool[i].blocks));
  }

  lemma {:induction false} DiskStepIsFine(t: Torrent, s: System, e: Event)
    requires Good(t, s) && !s.disk.endgame && (e.ServeEvent? || e.ReturnEvent?)
    ensures Fine(t, s, Step(t, s, e))
  {
    hide Serve, TakeBack, Good, Fine;
    StayingIsFine(t, s);
    match e
    case ServeEvent(i, pending) =>
      if i < |s.pool| && s.pool[i].Ask? {
        assert Step(t, s, e) == Serve(t, s, i, pending);
        ServeIsFine(t, s, i, pending);
      } else {
        assert Step(t, s, e) == s;
      }
    case ReturnEvent(i) =>
      if i < |s.pool| && s.pool[i].Returned? {
        assert Step(t, s, e) == TakeBack(s, i);
        TakeBackIsFine(t, s, i);
      } else {
        assert Step(t, s, e) == s;
      }
    case _ =>
  }

  lemma {:induction false} RoundStepIsFine(t: Torrent, s: System, e: Event)
    requires Good(t, s) && (e.RoundEvent? || e.IdleRoundEvent? || e.TimeoutEvent?)
    ensures Fine(t, s, Step(t, s, e))
  {
    hide Deliver, PlayRound, Drop, Good, Fine;
    StayingIsFine(t, s);
    match e
    case RoundEvent(j, i, now, sends) =>
      if j < |s.peers| && i < |s.pool| && s.pool[i].Reply? && s.pool[i].id == s.peers[j].id {
        assert Step(t, s, e) == Deliver(s, j, i, now, sends);
        DeliverIsFine(t, s, j, i, now, sends);
      } else {
        assert Step(t, s, e) == s;
      }
    case IdleRoundEvent(j, now, sends) =>
      if j < |s.peers| {
        assert Step(t, s, e) == PlayRound(s, j, None, now, sends);
        IdleRoundIsFine(t, s, j, now, sends);
      } else {
        assert Step(t, s, e) == s;
      }
    case TimeoutEvent(i) =>
      if i < |s.pool| && s.pool[i].Reply? {
        assert Step(t, s, e) == Drop(s, i);
        DropIsFine(t, s, i);
      } else {
        assert Step(t, s, e) == s;
      }
    case _ =>
  }

  lemma {:induction false} GoodPeerIsValid(t: Torrent, s: System, j: nat)
    requires Good(t, s) && j < |s.peers|
    ensures ValidPeer(s.peers[j].state)
  {
    assert GoodPeer(s.peers[j], s.written, s.announced);
  }

  lemma {:induction false} BlockStepIsFine(t: Torrent, s: System, e: Event)
    requires Good(t, s) && e.BlockEvent?
    ensures Fine(t, s, Step(t, s, e))
  {
    hide Arrive, Fine, Good, ValidPeer;
    StayingIsFine(t, s);
    if e.peer < |s.peers| {
      GoodPeerIsValid(t, s, e.peer);
      assert Step(t, s, e) == Arrive(s, e.peer, e.block, e.now);
      ArriveIsFine(t, s, e.peer, e.block, e.now);
    } else {
      assert Step(t, s, e) == s;
    }
  }

  lemma {:induction false} ConnectionStepIsFine(t: Torrent, s: System, e: Event)
    requires Good(t, s) && (e.JoinEvent? || e.FreeEvent? || e.LeaveEvent? || e.LimitEvent?)
    ensures Fine(t, s, Step(t, s, e))
  {
    hide Join, GiveBack, Leave, ChangeLimit, Good, Fine;
    StayingIsFine(t, s);
    match e
    case JoinEvent(id) =>
      assert Step(t, s, e) == Join(s, id);
      JoinIsFine(t, s, id);
    case FreeEvent(j) =>
      assert Step(t, s, e) == if j < |s.peers| then GiveBack(s, j) else s;
      if j < |s.peers| { GiveBackIsFine(t, s, j); }
    case LeaveEvent(j) =>
      assert Step(t, s, e) == if j < |s.peers| then Leave(s, j) else s;
      if j < |s.peers| { LeaveIsFine(t, s, j); }
    case LimitEvent(j, limit) =>
      assert Step(t, s, e) == if j < |s.peers| then ChangeLimit(s, j, limit) else s;
      if j < |s.peers| { LimitIsFine(t, s, j, limit); }
    case _ =>
  }

  /** All events but a request for pieces only move blocks. */
  lemma {:induction false} StepIsFine(t: Torrent, s: System, e: Event)
    requires Good(t, s) && !s.disk.endgame && !e.RequestEvent?
    ensures Fine(t, s, Step(t, s, e))
  {
    hide Step, Good, Fine;
    if e.HaveEvent? || e.BitfieldEvent? || e.DownloadedEvent? {
      AnnouncingIsFine(t, s, e);
    } else if e.ServeEvent? || e.ReturnEvent? {
      DiskStepIsFine(t, s, e);
    } else if e.RoundEvent? || e.IdleRoundEvent? || e.TimeoutEvent? {
      RoundStepIsFine(t, s, e);
    } else if e.BlockEvent? {
      BlockStepIsFine(t, s, e);
    } else {
      ConnectionStepIsFine(t, s, e);
    }
  }

  lemma {:induction false} StepKeepsTorrent(t: Torrent, s: System, e: Event)
    requires GoodMsgs(s) && GoodPeers(s) && GoodTorrent(s)
    ensures GoodTorrent(Step(t, s, e))
  {
    if e.HaveEvent? || e.BitfieldEvent? || e.DownloadedEvent? {
      AnnouncingKeepsTorrent(t, s, e);
    } else if e.RequestEvent? {
      HandOutKeepsParts(s, e.id, e.wanted);
    }
  }

  /** Nothing is ever in two places, and every block handed out stays in some
      place, unless it is dropped or written. */
  ghost predicate Kept(t: Torrent, s: System) {
    Good(t, s) && NoneLost(t, Total(t, s), s.torrent.req, s.written)
  }

  lemma {:induction false} RequestKeeps(t: Torrent, s: System, e: Event)
    requires Kept(t, s) && e.RequestEvent?
    ensures Kept(t, Step(t, s, e))
  {
    hide HandOut, Exclusive, NoneLost, GoodMsgs, GoodPeers, GoodTorrent, Total;
    HandOutKeeps(t, s, e.id, e.wanted);
    HandOutKeepsParts(s, e.id, e.wanted);
    assert Step(t, s, e) == HandOut(s, e.id, e.wanted);
  }

  lemma {:induction false} FineKeeps(t: Torrent, s: System, r: System)
    requires Kept(t, s) && Fine(t, s, r) && GoodTorrent(r)
    ensures Kept(t, r)
  {
    hide Exclusive, NoneLost, GoodMsgs, GoodPeers, GoodTorrent, Moves, Total;
    MovesKeep(t, s, r);
  }

  lemma {:induction false} StepKeeps(t: Torrent, s: System, e: Event)
    requires Kept(t, s) && !s.disk.endgame
    ensures Kept(t, Step(t, s, e))
  {
    hide Step, NoneLost, GoodMsgs, GoodPeers, GoodTorrent, Exclusive, Total;
    if e.RequestEvent? {
      RequestKeeps(t, s, e);
    } else {
      StepIsFine(t, s, e);
      StepKeepsTorrent(t, s, e);
      FineKeeps(t, s, Step(t, s, e));
    }
  }

  lemma {:induction false} EndgameStays(t: Torrent, s: System, e: Event)
    requires s.disk.endgame
    ensures Step(t, s, e).disk.endgame
  {
  }

  // ---- whole runs -----------------------------------------------------------------------------------

  lemma {:induction false} OutsetIsKept(t: Torrent, image: seq<byte>, have: seq<bool>)
    ensures Kept(t, Outset(image, have))
  {
    assert Total(t, Outset(image, have)) == multiset{};
  }

  ghost predicate KeptBeforeEndgame(t: Torrent, s: System) {
    s.disk.endgame || Kept(t, s)
  }

  lemma {:induction false} AnyStepKeeps(t: Torrent, s: System, e: Event)
    ensures KeptBeforeEndgame(t, s) ==> KeptBeforeEndgame(t, Step(t, s, e))
  {
    if s.disk.endgame {
      EndgameStays(t, s, e);
    } else if Kept(t, s) {
      StepKeeps(t, s, e);
    }
  }

  lemma {:induction false} RunKeeps(t: Torrent, s: System, es: seq<Event>, k: nat)
    requires k <= |es| && KeptBeforeEndgame(t, s)
    ensures KeptBeforeEndgame(t, Run(t, s, es, k))
  {
    hide Step, Kept;
    if k > 0 {
      RunKeeps(t, s, es, k - 1);
      AnyStepKeeps(t, Run(t, s, es, k - 1), es[k - 1]);
    }
  }

  /** In every state of every run before endgame: the disk queue, the messages
      under way, all peers' in-flight and waiting blocks and the dropped ones
      together hold no block twice, and all of them belong to pieces that were
      handed out. */
  lemma {:induction false} BlocksAreExclusive(t: Torrent, image: seq<byte>, have: seq<bool>, es: seq<Event>, k: nat)
    requires k <= |es| && !Run(t, Outset(image, have), es, k).disk.endgame
    ensures var s := Run(t, Outset(image, have), es, k);
      Good(t, s) && Exclusive(t, Total(t, s), s.torrent.req)
  {
    OutsetIsKept(t, image, have);
    RunKeeps(t, Outset(image, have), es, k);
  }

  ghost predicate DroppedWereWritten(s: System) {
    forall b :: b in s.dropped ==> b in s.written
  }

  lemma {:induction false} LostIffDropped(t: Torrent, s: System)
    requires Kept(t, s)
    ensures NoneLost(t, Placed(t, s), s.torrent.req, s.written) <==> DroppedWereWritten(s)
  {
    var a, c := Total(t, s), Placed(t, s);
    if DroppedWereWritten(s) {
      forall p: nat, b | Bit(s.torrent.req, p) && b in PieceBlocks(t.total, t.pl, p) ensures b in c || b in s.written {
        assert b in a || b in s.written;
        assert a[b] == c[b] + s.dropped[b];
      }
    }
    if NoneLost(t, c, s.torrent.req, s.written) {
      forall b | b in s.dropped ensures b in s.written {
        assert a[b] == c[b] + s.dropped[b];
        assert b in a && a[b] == 1;
        assert Bit(s.torrent.req, b.index) && b in PieceBlocks(t.total, t.pl, b.index);
      }
    }
  }

  /** In the same runs every block of every piece handed out is in the disk queue,
      under way, pending at some peer, or written, exactly if those that a late
      reply or a broken round dropped have all been written. */
  lemma {:induction false} NoBlockIsLostIff(t: Torrent, image: seq<byte>, have: seq<bool>, es: seq<Event>, k: nat)
    requires k <= |es| && !Run(t, Outset(image, have), es, k).disk.endgame
    ensures var s := Run(t, Outset(image, have), es, k);
      NoneLost(t, Placed(t, s), s.torrent.req, s.written) <==> DroppedWereWritten(s)
  {
    OutsetIsKept(t, image, have);
    RunKeeps(t, Outset(image, have), es, k);
    LostIffDropped(t, Run(t, Outset(image, have), es, k));
  }

  /** What an event drops: a reply nobody waits for any more, or what was left of a
      round when a send failed. */
  function Drops(s: System, e: Event): seq<BlockInfo> {
    match e
    case TimeoutEvent(i) => if i < |s.pool| && s.pool[i].Reply? then s.pool[i].blocks else []
    case RoundEvent(j, i, now, sends) =>
      if j < |s.peers| && i < |s.pool| && s.pool[i].Reply? && s.pool[i].id == s.peers[j].id then
        RequestRound(s.peers[j].state, Some(s.pool[i].blocks), now, sends).dropped
      else
        []
    case IdleRoundEvent(j, now, sends) =>
      if j < |s.peers| then RequestRound(s.peers[j].state, None, now, sends).dropped else []
    case _ => []
  }

  lemma {:induction false} StepDrops(t: Torrent, s: System, e: Event)
    ensures Step(t, s, e).dropped == s.dropped + multiset(Drops(s, e))
    ensures Drops(s, e) != [] ==> Step(t, s, e).written == s.written
  {
  }

  /** A step loses nothing exactly if all it drops has been written already. */
  lemma {:induction false} StepLosesNothingIff(t: Torrent, s: System, e: Event)
    requires Kept(t, s) && !s.disk.endgame && NoneLost(t, Placed(t, s), s.torrent.req, s.written)
    ensures var r := Step(t, s, e);
      NoneLost(t, Placed(t, r), r.torrent.req, r.written) <==> forall b :: b in Drops(s, e) ==> b in s.written
  {
    hide Step, Kept, Drops;
    var r := Step(t, s, e);
    StepKeeps(t, s, e);
    LostIffDropped(t, s);
    LostIffDropped(t, r);
    StepDrops(t, s, e);
    WrittenStays(t, s, e);
  }

  lemma {:induction false} WrittenStays(t: Torrent, s: System, e: Event)
    ensures s.written <= Step(t, s, e).written
  {
  }

  ghost predicate NothingDropped(t: Torrent, s: System, es: seq<Event>, k: nat)
    requires k <= |es|
  {
    k == 0 || (NothingDropped(t, s, es, k - 1) && Drops(Run(t, s, es, k - 1), es[k - 1]) == [])
  }

  lemma {:induction false} NothingDroppedIff(t: Torrent, s: System, es: seq<Event>, k: nat)
    requires k <= |es| && s.dropped == multiset{}
    ensures Run(t, s, es, k).dropped == multiset{} <==> NothingDropped(t, s, es, k)
  {
    hide Step, Drops;
    if k > 0 {
      NothingDroppedIff(t, s, es, k - 1);
      StepDrops(t, Run(t, s, es, k - 1), es[k - 1]);
    }
  }

  /** So nothing is lost as long as every reply is taken and no send fails with
      blocks left in the round. */
  lemma {:induction false} NoBlockIsLost(t: Torrent, image: seq<byte>, have: seq<bool>, es: seq<Event>, k: nat)
    requires k <= |es| && !Run(t, Outset(image, have), es, k).disk.endgame
    requires NothingDropped(t, Outset(image, have), es, k)
    ensures var s := Run(t, Outset(image, have), es, k); NoneLost(t, Placed(t, s), s.torrent.req, s.written)
  {
    NothingDroppedIff(t, Outset(image, have), es, k);
    NoBlockIsLostIff(t, image, have, es, k);
  }

  // ---- what peers are asked for --------------------------------------------------------------------

  predicate AnnouncedBy(es: seq<Event>, k: nat, id: PeerId, p: nat)
    requires k <= |es|
  {
    k > 0 && (AnnouncedBy(es, k - 1, id, p) || Announces(es[k - 1], id, p))
  }

  predicate Announces(e: Event, id: PeerId, p: nat) {
    e == HaveEvent(id, p) || (e.BitfieldEvent? && e.id == id && Bit(e.bits, p))
  }

  lemma {:induction false} StepAnnounces(t: Torrent, s: System, e: Event, id: PeerId, p: nat)
    requires (id, p) in Step(t, s, e).announced
    ensures (id, p) in s.announced || Announces(e, id, p)
  {
  }

  lemma {:induction false} AnnouncedFromEvents(t: Torrent, s: System, es: seq<Event>, k: nat, id: PeerId, p: nat)
    requires k <= |es| && s.announced == {} && (id, p) in Run(t, s, es, k).announced
    ensures AnnouncedBy(es, k, id, p)
  {
    hide Step, Announces;
    if k > 0 {
      StepAnnounces(t, Run(t, s, es, k - 1), es[k - 1], id, p);
      if (id, p) in Run(t, s, es, k - 1).announced {
        AnnouncedFromEvents(t, s, es, k - 1, id, p);
      }
    }
  }

  /** Over every run before endgame, a peer is sent a request only for a block of a
      piece it has announced, by a `Have` or in a bitfield, at some time before. */
  lemma {:induction false} RequestsWereAnnounced(t: Torrent, image: seq<byte>, have: seq<bool>, es: seq<Event>, k: nat, j: nat, b: BlockInfo)
    requires k <= |es| && !Run(t, Outset(image, have), es, k).disk.endgame
    requires j < |Run(t, Outset(image, have), es, k).peers|
    requires SendRequest(b) in Run(t, Outset(image, have), es, k).peers[j].state.out
    ensures AnnouncedBy(es, k, Run(t, Outset(image, have), es, k).peers[j].id, b.index)
  {
    var s := Run(t, Outset(image, have), es, k);
    BlocksAreExclusive(t, image, have, es, k);
    assert GoodPeer(s.peers[j], s.written, s.announced);
    AnnouncedFromEvents(t, Outset(image, have), es, k, s.peers[j].id, b.index);
  }
}
