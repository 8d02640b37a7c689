/** The exact account of the blocks: as long as no peer sends a block it was not
    asked for, each block of each piece handed out is in one place, dropped, or
    written, and that once. */
module AllocationAccount {
  import opened Basics
  import opened Metainfo
  import opened DiskModel
  import opened RequestCoherence
  import opened PeerModel
  import opened TorrentModel
  import opened Allocation
  import opened AllocationMoves
  import opened AllocationRuns

  predicate HandedOut(t: Torrent, req: seq<bool>, b: BlockInfo) {
    Bit(req, b.index) && b in PieceBlocks(t.total, t.pl, b.index)
  }

  ghost predicate Exact(t: Torrent, s: System) {
    forall b :: Total(t, s)[b] + s.written[b] == if HandedOut(t, s.torrent.req, b) then 1 else 0
  }

  // ---- steps that write nothing ------------------------------------------------------------------

  lemma {:induction false} MovesKeepExact(t: Torrent, s: System, r: System)
    requires Moves(t, s, r) && r.written == s.written && Exact(t, s)
    ensures Exact(t, r)
  {
    hide Total;
    forall b ensures Total(t, r)[b] + r.written[b] == if HandedOut(t, r.torrent.req, b) then 1 else 0 {
      assert Total(t, s)[b] + s.written[b] == if HandedOut(t, s.torrent.req, b) then 1 else 0;
      assert b in Total(t, s) ==> b in Total(t, r) || b in r.written;
    }
  }

  lemma {:induction false} MakingKeepsExact(t: Torrent, s: System, r: System, pieces: seq<nat>)
    requires Exact(t, s) && Ascending(pieces) && r.written == s.written
    requires Total(t, r) == Total(t, s) + multiset(BlocksOfPieces(t.total, t.pl, pieces, |pieces|))
    requires forall p: nat :: p in pieces ==> !Bit(s.torrent.req, p)
    requires forall p: nat :: Bit(r.torrent.req, p) <==> Bit(s.torrent.req, p) || p in pieces
    ensures Exact(t, r)
  {
    hide Total;
    forall b ensures Total(t, r)[b] + r.written[b] == if HandedOut(t, r.torrent.req, b) then 1 else 0 {
      MadeOnce(t.total, t.pl, pieces, |pieces|, b);
      AmongIff(pieces, |pieces|, b.index);
      assert Total(t, s)[b] + s.written[b] == if HandedOut(t, s.torrent.req, b) then 1 else 0;
    }
  }

  lemma {:induction false} HandOutKeepsExact(t: Torrent, s: System, id: PeerId, wanted: nat)
    requires Good(t, s) && Exact(t, s)
    ensures Exact(t, HandOut(s, id, wanted))
  {
    hide Exact;
    var r := HandOut(s, id, wanted);
    if id in s.torrent.diff {
      var (pieces, req) := Want(s.torrent.diff[id], s.torrent.req, wanted, 0);
      var m := Ask(id, pieces, s.torrent.peerPieces[id]);
      WantIsFirstEligible(s.torrent.diff[id], s.torrent.req, wanted, 0);
      TotalPoolAppend(t, s, m);
      assert Total(t, r) == Total(t, s.(pool := s.pool + [m]));
      MakingKeepsExact(t, s, r, pieces);
    } else {
      TotalPoolAppend(t, s, Reply(id, []));
      assert MsgBag(t, Reply(id, [])) == multiset{};
      assert Total(t, r) == Total(t, s);
      SameKeepsExact(t, s, r);
    }
  }

  lemma {:induction false} SameKeepsExact(t: Torrent, s: System, r: System)
    requires Exact(t, s) && Total(t, r) == Total(t, s) && r.written == s.written && r.torrent.req == s.torrent.req
    ensures Exact(t, r)
  {
    hide Total;
  }

  // ---- an arriving block -----------------------------------------------------------------------------

  /** A block arrives that is not ignored although the peer was not asked for it, or
      not any more. */
  ghost predicate Unasked(s: System, e: Event) {
    e.BlockEvent? && e.peer < |s.peers| &&
      var p := s.peers[e.peer].state;
      ValidPeer(p) && !Ignores(p, e.block) && e.block.Info() !in Outstanding(p.man)
  }

  predicate Ignores(p: PeerState, b: Block) {
    p.seedOnly || b.Info() in p.man.fulfilled
  }

  /** An arriving block leaves the places if it was outstanding, and is written. */
  lemma {:induction false} ArriveTotal(t: Torrent, s: System, j: nat, b: Block, now: nat)
    requires Good(t, s) && j < |s.peers| && !Ignores(s.peers[j].state, b)
    ensures var r := Arrive(s, j, b, now);
      && Total(t, r) == (if b.Info() in Outstanding(s.peers[j].state.man) then Total(t, s) - multiset{b.Info()} else Total(t, s))
      && r.written == s.written + multiset{b.Info()}
      && r.torrent == s.torrent
  {
    var p, x := s.peers[j].state, b.Info();
    var q := ReceiveBlock(p, b, now);
    var mid, r := SetPeer(s, j, q), Arrive(s, j, b, now);
    WaitingDistinct(t, s, j);
    ReceiveTakesOut(p, b, now);
    TotalPeerSet(t, s, j, q);
    PeerIncluded(t, s, j);
    assert Total(t, r) == Total(t, mid);
    TakenOut(Total(t, s), Total(t, mid), Outstanding(p.man), Outstanding(q.man), x);
  }

  lemma {:induction false} TakenOut(a: multiset<BlockInfo>, b: multiset<BlockInfo>, o: multiset<BlockInfo>, q: multiset<BlockInfo>, x: BlockInfo)
    requires b + o == a + q && q == o - multiset{x} && o <= a
    ensures b == if x in o then a - multiset{x} else a
  {
    forall y ensures b[y] == (if x in o then a - multiset{x} else a)[y] {
      assert (b + o)[y] == (a + q)[y];
    }
  }

  lemma {:induction false} WritingIsExactIff(t: Torrent, s: System, r: System, x: BlockInfo, asked: bool)
    requires Exact(t, s) && r.torrent.req == s.torrent.req && r.written == s.written + multiset{x}
    requires Total(t, r) == if asked then Total(t, s) - multiset{x} else Total(t, s)
    requires asked ==> x in Total(t, s)
    ensures Exact(t, r) <==> asked
  {
    hide Total;
    if asked {
      forall y ensures Total(t, r)[y] + r.written[y] == if HandedOut(t, r.torrent.req, y) then 1 else 0 {
        assert Total(t, s)[y] + s.written[y] == if HandedOut(t, s.torrent.req, y) then 1 else 0;
      }
    } else {
      assert Total(t, r)[x] + r.written[x] == Total(t, s)[x] + s.written[x] + 1;
    }
  }

  lemma {:induction false} ArriveExactIff(t: Torrent, s: System, j: nat, b: Block, now: nat)
    requires Good(t, s) && Exact(t, s) && j < |s.peers| && !Ignores(s.peers[j].state, b)
    ensures ValidPeer(s.peers[j].state)
    ensures Exact(t, Arrive(s, j, b, now)) <==> b.Info() in Outstanding(s.peers[j].state.man)
  {
    GoodPeerIsValid(t, s, j);
    hide Total, Arrive, Good, Exact, ValidPeer, Ignores;
    ArriveTotal(t, s, j, b, now);
    PeerIncluded(t, s, j);
    WritingIsExactIff(t, s, Arrive(s, j, b, now), b.Info(), b.Info() in Outstanding(s.peers[j].state.man));
  }

  ghost predicate Apart(t: Torrent, s: System) {
    forall x :: x in s.written ==> x !in Total(t, s)
  }

  lemma {:induction false} WritingIsApartIff(t: Torrent, s: System, r: System, x: BlockInfo, asked: bool)
    requires Apart(t, s) && r.written == s.written + multiset{x}
    requires Total(t, r) == if asked then Total(t, s) - multiset{x} else Total(t, s)
    requires asked ==> x in Total(t, s)
    requires Total(t, s)[x] <= 1
    ensures Apart(t, r) <==> asked || x !in Total(t, s)
  {
    hide Total;
    assert x in r.written;
  }

  /** Whatever came unasked before: written blocks stay out of all places exactly
      if the block was outstanding here, or is in no place. */
  lemma {:induction false} ArriveKeepsApartIff(t: Torrent, s: System, j: nat, b: Block, now: nat)
    requires Good(t, s) && j < |s.peers| && !Ignores(s.peers[j].state, b) && Apart(t, s)
    ensures ValidPeer(s.peers[j].state)
    ensures Apart(t, Arrive(s, j, b, now)) <==>
      b.Info() in Outstanding(s.peers[j].state.man) || b.Info() !in Total(t, s)
  {
    GoodPeerIsValid(t, s, j);
    assert Total(t, s)[b.Info()] <= 1;
    hide Total, Arrive, Good, Apart, ValidPeer, Ignores;
    ArriveTotal(t, s, j, b, now);
    PeerIncluded(t, s, j);
    WritingIsApartIff(t, s, Arrive(s, j, b, now), b.Info(), b.Info() in Outstanding(s.peers[j].state.man));
  }

  // ---- one step -------------------------------------------------------------------------------------

  lemma {:induction false} OnlyBlocksAreWritten(t: Torrent, s: System, e: Event)
    requires !e.BlockEvent? || e.peer >= |s.peers| || Ignores(s.peers[e.peer].state, e.block)
    ensures Step(t, s, e).written == s.written
  {
  }

  lemma {:induction false} BlockStep(t: Torrent, s: System, e: Event)
    requires e.BlockEvent? && e.peer < |s.peers| && ValidPeer(s.peers[e.peer].state)
    ensures Step(t, s, e) == Arrive(s, e.peer, e.block, e.now)
  {
    hide ValidPeer, Arrive;
  }

  lemma {:induction false} BlockStepExactIff(t: Torrent, s: System, e: Event)
    requires Good(t, s) && Exact(t, s) && e.BlockEvent? && e.peer < |s.peers| && !Ignores(s.peers[e.peer].state, e.block)
    ensures Exact(t, Step(t, s, e)) <==> !Unasked(s, e)
  {
    hide Exact, Good, ValidPeer, Arrive, Step, Outstanding, Ignores;
    GoodPeerIsValid(t, s, e.peer);
    BlockStep(t, s, e);
    ArriveExactIff(t, s, e.peer, e.block, e.now);
  }

  lemma {:induction false} RequestKeepsExact(t: Torrent, s: System, e: Event)
    requires Good(t, s) && Exact(t, s) && e.RequestEvent?
    ensures Exact(t, Step(t, s, e))
  {
    hide HandOut, Exact, Good;
    assert Step(t, s, e) == HandOut(s, e.id, e.wanted);
    HandOutKeepsExact(t, s, e.id, e.wanted);
  }

  /** The account stays exact exactly if no block came unasked. */
  lemma {:induction false} StepExactIff(t: Torrent, s: System, e: Event)
    requires Good(t, s) && Exact(t, s) && !s.disk.endgame
    ensures Exact(t, Step(t, s, e)) <==> !Unasked(s, e)
  {
    hide Step, Exact, Good, Moves, ValidPeer, GoodMsgs, GoodPeers, Ignores;
    if e.RequestEvent? {
      RequestKeepsExact(t, s, e);
    } else if e.BlockEvent? && e.peer < |s.peers| && !Ignores(s.peers[e.peer].state, e.block) {
      BlockStepExactIff(t, s, e);
    } else {
      StepIsFine(t, s, e);
      OnlyBlocksAreWritten(t, s, e);
      MovesKeepExact(t, s, Step(t, s, e));
    }
  }

  // ---- whole runs --------------------------------------------------------------------------------------

  /** The account is exact now and was in every state before. */
  ghost predicate AlwaysExact(t: Torrent, s: System, es: seq<Event>, k: nat)
    requires k <= |es|
  {
    Exact(t, Run(t, s, es, k)) && (k == 0 || AlwaysExact(t, s, es, k - 1))
  }

  ghost predicate AllAsked(t: Torrent, s: System, es: seq<Event>, k: nat)
    requires k <= |es|
  {
    k == 0 || (AllAsked(t, s, es, k - 1) && !Unasked(Run(t, s, es, k - 1), es[k - 1]))
  }

  lemma {:induction false} EndgameComesOnce(t: Torrent, s: System, es: seq<Event>, k: nat)
    requires 0 < k <= |es| && !Run(t, s, es, k).disk.endgame
    ensures !Run(t, s, es, k - 1).disk.endgame
  {
    hide Step;
    if Run(t, s, es, k - 1).disk.endgame {
      EndgameStays(t, Run(t, s, es, k - 1), es[k - 1]);
    }
  }

  lemma {:induction false} AlwaysExactStep(t: Torrent, s: System, es: seq<Event>, k: nat)
    requires 0 < k <= |es| && Kept(t, s) && !Run(t, s, es, k - 1).disk.endgame
    requires Exact(t, Run(t, s, es, k - 1))
    ensures Exact(t, Run(t, s, es, k)) <==> !Unasked(Run(t, s, es, k - 1), es[k - 1])
  {
    hide Step, Exact, Good, NoneLost, Unasked;
    RunKeeps(t, s, es, k - 1);
    StepExactIff(t, Run(t, s, es, k - 1), es[k - 1]);
  }

  lemma {:induction false} RunExactIff(t: Torrent, s: System, es: seq<Event>, k: nat)
    requires k <= |es| && Kept(t, s) && Exact(t, s) && !Run(t, s, es, k).disk.endgame
    ensures AlwaysExact(t, s, es, k) <==> AllAsked(t, s, es, k)
  {
    hide Step, Exact, Kept, Unasked;
    if k > 0 {
      EndgameComesOnce(t, s, es, k);
      RunExactIff(t, s, es, k - 1);
      if AlwaysExact(t, s, es, k - 1) {
        AlwaysExactStep(t, s, es, k);
      }
    }
  }

  lemma {:induction false} OutsetIsExact(t: Torrent, image: seq<byte>, have: seq<bool>)
    ensures Exact(t, Outset(image, have))
  {
    assert Total(t, Outset(image, have)) == multiset{};
  }

  /** Over every run before endgame: in all states so far each block of each piece
      handed out was in exactly one place, dropped, or written, and that once, and no
      other block was anywhere, exactly if no peer sent a block unasked. */
  lemma {:induction false} AccountIsExactIff(t: Torrent, image: seq<byte>, have: seq<bool>, es: seq<Event>, k: nat)
    requires k <= |es| && !Run(t, Outset(image, have), es, k).disk.endgame
    ensures AlwaysExact(t, Outset(image, have), es, k) <==> AllAsked(t, Outset(image, have), es, k)
  {
    OutsetIsKept(t, image, have);
    OutsetIsExact(t, image, have);
    RunExactIff(t, Outset(image, have), es, k);
  }

  // ---- what the disk gets --------------------------------------------------------------------------------

  /** The blocks of piece `p` handed to the disk, in order. */
  ghost function Written(t: Torrent, s: System, es: seq<Event>, p: nat, k: nat): seq<BlockInfo>
    requires k <= |es|
  {
    if k == 0 then [] else Written(t, s, es, p, k - 1) + WrittenBy(Run(t, s, es, k - 1), es[k - 1], p)
  }

  ghost function WrittenBy(s: System, e: Event, p: nat): seq<BlockInfo> {
    if e.BlockEvent? && e.peer < |s.peers| && ValidPeer(s.peers[e.peer].state)
      && !Ignores(s.peers[e.peer].state, e.block) && e.block.index == p
    then [e.block.Info()] else []
  }

  lemma {:induction false} StepWrites(t: Torrent, s: System, e: Event, p: nat, b: BlockInfo)
    requires b.index == p
    ensures Step(t, s, e).written[b] == s.written[b] + multiset(WrittenBy(s, e, p))[b]
  {
  }

  lemma {:induction false} WrittenCounts(t: Torrent, s: System, es: seq<Event>, p: nat, k: nat, b: BlockInfo)
    requires k <= |es| && s.written == multiset{} && b.index == p
    ensures Run(t, s, es, k).written[b] == multiset(Written(t, s, es, p, k))[b]
  {
    hide Step, WrittenBy;
    if k > 0 {
      WrittenCounts(t, s, es, p, k - 1, b);
      StepWrites(t, Run(t, s, es, k - 1), es[k - 1], p, b);
    }
  }

  lemma {:induction false} WrittenOfPiece(t: Torrent, s: System, es: seq<Event>, p: nat, k: nat, b: BlockInfo)
    requires k <= |es| && b in Written(t, s, es, p, k)
    ensures b.index == p
  {
    hide Step, ValidPeer, Run;
    if b !in WrittenBy(Run(t, s, es, k - 1), es[k - 1], p) {
      WrittenOfPiece(t, s, es, p, k - 1, b);
    }
  }

  /** When no peer sent a block unasked, a piece that was handed out and has no block
      in any place or dropped has been given to the disk block by block, each once:
      what the disk needs to complete the piece in any order. */
  lemma {:induction false} PieceIsWrittenOnce(t: Torrent, image: seq<byte>, have: seq<bool>, es: seq<Event>, k: nat, p: nat)
    requires k <= |es| && !Run(t, Outset(image, have), es, k).disk.endgame && AllAsked(t, Outset(image, have), es, k)
    requires Bit(Run(t, Outset(image, have), es, k).torrent.req, p)
    requires forall b :: b in PieceBlocks(t.total, t.pl, p) ==> b !in Total(t, Run(t, Outset(image, have), es, k))
    ensures multiset(Written(t, Outset(image, have), es, p, k)) == multiset(PieceBlocks(t.total, t.pl, p))
  {
    AccountIsExactIff(t, image, have, es, k);
    ExactIsWrittenOnce(t, Outset(image, have), es, k, p);
  }

  lemma {:induction false} ExactIsWrittenOnce(t: Torrent, s: System, es: seq<Event>, k: nat, p: nat)
    requires k <= |es| && s.written == multiset{} && Exact(t, Run(t, s, es, k)) && Bit(Run(t, s, es, k).torrent.req, p)
    requires forall b :: b in PieceBlocks(t.total, t.pl, p) ==> b !in Total(t, Run(t, s, es, k))
    ensures multiset(Written(t, s, es, p, k)) == multiset(PieceBlocks(t.total, t.pl, p))
  {
    hide Run, Written, Total;
    var r, w, m := Run(t, s, es, k), Written(t, s, es, p, k), PieceBlocks(t.total, t.pl, p);
    forall b ensures multiset(w)[b] == multiset(m)[b] {
      PieceBlocksOnce(t.total, t.pl, p, b);
      if b.index == p {
        WrittenCounts(t, s, es, p, k, b);
        assert Total(t, r)[b] + r.written[b] == if HandedOut(t, r.torrent.req, b) then 1 else 0;
      } else if b in w {
        WrittenOfPiece(t, s, es, p, k, b);
      }
    }
  }
}
