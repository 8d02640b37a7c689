/** Over any run of one peer: a fulfilled block is neither requested nor written
    again until its mark is dropped. */
module PeerRuns {
  import opened Basics
  import opened Metainfo
  import opened DiskModel
  import opened RequestModel
  import opened RequestCoherence
  import opened PeerModel

  datatype PeerEvent =
    | RoundEvent(reply: Option<seq<BlockInfo>>, now: nat, sends: nat)
    | BlockEvent(block: Block, now: nat)
    | CancelEvent(info: BlockInfo, now: nat)
    | EndgameEvent
    | CopyEvent(blocks: seq<BlockInfo>)
    | CorruptedEvent(piece: nat, total: nat, pl: nat)
    | FreeEvent
    | SnubEvent(now: nat, interested: bool, choked: bool, choking: bool)
    | SeedEvent
    | LimitEvent(limit: nat)

  ghost function Step(s: PeerState, e: PeerEvent): PeerState
    requires ValidPeer(s)
  {
    match e
    case RoundEvent(reply, now, sends) => RequestRound(s, reply, now, sends).state
    case BlockEvent(b, now) => ReceiveBlock(s, b, now)
    case CancelEvent(b, now) => CancelBlock(s, b, now)
    case EndgameEvent => EnterEndgame(s)
    case CopyEvent(blocks) => CopyBlocks(s, blocks)
    case CorruptedEvent(piece, total, pl) => ForgetPiece(s, PieceBlocks(total, pl, piece))
    case FreeEvent => FreePending(s)
    case SnubEvent(now, interested, choked, choking) => CheckSnubbed(s, now, interested, choked, choking)
    case SeedEvent => BecomeSeed(s)
    case LimitEvent(limit) => s.(man := SetLimit(s.man, limit))
  }

  // ---- what has been sent ------------------------------------------------------------

  ghost function Requests(out: seq<Emit>, b: BlockInfo): nat {
    Count(out, SendRequest(b))
  }

  /** Number of blocks with the index, begin and length of `b` handed to the disk. */
  ghost function Writes(out: seq<Emit>, b: BlockInfo): nat {
    if out == [] then 0 else
      var last := out[|out| - 1];
      Writes(out[..|out| - 1], b) + if last.WriteToDisk? && last.block.Info() == b then 1 else 0
  }

  lemma {:induction false} SentAppend(out: seq<Emit>, x: Emit, b: BlockInfo)
    ensures Writes(out + [x], b) == Writes(out, b) + if x.WriteToDisk? && x.block.Info() == b then 1 else 0
    ensures Requests(out + [x], b) == Requests(out, b) + if x == SendRequest(b) then 1 else 0
  {
    assert (out + [x])[..|out|] == out;
  }

  // ---- adding blocks -----------------------------------------------------------------

  lemma {:induction false} AddKeepsPointing(m: Manager<BlockInfo>, x: BlockInfo, now: nat)
    requires Pointing(m)
    ensures Pointing(Add(m, x, now).0)
    ensures Add(m, x, now).0.fulfilled == m.fulfilled
    ensures Add(m, x, now).1 ==> x !in m.fulfilled
  {
    var r := Add(m, x, now).0;
    forall b | b in r.index ensures r.index[b] < |r.requests| && r.requests[r.index[b]] == b {
      assert b == x || b in m.index;
    }
  }

  lemma {:induction false} AddOneEffect(s: PeerState, x: BlockInfo, now: nat, b: BlockInfo)
    requires ValidPeer(s)
    ensures var r := AddOne(s, x, now);
      && ValidPeer(r) && r.man.fulfilled == s.man.fulfilled
      && Writes(r.out, b) == Writes(s.out, b)
      && (b in s.man.fulfilled ==> Requests(r.out, b) == Requests(s.out, b))
  {
    AddKeepsPointing(s.man, x, now);
    SentAppend(s.out, SendRequest(x), b);
  }

  /** Adding blocks keeps positions valid and the marks as they are, requests no
      marked block and writes nothing. */
  lemma {:induction false} AddAllEffect(s: PeerState, blocks: seq<BlockInfo>, now: nat, n: nat, b: BlockInfo)
    requires ValidPeer(s) && n <= |blocks|
    ensures var r := AddAll(s, blocks, now, n);
      && ValidPeer(r) && r.man.fulfilled == s.man.fulfilled
      && Writes(r.out, b) == Writes(s.out, b)
      && (b in s.man.fulfilled ==> Requests(r.out, b) == Requests(s.out, b))
  {
    if n > 0 {
      AddAllEffect(s, blocks, now, n - 1, b);
      AddOneEffect(AddAll(s, blocks, now, n - 1), blocks[n - 1], now, b);
    }
  }

  // ---- one step -----------------------------------------------------------------------

  /** The event drops the mark of `b`. */
  ghost predicate Forgets(e: PeerEvent, b: BlockInfo) {
    e.SeedEvent? || (e.CorruptedEvent? && b in PieceBlocks(e.total, e.pl, e.piece))
  }

  /** What a step may do about block `b` unless it drops its mark. */
  ghost predicate Respects(s: PeerState, r: PeerState, b: BlockInfo) {
    && (b in s.man.fulfilled ==> b in r.man.fulfilled && Requests(r.out, b) == Requests(s.out, b))
    && Writes(r.out, b) <= Writes(s.out, b) +
      if b !in s.man.fulfilled && b in r.man.fulfilled then 1 else 0
  }

  lemma {:induction false} UnfulfillAllEffect(m: Manager<BlockInfo>, blocks: seq<BlockInfo>, n: nat, b: BlockInfo)
    requires Pointing(m) && n <= |blocks|
    ensures Pointing(UnfulfillAll(m, blocks, n))
    ensures b !in blocks ==> (b in UnfulfillAll(m, blocks, n).fulfilled <==> b in m.fulfilled)
  {
    if n > 0 {
      UnfulfillAllEffect(m, blocks, n - 1, b);
    }
  }

  lemma {:induction false} AddsEffect(s: PeerState, blocks: seq<BlockInfo>, now: nat, sends: nat, b: BlockInfo)
    requires ValidPeer(s)
    ensures var r := Adds(s, blocks, now, sends, |blocks|).state;
      && ValidPeer(r) && r.man.fulfilled == s.man.fulfilled
      && Writes(r.out, b) == Writes(s.out, b)
      && (b in s.man.fulfilled ==> Requests(r.out, b) == Requests(s.out, b))
  {
    AddsTakesFirst(s, blocks, now, sends, |blocks|);
    AddAllEffect(s, blocks, now, Adds(s, blocks, now, sends, |blocks|).taken, b);
  }

  lemma {:induction false} RoundEffect(s: PeerState, reply: Option<seq<BlockInfo>>, now: nat, sends: nat, b: BlockInfo)
    requires ValidPeer(s)
    ensures var r := RequestRound(s, reply, now, sends).state; ValidPeer(r) && Respects(s, r, b)
  {
    var blocks := Given(reply);
    var first := Adds(s, blocks, now, sends, |blocks|);
    AddsEffect(s, blocks, now, sends, b);
    if first.ok {
      var (s2, more) := Refill(first.state);
      AddsEffect(s2, more, now, first.left, b);
    }
  }

  lemma {:induction false} BlockEffect(s: PeerState, block: Block, now: nat, b: BlockInfo)
    requires ValidPeer(s)
    ensures ValidPeer(ReceiveBlock(s, block, now)) && Respects(s, ReceiveBlock(s, block, now), b)
  {
    var info := block.Info();
    if !s.seedOnly && info !in s.man.fulfilled {
      FulfillKeepsPointing(s.man, info, now);
      FulfillMarks(s.man, info, now);
      SentBlock(s.out, s.inEndgame, block, b);
    }
  }

  lemma {:induction false} FulfillMarks(m: Manager<BlockInfo>, b: BlockInfo, now: nat)
    requires Pointing(m)
    ensures Fulfill(m, b, now).0.fulfilled == m.fulfilled + {b}
  {
  }

  lemma {:induction false} SentBlock(out: seq<Emit>, inEndgame: bool, block: Block, b: BlockInfo)
    ensures var r := out + (if inEndgame then [CancelOthers(block.Info())] else []) + [WriteToDisk(block)];
      && Writes(r, b) == Writes(out, b) + (if block.Info() == b then 1 else 0)
      && Requests(r, b) == Requests(out, b)
  {
    var mid := out + if inEndgame then [CancelOthers(block.Info())] else [];
    if inEndgame {
      SentAppend(out, CancelOthers(block.Info()), b);
    } else {
      assert mid == out;
    }
    SentAppend(mid, WriteToDisk(block), b);
  }

  lemma {:induction false} FreeEffect(s: PeerState, b: BlockInfo)
    ensures ValidPeer(FreePending(s)) && Respects(s, FreePending(s), b)
  {
    SentAppend(s.out, ReturnToDisk(Drain(s.man).1), b);
  }

  lemma {:induction false} SnubEffect(s: PeerState, now: nat, interested: bool, choked: bool, choking: bool, b: BlockInfo)
    requires ValidPeer(s)
    ensures ValidPeer(CheckSnubbed(s, now, interested, choked, choking))
    ensures Respects(s, CheckSnubbed(s, now, interested, choked, choking), b)
  {
    FreeEffect(s, b);
    SentAppend(s.out, SendChoke, b);
    SentAppend(FreePending(s).out, SendChoke, b);
  }

  lemma {:induction false} CancelEffect(s: PeerState, info: BlockInfo, now: nat, b: BlockInfo)
    requires ValidPeer(s)
    ensures ValidPeer(CancelBlock(s, info, now)) && Respects(s, CancelBlock(s, info, now), b)
  {
    FulfillKeepsPointing(s.man, info, now);
  }

  lemma {:induction false} StepEffect(s: PeerState, e: PeerEvent, b: BlockInfo)
    requires ValidPeer(s)
    ensures ValidPeer(Step(s, e))
    ensures !Forgets(e, b) ==> Respects(s, Step(s, e), b)
  {
    hide RequestRound, ReceiveBlock, CancelBlock, FreePending, CheckSnubbed, UnfulfillAll;
    match e
    case RoundEvent(reply, now, sends) => RoundEffect(s, reply, now, sends, b);
    case BlockEvent(block, now) => BlockEffect(s, block, now, b);
    case CancelEvent(info, now) => CancelEffect(s, info, now, b);
    case EndgameEvent => SentAppend(s.out, BroadcastInfos(s.man.requests + s.man.queue), b);
    case CopyEvent(blocks) =>
    case CorruptedEvent(piece, total, pl) =>
      var blocks := PieceBlocks(total, pl, piece);
      UnfulfillAllEffect(s.man, blocks, |blocks|, b);
    case FreeEvent => FreeEffect(s, b);
    case SnubEvent(now, interested, choked, choking) => SnubEffect(s, now, interested, choked, choking, b);
    case SeedEvent =>
    case LimitEvent(limit) =>
  }

  // ---- whole runs ------------------------------------------------------------------------

  ghost function Run(s: PeerState, es: seq<PeerEvent>, k: nat): (r: PeerState)
    requires ValidPeer(s) && k <= |es|
    ensures ValidPeer(r)
  {
    if k == 0 then
      s
    else
      StepEffect(Run(s, es, k - 1), es[k - 1], BlockInfo(0, 0, 0));
      Step(Run(s, es, k - 1), es[k - 1])
  }

  /** From any state and over any run in which the mark of `b` is not dropped: at
      most one copy of `b` is written, none if it was marked at the start; and
      from the moment it is marked (received here or cancelled by another peer)
      it stays marked, is never requested and never written, even if everything
      outstanding is given back in between. */
  lemma {:induction false} FulfilledOnce(s: PeerState, es: seq<PeerEvent>, k: nat, b: BlockInfo)
    requires ValidPeer(s) && k <= |es|
    requires forall i :: 0 <= i < |es| ==> !Forgets(es[i], b)
    ensures Respects(s, Run(s, es, k), b)
  {
    if k > 0 {
      FulfilledOnce(s, es, k - 1, b);
      StepEffect(Run(s, es, k - 1), es[k - 1], b);
    }
  }
}
