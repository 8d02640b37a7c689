/** What the events of a peer send: every block received for the first time is written
    once, everything outstanding goes back when the peer is snubbed or choked, and
    blocks copied to it or forgotten by it can be requested. */
module PeerEffects {
  import opened Basics
  import opened Metainfo
  import opened DiskModel
  import opened RequestModel
  import opened RequestCoherence
  import opened PeerModel
  import opened PeerRounds
  import PeerRuns

  // ---- blocks arriving -------------------------------------------------------------------

  predicate Ignores(s: PeerState, b: BlockInfo) {
    s.seedOnly || b in s.man.fulfilled
  }

  /** A block is handed to the disk exactly if the peer still downloads and had not
      marked it; in endgame the others are told to cancel it, before that nobody. Any
      block of a peer that still downloads ends its being snubbed. */
  lemma {:induction false} BlockIsWrittenIff(s: PeerState, block: Block, now: nat)
    requires ValidPeer(s)
    ensures var r := ReceiveBlock(s, block, now); var b := block.Info();
      && r.out == s.out
        + (if s.inEndgame && !Ignores(s, b) then [CancelOthers(b)] else [])
        + (if !Ignores(s, b) then [WriteToDisk(block)] else [])
      && (r.isSnubbed <==> s.isSnubbed && s.seedOnly)
      && r.man.fulfilled == s.man.fulfilled + (if Ignores(s, b) then {} else {b})
  {
    var b := block.Info();
    if Ignores(s, b) {
      assert s.out + [] + [] == s.out;
    } else {
      PeerRuns.FulfillMarks(s.man, b, now);
    }
  }

  /** A block another peer received loses one copy, if there is one, and is marked, so
      that it is never requested or written here again. */
  lemma {:induction false} CancelMarks(s: PeerState, b: BlockInfo, now: nat, x: BlockInfo)
    requires ValidPeer(s)
    ensures var r := CancelBlock(s, b, now);
      && b in r.man.fulfilled && r.out == s.out
      && Count(r.endgameQueue, x) == Count(s.endgameQueue, x) - (if x == b && b in s.endgameQueue then 1 else 0)
  {
    PeerRuns.FulfillMarks(s.man, b, now);
    if b in s.endgameQueue {
      SwapRemoveTakes(s.endgameQueue, IndexOf(s.endgameQueue, b));
    }
  }

  // ---- blocks going back -------------------------------------------------------------------

  /** Some blocks were sent back to the disk in one message, or none were. */
  ghost predicate SentBack(before: seq<Emit>, after: seq<Emit>, blocks: multiset<BlockInfo>) {
    if blocks == multiset{} then after == before else
      |after| == |before| + 1 && before <= after
      && after[|before|].ReturnToDisk? && multiset(after[|before|].infos) == blocks
  }

  /** Everything in flight or waiting goes back to the disk, and nothing stays. */
  lemma {:induction false} FreesEverything(s: PeerState)
    ensures var r := FreePending(s);
      && Outstanding(r.man) == multiset{} && r.man.fulfilled == s.man.fulfilled
      && SentBack(s.out, r.out, Outstanding(s.man))
  {
    DrainConserves(s.man);
    var infos := Drain(s.man).1;
    if infos != [] {
      assert infos[0] in multiset(infos);
    }
  }

  /** The time since the earliest deadline is more than 30 seconds. */
  ghost predicate LongOverdue(s: PeerState, now: nat) {
    exists i :: 0 <= i < |s.man.timeouts| && now > s.man.timeouts[i].0 + 30_000_000
  }

  /** A peer becomes snubbed exactly when it is overdue although we are interested and
      not choked. Outside endgame it then gives everything back and keeps nothing
      outstanding, in endgame it keeps everything; it is choked unless it is. */
  lemma {:induction false} BecomesSnubbedIff(s: PeerState, now: nat, interested: bool, choked: bool, choking: bool)
    requires !s.isSnubbed
    ensures var r := CheckSnubbed(s, now, interested, choked, choking);
      && (r.isSnubbed <==> LongOverdue(s, now) && interested && !choked)
      && (!r.isSnubbed ==> r == s)
      && (r.isSnubbed && s.inEndgame ==> r.man == s.man)
      && (r.isSnubbed && !s.inEndgame ==> Outstanding(r.man) == multiset{})
      && (r.isSnubbed && !choking ==> r.out != [] && r.out[|r.out| - 1] == SendChoke)
      && (r.isSnubbed ==>
          SentBack(s.out, if choking || r.out == [] then r.out else r.out[..|r.out| - 1],
            if s.inEndgame then multiset{} else Outstanding(s.man)))
  {
    var r := CheckSnubbed(s, now, interested, choked, choking);
    FreesEverything(s);
    assert LongOverdue(s, now) <==> Overdue(s.man, now);
    if r.isSnubbed {
      var freed := if s.inEndgame then s.out else FreePending(s).out;
      assert (freed + [SendChoke])[..|freed|] == freed;
    }
  }

  /** A snubbed peer stays as it is. */
  lemma {:induction false} SnubbedStays(s: PeerState, now: nat, interested: bool, choked: bool, choking: bool)
    requires s.isSnubbed
    ensures CheckSnubbed(s, now, interested, choked, choking) == s
  {
  }

  // ---- endgame --------------------------------------------------------------------------------

  /** The others get everything this peer has in flight or waiting. */
  lemma {:induction false} EndgameBroadcasts(s: PeerState)
    ensures var r := EnterEndgame(s);
      && r.inEndgame && r.man == s.man
      && |r.out| == |s.out| + 1 && s.out <= r.out
      && r.out[|s.out|].BroadcastInfos? && multiset(r.out[|s.out|].infos) == Outstanding(s.man)
  {
  }

  /** Blocks copied to a peer with nothing else to do and room for them are all
      requested in its next round, unless they are in flight or fulfilled already. */
  lemma {:induction false} CopiesAreRequested(s: PeerState, blocks: seq<BlockInfo>, now: nat, sends: nat, b: BlockInfo)
    requires Coherent(s.man) && s.man.queue == [] && s.endgameQueue == []
    requires |s.man.index| + |blocks| <= s.man.limit && b in blocks
    requires RequestRound(CopyBlocks(s, blocks), None, now, sends).ok
    ensures var r := RequestRound(CopyBlocks(s, blocks), None, now, sends).state;
      && r.endgameQueue == []
      && (b in s.man.index || b in s.man.fulfilled || (b in r.man.index && SendRequest(b) in r.out))
  {
    var c := CopyBlocks(s, blocks);
    assert c.endgameQueue == [] + blocks == blocks;
    assert Taken(c, None, now) == c;
    RoundCopies(c, None, now, sends);
    var i :| 0 <= i < |blocks| && blocks[i] == b;
    assert c.endgameQueue[i] == b;
  }

  /** Blocks copied earlier are requested first. */
  lemma {:induction false} EarlierCopiesFirst(s: PeerState, blocks: seq<BlockInfo>)
    ensures var q := CopyBlocks(s, blocks).endgameQueue;
      && q[..|s.endgameQueue|] == s.endgameQueue
      && forall b :: Count(q, b) == Count(s.endgameQueue, b) + Count(blocks, b)
  {
    var q := CopyBlocks(s, blocks).endgameQueue;
    assert multiset(q) == multiset(s.endgameQueue) + multiset(blocks);
  }

  // ---- marks dropped -----------------------------------------------------------------------------

  lemma {:induction false} UnfulfilledAll(m: Manager<BlockInfo>, blocks: seq<BlockInfo>, n: nat, b: BlockInfo)
    requires n <= |blocks|
    ensures var r := UnfulfillAll(m, blocks, n);
      && (b in r.fulfilled <==> b in m.fulfilled && b !in blocks[..n])
      && (b in r.index <==> b in m.index && b !in blocks[..n])
      && r.limit == m.limit && r.requests == m.requests && r.queue == m.queue
  {
    if n > 0 {
      UnfulfilledAll(m, blocks, n - 1, b);
      assert blocks[..n] == blocks[..n - 1] + [blocks[n - 1]];
    }
  }

  /** After a piece was found corrupted its blocks, and only they, count as not
      fulfilled and not in flight: they are requested again as soon as there is room. */
  lemma {:induction false} ForgottenIsRequested(s: PeerState, blocks: seq<BlockInfo>, b: BlockInfo, now: nat)
    ensures var r := ForgetPiece(s, blocks);
      && (b in r.man.fulfilled <==> b in s.man.fulfilled && b !in blocks)
      && (b in blocks ==> (Add(r.man, b, now).1 <==> |r.man.index| < s.man.limit))
      && Outstanding(r.man) == Outstanding(s.man)
  {
    UnfulfilledAll(s.man, blocks, |blocks|, b);
    assert blocks[..|blocks|] == blocks;
  }

  // ---- the end of the download ----------------------------------------------------------------------

  /** A peer that only seeds writes no block any more, whatever happens. */
  lemma {:induction false} SeedWritesNothing(s: PeerState, es: seq<PeerRuns.PeerEvent>, k: nat, b: BlockInfo)
    requires ValidPeer(s) && k <= |es| && s.seedOnly
    ensures PeerRuns.Run(s, es, k).seedOnly && PeerRuns.Writes(PeerRuns.Run(s, es, k).out, b) == PeerRuns.Writes(s.out, b)
  {
    if k > 0 {
      SeedWritesNothing(s, es, k - 1, b);
      SeedStep(PeerRuns.Run(s, es, k - 1), es[k - 1], b);
    }
  }

  lemma {:induction false} AddsKeepSeeding(s: PeerState, blocks: seq<BlockInfo>, now: nat, sends: nat, n: nat)
    requires n <= |blocks|
    ensures Adds(s, blocks, now, sends, n).state.seedOnly == s.seedOnly
  {
    if n > 0 {
      AddsKeepSeeding(s, blocks, now, sends, n - 1);
    }
  }

  lemma {:induction false} SeedRound(s: PeerState, reply: Option<seq<BlockInfo>>, now: nat, sends: nat)
    ensures RequestRound(s, reply, now, sends).state.seedOnly == s.seedOnly
  {
    var blocks := Given(reply);
    var first := Adds(s, blocks, now, sends, |blocks|);
    AddsKeepSeeding(s, blocks, now, sends, |blocks|);
    if first.ok {
      var (q, more) := Refill(first.state);
      AddsKeepSeeding(q, more, now, first.left, |more|);
    }
  }

  lemma {:induction false} RoundWritesNothing(s: PeerState, reply: Option<seq<BlockInfo>>, now: nat, sends: nat, b: BlockInfo)
    requires ValidPeer(s)
    ensures PeerRuns.Writes(RequestRound(s, reply, now, sends).state.out, b) == PeerRuns.Writes(s.out, b)
  {
    var blocks := Given(reply);
    var first := Adds(s, blocks, now, sends, |blocks|);
    PeerRuns.AddsEffect(s, blocks, now, sends, b);
    if first.ok {
      var (q, more) := Refill(first.state);
      PeerRuns.AddsEffect(q, more, now, first.left, b);
    }
  }

  lemma {:induction false} FreeIsSilent(s: PeerState, b: BlockInfo)
    ensures FreePending(s).seedOnly == s.seedOnly && PeerRuns.Writes(FreePending(s).out, b) == PeerRuns.Writes(s.out, b)
  {
    PeerRuns.SentAppend(s.out, ReturnToDisk(Drain(s.man).1), b);
  }

  lemma {:induction false} SnubIsSilent(s: PeerState, now: nat, interested: bool, choked: bool, choking: bool, b: BlockInfo)
    ensures var r := CheckSnubbed(s, now, interested, choked, choking);
      r.seedOnly == s.seedOnly && PeerRuns.Writes(r.out, b) == PeerRuns.Writes(s.out, b)
  {
    FreeIsSilent(s, b);
    hide FreePending;
    PeerRuns.SentAppend(s.out, SendChoke, b);
    PeerRuns.SentAppend(FreePending(s).out, SendChoke, b);
  }

  lemma {:induction false} SeedStep(s: PeerState, e: PeerRuns.PeerEvent, b: BlockInfo)
    requires ValidPeer(s) && s.seedOnly
    ensures PeerRuns.Step(s, e).seedOnly && PeerRuns.Writes(PeerRuns.Step(s, e).out, b) == PeerRuns.Writes(s.out, b)
  {
    hide RequestRound, CancelBlock, ValidPeer, FreePending, CheckSnubbed, PeerRuns.Writes;
    match e
    case RoundEvent(reply, now, sends) =>
      SeedRound(s, reply, now, sends);
      RoundWritesNothing(s, reply, now, sends, b);
    case CancelEvent(info, now) => CancelIsSilent(s, info, now);
    case EndgameEvent => PeerRuns.SentAppend(s.out, BroadcastInfos(s.man.requests + s.man.queue), b);
    case FreeEvent => FreeIsSilent(s, b);
    case SnubEvent(now, interested, choked, choking) => SnubIsSilent(s, now, interested, choked, choking, b);
    case _ =>
  }

  lemma {:induction false} CancelIsSilent(s: PeerState, b: BlockInfo, now: nat)
    requires ValidPeer(s)
    ensures CancelBlock(s, b, now).seedOnly == s.seedOnly && CancelBlock(s, b, now).out == s.out
  {
  }

  /** With the download finished the peer has nothing in flight, waiting, copied or
      marked, keeps its limit, and only seeds from then on. */
  lemma {:induction false} SeedHasNothing(s: PeerState)
    ensures var r := BecomeSeed(s);
      && r.seedOnly && Outstanding(r.man) == multiset{} && r.endgameQueue == [] && r.man.fulfilled == {}
      && Coherent(r.man) && r.man.limit == s.man.limit && r.man.timeoutMult == s.man.timeoutMult && r.out == s.out
  {
  }
}
