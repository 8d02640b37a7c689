/** The download half of a connected peer: an object holding its request manager
    and its endgame queue, changed in place by the arms of its event loop. */
module Peer {
  import opened Basics
  import opened Metainfo
  import opened DiskModel
  import opened RequestModel
  import opened PeerModel
  import RM = RequestManager

  class Peer {
    const man: RM.RequestManager<BlockInfo>
    var endgameQueue: seq<BlockInfo>
    var inEndgame: bool
    var isSnubbed: bool
    var seedOnly: bool
    var out: seq<Emit>

    ghost function State(): PeerState
      reads this, man
    {
      PeerState(man.State(), endgameQueue, inEndgame, isSnubbed, seedOnly, out)
    }

    constructor (man: RM.RequestManager<BlockInfo>)
      requires man.State() == Default()
      ensures this.man == man && State() == PeerState(Default(), [], false, false, false, [])
    {
      this.man := man;
      endgameQueue, inEndgame, isSnubbed, seedOnly, out := [], false, false, false, [];
    }

    /** Add blocks in order and request each one accepted; a failed send ends it.
        The first `sends` sends succeed. */
    method AddBlocks(blocks: seq<BlockInfo>, now: nat, sends: nat) returns (ok: bool, left: nat)
      modifies man, this`out
      ensures var r := Adds(old(State()), blocks, now, sends, |blocks|); State() == r.state && ok == r.ok && left == r.left
    {
      ok, left := true, sends;
      for i := 0 to |blocks|
        invariant ok && Adds(old(State()), blocks, now, sends, i) == Progress(State(), left, i, true)
      {
        var added := man.AddRequest(blocks[i], now);
        if added {
          out := out + [SendRequest(blocks[i])];
          if left == 0 {
            AddsEnded(old(State()), blocks, now, sends, i + 1, |blocks|);
            return false, 0;
          }
          left := left - 1;
        }
      }
    }

    /** What fills the room left: waiting blocks, or copied ones if none wait. */
    method TakeMore() returns (blocks: seq<BlockInfo>)
      modifies man, this`endgameQueue
      ensures (State(), blocks) == Refill(old(State()))
    {
      var qnt := man.GetAvailableRequestLen();
      assert qnt == Room(old(man.State()));
      blocks := man.DrainQntQueue(qnt);
      assert (man.State(), blocks) == DrainQueue(old(man.State()), qnt);
      if blocks == [] {
        var k := Min(qnt, |endgameQueue|);
        blocks := endgameQueue[..k];
        endgameQueue := endgameQueue[k..];
      }
    }

    method RequestBlockInfos(reply: Option<seq<BlockInfo>>, now: nat, sends: nat) returns (ok: bool)
      modifies man, this`out, this`endgameQueue
      ensures var r := RequestRound(old(State()), reply, now, sends); State() == r.state && ok == r.ok
    {
      var left := sends;
      ok := true;
      match reply {
        case Some(blocks) => ok, left := AddBlocks(blocks, now, sends);
        case None =>
      }
      if ok {
        var blocks := TakeMore();
        ok, left := AddBlocks(blocks, now, left);
      }
    }

    method HandleBlock(b: Block, now: nat)
      requires ValidPeer(State())
      modifies man, this`out, this`isSnubbed
      ensures ValidPeer(old(State())) && State() == ReceiveBlock(old(State()), b, now)
    {
      if seedOnly {
        return;
      }
      isSnubbed := false;
      if b.Info() in man.fulfilledIndex {
        return;
      }
      var _ := man.FulfillRequest(b.Info(), now);
      if inEndgame {
        out := out + [CancelOthers(b.Info())];
      }
      out := out + [WriteToDisk(b)];
    }

    method Cancel(b: BlockInfo, now: nat)
      requires ValidPeer(State())
      modifies man, this`endgameQueue
      ensures ValidPeer(old(State())) && State() == CancelBlock(old(State()), b, now)
    {
      var pos := RM.Position(endgameQueue, b);
      if pos.Some? {
        endgameQueue := endgameQueue[pos.value := endgameQueue[|endgameQueue| - 1]][..|endgameQueue| - 1];
      }
      var _ := man.FulfillRequest(b, now);
    }

    method Endgame()
      modifies this`inEndgame, this`out
      ensures State() == EnterEndgame(old(State()))
    {
      inEndgame := true;
      out := out + [BroadcastInfos(man.requests + man.queue)];
    }

    method Blocks(blocks: seq<BlockInfo>)
      modifies this`endgameQueue
      ensures State() == CopyBlocks(old(State()), blocks)
    {
      endgameQueue := endgameQueue + blocks;
    }

    method CorruptedPiece(piece: nat, total: nat, pl: nat)
      requires piece * pl <= total
      modifies man
      ensures State() == ForgetPiece(old(State()), PieceBlocks(total, pl, piece))
    {
      var blocks := GetBlockInfosOfPiece(total, pl, piece);
      for i := 0 to |blocks|
        invariant State() == old(State()).(man := UnfulfillAll(old(man.State()), blocks, i))
      {
        man.Unfulfill(blocks[i]);
      }
    }

    method FreePendingBlocks()
      modifies man, this`out
      ensures State() == FreePending(old(State()))
    {
      var infos := man.Drain();
      if infos != [] {
        out := out + [ReturnToDisk(infos)];
      }
    }

    method AntiSnubbing(now: nat, interested: bool, choked: bool, choking: bool)
      modifies man, this`out, this`isSnubbed
      ensures State() == CheckSnubbed(old(State()), now, interested, choked, choking)
    {
      var last := man.GetLastTimestamp();
      if last.None? {
        return;
      }
      if now > last.value + SNUB_AFTER && interested && !choked && !isSnubbed {
        isSnubbed := true;
        if !inEndgame {
          FreePendingBlocks();
        }
        if !choking {
          out := out + [SendChoke];
        }
      }
    }

    method SeedOnly()
      modifies man, this`seedOnly, this`endgameQueue
      ensures State() == BecomeSeed(old(State()))
    {
      seedOnly := true;
      endgameQueue := [];
      man.Clear();
    }
  }
}
