/** One connected peer as a value: its outstanding requests, the blocks copied to
    it in endgame, its flags, and everything it has sent. */
module PeerModel {
  import opened Basics
  import opened Metainfo
  import opened DiskModel
  import opened RequestModel

  datatype Emit =
    | SendRequest(info: BlockInfo)
    | WriteToDisk(block: Block)
    | CancelOthers(info: BlockInfo)
    | ReturnToDisk(infos: seq<BlockInfo>)
    | BroadcastInfos(infos: seq<BlockInfo>)
    | SendChoke

  datatype PeerState = PeerState(
    man: Manager<BlockInfo>,
    endgameQueue: seq<BlockInfo>,
    inEndgame: bool,
    isSnubbed: bool,
    seedOnly: bool,
    out: seq<Emit>)

  const SNUB_AFTER: nat := 30_000_000

  ghost predicate ValidPeer(s: PeerState) {
    Pointing(s.man)
  }

  /** Add the first `n` of some blocks, requesting each one accepted. */
  function AddAll(s: PeerState, blocks: seq<BlockInfo>, now: nat, n: nat): PeerState
    requires n <= |blocks|
  {
    if n == 0 then s else AddOne(AddAll(s, blocks, now, n - 1), blocks[n - 1], now)
  }

  function AddOne(s: PeerState, b: BlockInfo, now: nat): PeerState {
    var (man, added) := Add(s.man, b, now);
    s.(man := man, out := if added then s.out + [SendRequest(b)] else s.out)
  }

  function Room(m: Manager<BlockInfo>): nat {
    Max(m.limit - |m.index|, 0)
  }

  /** What fills the room left: waiting blocks, or copied ones if none wait. */
  function Refill(s: PeerState): (PeerState, seq<BlockInfo>) {
    var (man, waiting) := DrainQueue(s.man, Room(s.man));
    if waiting != [] then
      (s.(man := man), waiting)
    else
      var k := Min(Room(s.man), |s.endgameQueue|);
      (s.(man := man, endgameQueue := s.endgameQueue[k..]), s.endgameQueue[..k])
  }

  /** How far a loop over blocks came: `left` is the number of sends that would
      still succeed, `taken` the number of blocks looked at, and `ok` is false once
      a send has failed. */
  datatype Progress = Progress(state: PeerState, left: nat, taken: nat, ok: bool)

  /** Add the first `n` of some blocks over a connection on which `sends` more sends
      succeed: the one that fails ends the loop, after its block was accepted. */
  function Adds(s: PeerState, blocks: seq<BlockInfo>, now: nat, sends: nat, n: nat): (r: Progress)
    requires n <= |blocks|
    ensures r.taken <= n && (r.ok ==> r.taken == n)
  {
    if n == 0 then
      Progress(s, sends, 0, true)
    else
      var r := Adds(s, blocks, now, sends, n - 1);
      if r.ok then AddNext(r, blocks[n - 1], now) else r
  }

  function AddNext(r: Progress, b: BlockInfo, now: nat): Progress {
    var s := AddOne(r.state, b, now);
    if !Add(r.state.man, b, now).1 then
      r.(state := s, taken := r.taken + 1)
    else if r.left == 0 then
      Progress(s, 0, r.taken + 1, false)
    else
      Progress(s, r.left - 1, r.taken + 1, true)
  }

  /** What a round leads to; blocks that are `dropped` were in the reply, or taken
      from a queue to be requested, and are in no collection any more. */
  datatype Outcome = Outcome(state: PeerState, dropped: seq<BlockInfo>, ok: bool)

  /** What the disk gave: nothing if its answer did not come. */
  function Given(reply: Option<seq<BlockInfo>>): seq<BlockInfo> {
    match reply case Some(blocks) => blocks case None => []
  }

  /** A round of requests; `reply` is the answer of the disk, if one came. */
  function RequestRound(s: PeerState, reply: Option<seq<BlockInfo>>, now: nat, sends: nat): Outcome {
    var blocks := Given(reply);
    var first := Adds(s, blocks, now, sends, |blocks|);
    if !first.ok then
      Outcome(first.state, blocks[first.taken..], false)
    else
      var (s2, more) := Refill(first.state);
      var second := Adds(s2, more, now, first.left, |more|);
      Outcome(second.state, more[second.taken..], second.ok)
  }

  /** What the loop did is what adding the blocks looked at does. */
  lemma {:induction false} AddsTakesFirst(s: PeerState, blocks: seq<BlockInfo>, now: nat, sends: nat, n: nat)
    requires n <= |blocks|
    ensures var r := Adds(s, blocks, now, sends, n); r.state == AddAll(s, blocks, now, r.taken)
  {
    hide AddOne;
    if n > 0 {
      AddsTakesFirst(s, blocks, now, sends, n - 1);
      var r := Adds(s, blocks, now, sends, n - 1);
      if r.ok {
        assert AddNext(r, blocks[n - 1], now).taken == n;
      }
    }
  }

  lemma {:induction false} AddsEnded(s: PeerState, blocks: seq<BlockInfo>, now: nat, sends: nat, n: nat, m: nat)
    requires n <= m <= |blocks| && !Adds(s, blocks, now, sends, n).ok
    ensures Adds(s, blocks, now, sends, m) == Adds(s, blocks, now, sends, n)
  {
    if n < m {
      AddsEnded(s, blocks, now, sends, n, m - 1);
    }
  }

  /** A block arrives from the wire. */
  ghost function ReceiveBlock(s: PeerState, b: Block, now: nat): PeerState
    requires ValidPeer(s)
  {
    if s.seedOnly then
      s
    else if b.Info() in s.man.fulfilled then
      s.(isSnubbed := false)
    else
      s.(isSnubbed := false, man := Fulfill(s.man, b.Info(), now).0,
         out := s.out + (if s.inEndgame then [CancelOthers(b.Info())] else []) + [WriteToDisk(b)])
  }

  /** Another peer received the block first. */
  ghost function CancelBlock(s: PeerState, b: BlockInfo, now: nat): PeerState
    requires ValidPeer(s)
  {
    s.(endgameQueue := if b in s.endgameQueue then SwapRemove(s.endgameQueue, IndexOf(s.endgameQueue, b)) else s.endgameQueue,
       man := Fulfill(s.man, b, now).0)
  }

  function EnterEndgame(s: PeerState): PeerState {
    s.(inEndgame := true, out := s.out + [BroadcastInfos(s.man.requests + s.man.queue)])
  }

  /** Blocks copied from another peer, already shuffled. */
  function CopyBlocks(s: PeerState, blocks: seq<BlockInfo>): PeerState {
    s.(endgameQueue := s.endgameQueue + blocks)
  }

  /** Drop the marks of the first `n` of some blocks. */
  function UnfulfillAll(m: Manager<BlockInfo>, blocks: seq<BlockInfo>, n: nat): Manager<BlockInfo>
    requires n <= |blocks|
  {
    if n == 0 then m else Unfulfill(UnfulfillAll(m, blocks, n - 1), blocks[n - 1])
  }

  function ForgetPiece(s: PeerState, blocks: seq<BlockInfo>): PeerState {
    s.(man := UnfulfillAll(s.man, blocks, |blocks|))
  }

  /** The peer choked us or failed: everything outstanding goes back. */
  function FreePending(s: PeerState): PeerState {
    var (man, infos) := Drain(s.man);
    s.(man := man, out := if infos == [] then s.out else s.out + [ReturnToDisk(infos)])
  }

  /** The earliest deadline is more than 30 seconds past. */
  ghost predicate Overdue(m: Manager<BlockInfo>, now: nat) {
    m.timeouts != [] && exists i :: 0 <= i < |m.timeouts| && now > m.timeouts[i].0 + SNUB_AFTER
  }

  ghost function CheckSnubbed(s: PeerState, now: nat, interested: bool, choked: bool, choking: bool): PeerState {
    if Overdue(s.man, now) && interested && !choked && !s.isSnubbed then
      var freed := if s.inEndgame then s else FreePending(s);
      freed.(isSnubbed := true, out := if choking then freed.out else freed.out + [SendChoke])
    else
      s
  }

  function BecomeSeed(s: PeerState): PeerState {
    s.(seedOnly := true, endgameQueue := [], man := Clear(s.man))
  }
}
