/** The protocol that shares out blocks, as a transition system: the torrent hands
    pieces to a peer, the disk expands them and adds blocks returned earlier, the
    peer requests or parks what it gets, and gives everything back when it is
    choked, snubbed or fails. Messages between tasks arrive in any order, and a
    connection may break in the middle of a round of requests. */
module Allocation {
  import opened Basics
  import opened Metainfo
  import opened DiskModel
  import opened RequestModel
  import opened RequestCoherence
  import opened PeerModel
  import opened TorrentModel
  import TorrentRuns

  /** Messages under way; `Gone` takes the place of one that has arrived. */
  datatype Msg =
    | Ask(id: PeerId, pieces: seq<nat>, bits: seq<bool>)
    | Reply(id: PeerId, blocks: seq<BlockInfo>)
    | Returned(blocks: seq<BlockInfo>)
    | Gone

  /** A connected peer; one that left is kept as a fresh one, as if it had come
      back at once. */
  datatype Conn = Conn(id: PeerId, state: PeerState)

  /** `written` collects the blocks handed to the disk for writing, `dropped` those
      that a late reply or a broken round took along, `announced` the pieces each
      peer ever announced. */
  datatype System = System(
    torrent: TorrentState,
    disk: DiskState,
    pool: seq<Msg>,
    peers: seq<Conn>,
    written: multiset<BlockInfo>,
    dropped: multiset<BlockInfo>,
    announced: set<(PeerId, nat)>)

  datatype Event =
    | HaveEvent(id: PeerId, piece: nat)
    | BitfieldEvent(id: PeerId, bits: seq<bool>)
    | DownloadedEvent(piece: nat)
    | RequestEvent(id: PeerId, wanted: nat)
    | ServeEvent(msg: nat, pending: nat)
    | ReturnEvent(msg: nat)
    | JoinEvent(id: PeerId)
    | RoundEvent(peer: nat, msg: nat, now: nat, sends: nat)
    | IdleRoundEvent(peer: nat, now: nat, sends: nat)
    | BlockEvent(peer: nat, block: Block, now: nat)
    | FreeEvent(peer: nat)
    | LeaveEvent(peer: nat)
    | LimitEvent(peer: nat, limit: nat)
    | TimeoutEvent(msg: nat)

  function NewPeer(): PeerState {
    PeerState(Default(), [], false, false, false, [])
  }

  ghost function Outset(image: seq<byte>, have: seq<bool>): System {
    System(TorrentRuns.Initial(have), DiskState(image, [], [], false, []), [], [], multiset{}, multiset{}, {})
  }

  // ---- steps of the torrent -----------------------------------------------------------

  ghost function HandOut(s: System, id: PeerId, wanted: nat): System {
    var (t, a) := RequestPieces(s.torrent, id, wanted);
    match a
    case Pieces(pieces, bits) => s.(torrent := t, pool := s.pool + [Ask(id, pieces, bits)])
    case Unknown => s.(torrent := t, pool := s.pool + [Reply(id, [])])
    case Stops => s.(torrent := t)
  }

  // ---- steps of the disk ----------------------------------------------------------------

  ghost function Serve(t: Torrent, s: System, i: nat, pending: nat): System
    requires i < |s.pool| && s.pool[i].Ask?
  {
    var (disk, blocks) := Request(t, s.disk, s.pool[i].pieces, s.pool[i].bits, pending);
    s.(disk := disk, pool := s.pool[i := Reply(s.pool[i].id, blocks)])
  }

  ghost function TakeBack(s: System, i: nat): System
    requires i < |s.pool| && s.pool[i].Returned?
  {
    s.(disk := Return(s.disk, s.pool[i].blocks), pool := s.pool[i := Gone])
  }

  // ---- steps of a peer --------------------------------------------------------------------

  function SetPeer(s: System, j: nat, p: PeerState): System
    requires j < |s.peers|
  {
    s.(peers := s.peers[j := s.peers[j].(state := p)])
  }

  /** A round of requests. If a send fails in it the peer is about to fail too, by
      a `LeaveEvent`; other tasks may come in between. */
  function PlayRound(s: System, j: nat, reply: Option<seq<BlockInfo>>, now: nat, sends: nat): System
    requires j < |s.peers|
  {
    var o := RequestRound(s.peers[j].state, reply, now, sends);
    SetPeer(s, j, o.state).(dropped := s.dropped + multiset(o.dropped))
  }

  function Deliver(s: System, j: nat, i: nat, now: nat, sends: nat): System
    requires j < |s.peers| && i < |s.pool| && s.pool[i].Reply?
  {
    PlayRound(s, j, Some(s.pool[i].blocks), now, sends).(pool := s.pool[i := Gone])
  }

  ghost function Arrive(s: System, j: nat, b: Block, now: nat): System
    requires j < |s.peers| && ValidPeer(s.peers[j].state)
  {
    var p := s.peers[j].state;
    SetPeer(s, j, ReceiveBlock(p, b, now)).(
      written := if p.seedOnly || b.Info() in p.man.fulfilled then s.written else s.written + multiset{b.Info()})
  }

  function GiveBack(s: System, j: nat): System
    requires j < |s.peers|
  {
    var blocks := Drain(s.peers[j].state.man).1;
    SetPeer(s, j, FreePending(s.peers[j].state)).(
      pool := if blocks == [] then s.pool else s.pool + [Returned(blocks)])
  }

  function Leave(s: System, j: nat): System
    requires j < |s.peers|
  {
    SetPeer(GiveBack(s, j), j, NewPeer())
  }

  function Join(s: System, id: PeerId): System {
    s.(peers := s.peers + [Conn(id, NewPeer())])
  }

  /** The peer gave up waiting for a reply, or failed before it came: the blocks in
      it go nowhere. */
  function Drop(s: System, i: nat): System
    requires i < |s.pool| && s.pool[i].Reply?
  {
    s.(pool := s.pool[i := Gone], dropped := s.dropped + multiset(s.pool[i].blocks))
  }

  function ChangeLimit(s: System, j: nat, limit: nat): System
    requires j < |s.peers|
  {
    SetPeer(s, j, s.peers[j].state.(man := SetLimit(s.peers[j].state.man, limit)))
  }

  /** One step. An event that does not fit the state (a message or peer that is not
      there, a piece beyond the end) leaves it unchanged. */
  ghost function Step(t: Torrent, s: System, e: Event): System {
    match e
    case HaveEvent(id, piece) =>
      if piece < |s.torrent.have| then
        s.(torrent := PeerHave(s.torrent, id, piece), announced := s.announced + {(id, piece)})
      else
        s
    case BitfieldEvent(id, bits) =>
      s.(torrent := SetPeerBitfield(s.torrent, id, bits),
         announced := s.announced + set p | 0 <= p < |bits| && bits[p] :: (id, p))
    case DownloadedEvent(piece) => s.(torrent := MarkDownloaded(s.torrent, piece))
    case RequestEvent(id, wanted) => HandOut(s, id, wanted)
    case ServeEvent(i, pending) => if i < |s.pool| && s.pool[i].Ask? then Serve(t, s, i, pending) else s
    case ReturnEvent(i) => if i < |s.pool| && s.pool[i].Returned? then TakeBack(s, i) else s
    case JoinEvent(id) => Join(s, id)
    case RoundEvent(j, i, now, sends) =>
      if j < |s.peers| && i < |s.pool| && s.pool[i].Reply? && s.pool[i].id == s.peers[j].id then
        Deliver(s, j, i, now, sends)
      else
        s
    case IdleRoundEvent(j, now, sends) => if j < |s.peers| then PlayRound(s, j, None, now, sends) else s
    case BlockEvent(j, b, now) =>
      if j < |s.peers| && ValidPeer(s.peers[j].state) then Arrive(s, j, b, now) else s
    case FreeEvent(j) => if j < |s.peers| then GiveBack(s, j) else s
    case LeaveEvent(j) => if j < |s.peers| then Leave(s, j) else s
    case LimitEvent(j, limit) => if j < |s.peers| then ChangeLimit(s, j, limit) else s
    case TimeoutEvent(i) => if i < |s.pool| && s.pool[i].Reply? then Drop(s, i) else s
  }

  ghost function Run(t: Torrent, s: System, es: seq<Event>, k: nat): System
    requires k <= |es|
  {
    if k == 0 then s else Step(t, Run(t, s, es, k - 1), es[k - 1])
  }

  // ---- where the blocks are ------------------------------------------------------------------

  function MsgBag(t: Torrent, m: Msg): multiset<BlockInfo> {
    match m
    case Ask(_, pieces, _) => multiset(BlocksOfPieces(t.total, t.pl, pieces, |pieces|))
    case Reply(_, blocks) => multiset(blocks)
    case Returned(blocks) => multiset(blocks)
    case Gone => multiset{}
  }

  /** What each message carries; a piece on its way to the disk stands for its
      blocks. */
  function MsgBags(t: Torrent, pool: seq<Msg>): seq<multiset<BlockInfo>> {
    seq(|pool|, i requires 0 <= i < |pool| => MsgBag(t, pool[i]))
  }

  /** What is in flight or waiting at each peer. */
  ghost function PeerBags(peers: seq<Conn>): seq<multiset<BlockInfo>> {
    seq(|peers|, j requires 0 <= j < |peers| => Outstanding(peers[j].state.man))
  }

  function Sum(bags: seq<multiset<BlockInfo>>, k: nat): multiset<BlockInfo>
    requires k <= |bags|
  {
    if k == 0 then multiset{} else Sum(bags, k - 1) + bags[k - 1]
  }

  /** Every block handed out and not done with, wherever it is. */
  ghost function Placed(t: Torrent, s: System): multiset<BlockInfo> {
    multiset(s.disk.queue) + Sum(MsgBags(t, s.pool), |s.pool|) + Sum(PeerBags(s.peers), |s.peers|)
  }

  /** The same and the dropped ones. */
  ghost function Total(t: Torrent, s: System): multiset<BlockInfo> {
    Placed(t, s) + s.dropped
  }
}
