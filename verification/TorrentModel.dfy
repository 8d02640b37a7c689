/** The piece bookkeeping of a torrent as a value: which pieces are here, which
    each peer holds, which of those are missing here, and which have been handed
    out to some peer. Bits are sequences of booleans; a peer is known by its id. */
module TorrentModel {
  import opened Basics
  import opened Metainfo
  import opened DiskModel

  type PeerId = seq<byte>

  datatype TorrentState = TorrentState(
    have: seq<bool>,
    peerPieces: map<PeerId, seq<bool>>,
    diff: map<PeerId, seq<bool>>,
    req: seq<bool>,
    seeding: bool)

  // ---- bitfields --------------------------------------------------------------------

  /** Grown with unset bits, or truncated, to `n` bits. */
  function Resize(bits: seq<bool>, n: nat): seq<bool> {
    seq(n, i requires 0 <= i < n => Bit(bits, i))
  }

  function Unset(n: nat): seq<bool> {
    seq(n, _ => false)
  }

  /** Set a bit, growing the bitfield when it is too short for it. */
  function SafeSet(bits: seq<bool>, i: nat, v: bool): seq<bool> {
    if i < |bits| then bits[i := v] else (bits + Unset(i + 1 - |bits|))[i := v]
  }

  lemma {:induction false} SafeSetBits(bits: seq<bool>, i: nat, v: bool, p: nat)
    ensures Bit(SafeSet(bits, i, v), p) == if p == i then v else Bit(bits, p)
    ensures |SafeSet(bits, i, v)| == Max(|bits|, i + 1)
  {
  }

  /** What the remote has and we have not. */
  function Missing(remote: seq<bool>, have: seq<bool>): seq<bool>
    requires |remote| == |have|
  {
    seq(|remote|, i requires 0 <= i < |remote| => remote[i] && !have[i])
  }

  function Ones(bits: seq<bool>, k: nat): (n: nat)
    requires k <= |bits|
    ensures n <= k
    ensures n == k <==> forall i :: 0 <= i < k ==> bits[i]
  {
    if k == 0 then 0 else Ones(bits, k - 1) + if bits[k - 1] then 1 else 0
  }

  ghost predicate Complete(have: seq<bool>) {
    forall i :: 0 <= i < |have| ==> have[i]
  }

  // ---- announcements -----------------------------------------------------------------

  /** A peer announces one piece. A difference that exists is resized but does
      not gain the piece; one that does not is computed. */
  function PeerHave(s: TorrentState, id: PeerId, piece: nat): TorrentState
    requires piece < |s.have|
  {
    var remote := Resize(if id in s.peerPieces then s.peerPieces[id] else [], |s.have|)[piece := true];
    var d := if id in s.diff then Resize(s.diff[id], |s.have|) else Missing(remote, s.have);
    s.(peerPieces := s.peerPieces[id := remote], diff := s.diff[id := d])
  }

  function SetPeerBitfield(s: TorrentState, id: PeerId, bits: seq<bool>): TorrentState {
    var remote := Resize(bits, |s.have|);
    s.(peerPieces := s.peerPieces[id := remote], diff := s.diff[id := Missing(remote, s.have)])
  }

  // ---- handing out pieces ---------------------------------------------------------------

  /** The pieces from `i` on that are handed out, and the marks after. `wanted` is
      how many are still wanted; it is only compared after a piece is taken, so
      a request for none gets every piece. */
  function Want(diff: seq<bool>, req: seq<bool>, wanted: int, i: nat): (seq<nat>, seq<bool>)
    requires i <= |diff|
    decreases |diff| - i
  {
    if i == |diff| then
      ([], req)
    else if !diff[i] || Bit(req, i) then
      Want(diff, req, wanted, i + 1)
    else if wanted == 1 then
      ([i], SafeSet(req, i, true))
    else
      var (rest, r) := Want(diff, SafeSet(req, i, true), wanted - 1, i + 1);
      ([i] + rest, r)
  }

  ghost predicate Ascending(s: seq<nat>) {
    forall i, j :: 0 <= i < j < |s| ==> s[i] < s[j]
  }

  /** The pieces handed out come in ascending order; each is held by the peer,
      missing here and was not marked; exactly they become marked; there are no
      more than wanted (if any are); and they are the first such pieces: nothing
      is skipped, and none is left over unless as many as wanted were found. */
  lemma {:induction false} WantIsFirstEligible(diff: seq<bool>, req: seq<bool>, wanted: int, i: nat)
    requires i <= |diff|
    ensures var (pieces, r) := Want(diff, req, wanted, i);
      && Ascending(pieces)
      && (forall p :: p in pieces ==> i <= p < |diff| && diff[p] && !Bit(req, p))
      && (forall p :: Bit(r, p) <==> Bit(req, p) || p in pieces)
      && (wanted >= 1 ==> |pieces| <= wanted)
      && |r| >= |req|
      && (forall p, q :: i <= p < |diff| && diff[p] && !Bit(r, p) && q in pieces ==> q < p)
      && (wanted < 1 || |pieces| < wanted ==> forall p :: i <= p < |diff| && diff[p] ==> Bit(r, p))
    decreases |diff| - i
  {
    if i < |diff| {
      if !diff[i] || Bit(req, i) {
        WantIsFirstEligible(diff, req, wanted, i + 1);
      } else if wanted != 1 {
        var marked := SafeSet(req, i, true);
        WantIsFirstEligible(diff, marked, wanted - 1, i + 1);
        var rest := Want(diff, marked, wanted - 1, i + 1).0;
        forall j | 0 <= j < |rest| ensures i < rest[j] {
          assert rest[j] in rest;
        }
        forall p ensures Bit(marked, p) == (p == i || Bit(req, p)) {
          SafeSetBits(req, i, true, p);
        }
      } else {
        forall p ensures Bit(SafeSet(req, i, true), p) == (p == i || Bit(req, p)) {
          SafeSetBits(req, i, true, p);
        }
      }
    }
  }

  /** How a request is answered: with nothing if the peer is unknown; the loop
      ends if the peer has a difference but no bitfield; otherwise the pieces go
      to the disk together with the bitfield of the peer. */
  datatype Answer = Unknown | Stops | Pieces(pieces: seq<nat>, bits: seq<bool>)

  function PiecesWanted(qnt: nat, pl: nat): nat
    requires pl > 0
  {
    DivCeil(qnt * BLOCK_LEN, pl)
  }

  /** The fewest pieces that hold that many full blocks. */
  lemma {:induction false} PiecesHoldBlocks(qnt: nat, pl: nat)
    requires pl > 0
    ensures (PiecesWanted(qnt, pl) - 1) * pl < qnt * 16384 <= PiecesWanted(qnt, pl) * pl
  {
    var w := PiecesWanted(qnt, pl);
    assert (w - 1) * pl == w * pl - pl;
  }

  function RequestPieces(s: TorrentState, id: PeerId, wanted: nat): (TorrentState, Answer) {
    if id !in s.diff then
      (s, Unknown)
    else
      var (pieces, r) := Want(s.diff[id], s.req, wanted, 0);
      (s.(req := r), if id in s.peerPieces then Pieces(pieces, s.peerPieces[id]) else Stops)
  }

  // ---- news from the disk -----------------------------------------------------------------

  function Cleared(diff: map<PeerId, seq<bool>>, piece: nat): map<PeerId, seq<bool>> {
    map id | id in diff :: SafeSet(diff[id], piece, false)
  }

  ghost function MarkDownloaded(s: TorrentState, piece: nat): TorrentState {
    var have := SafeSet(s.have, piece, true);
    if Complete(have) || s.seeding then
      s.(have := have, diff := map[], peerPieces := map[], seeding := true)
    else
      s.(have := have, diff := Cleared(s.diff, piece))
  }

  function ResetCorrupted(s: TorrentState, piece: nat): TorrentState
    requires piece < |s.req|
  {
    s.(req := s.req[piece := false])
  }

  /** The first piece of a bitfield from `i` on. */
  function FirstSet(bits: seq<bool>, i: nat): (r: Option<nat>)
    requires i <= |bits|
    ensures r.Some? ==> i <= r.value < |bits| && bits[r.value] && forall j :: i <= j < r.value ==> !bits[j]
    ensures r.None? ==> forall j :: i <= j < |bits| ==> !bits[j]
    decreases |bits| - i
  {
    if i == |bits| then None else if bits[i] then Some(i) else FirstSet(bits, i + 1)
  }
}
