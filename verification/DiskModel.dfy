/** The download state of one torrent as the disk task keeps it, on the flat
    byte string: what a block write, a block request, a return of blocks and the
    end of the download do to it. */
module DiskModel {
  import opened Basics
  import opened Metainfo
  import opened DiskLayout

  /** `usize::MAX` on a 64-bit target: the counter of a validated piece. */
  const USIZE_MAX: nat := 0xFFFF_FFFF_FFFF_FFFF

  type Digest = seq<byte>

  datatype Block = Block(index: nat, begin: nat, data: seq<byte>) {
    function Info(): BlockInfo {
      BlockInfo(index, begin, |data|)
    }
  }

  datatype TorrentMsg =
    | DownloadedPiece(piece: nat)
    | CorruptedPiece(piece: nat)
    | Endgame

  /** What stays fixed for a torrent: its geometry, the expected digest of each
      piece, and the digest function. */
  datatype Torrent = Torrent(total: nat, pl: nat, n: nat, expected: seq<Digest>, sha1: seq<byte> -> Digest) {
    ghost predicate WellFormed() {
      Geometry(total, pl, n) && |expected| == n
    }

    function Len(piece: nat): nat
      requires pl > 0 && n > 0
    {
      PieceLen(total, pl, n, piece)
    }
  }

  datatype DiskState = DiskState(
    image: seq<byte>,
    downloaded: seq<nat>,
    queue: seq<BlockInfo>,
    endgame: bool,
    sent: seq<TorrentMsg>)

  /** Counters are a byte count below the piece length (the whole length for a
      piece found on disk at start-up) or the mark of a validated piece; none
      are left once the download is finished. */
  ghost predicate ValidState(t: Torrent, s: DiskState) {
    && t.WellFormed()
    && |s.image| == t.total
    && (|s.downloaded| == t.n || s.downloaded == [])
    && forall p :: 0 <= p < |s.downloaded| ==> s.downloaded[p] == USIZE_MAX || s.downloaded[p] <= t.pl
  }

  function PieceBytes(t: Torrent, image: seq<byte>, piece: nat): seq<byte> {
    Clip(image, piece * t.pl, Max(piece * t.pl, PieceEnd(t.total, t.pl, piece)))
  }

  /** The bytes of the piece hash to the digest the metainfo gives. */
  predicate ValidPiece(t: Torrent, image: seq<byte>, piece: nat)
    requires piece < |t.expected|
  {
    t.sha1(PieceBytes(t, image, piece)) == t.expected[piece]
  }

  /** The state of a torrent when it is added: pieces found valid on disk hold
      their length, all others zero. */
  ghost function Initial(t: Torrent, image: seq<byte>): DiskState
    requires t.WellFormed() && |image| == t.total
  {
    DiskState(image,
      seq(t.n, p requires 0 <= p < t.n => if ValidPiece(t, image, p) then t.Len(p) else 0),
      [], false, [])
  }

  lemma {:induction false} InitialIsValid(t: Torrent, image: seq<byte>)
    requires t.WellFormed() && |image| == t.total
    ensures ValidState(t, Initial(t, image))
  {
    forall p | 0 <= p < t.n ensures Initial(t, image).downloaded[p] <= t.pl {
      PieceLenIsSpan(t.total, t.pl, t.n, p);
    }
  }

  // ---- write_block ---------------------------------------------------------------

  ghost function Write(t: Torrent, s: DiskState, b: Block): DiskState
    requires ValidState(t, s)
  {
    if b.index >= |s.downloaded| || s.downloaded[b.index] == USIZE_MAX then
      s
    else
      Counted(t, s.(image := Overwrite(s.image, 0, Start(b.Info(), t.pl), b.data)),
        b.index, s.downloaded[b.index] + |b.data|)
  }

  /** The state once `count` bytes of the piece have been counted: a full piece
      is hashed, and either frozen and announced, or reset and queued again. */
  ghost function Counted(t: Torrent, s: DiskState, piece: nat, count: nat): DiskState
    requires t.WellFormed() && piece < t.n && piece < |s.downloaded|
  {
    if count < t.Len(piece) then
      s.(downloaded := s.downloaded[piece := count])
    else if ValidPiece(t, s.image, piece) then
      s.(downloaded := s.downloaded[piece := USIZE_MAX], sent := s.sent + [DownloadedPiece(piece)])
    else
      s.(downloaded := s.downloaded[piece := 0], queue := s.queue + PieceBlocks(t.total, t.pl, piece),
         sent := s.sent + [CorruptedPiece(piece)])
  }

  lemma {:induction false} WriteKeepsValidState(t: Torrent, s: DiskState, b: Block)
    requires ValidState(t, s)
    ensures ValidState(t, Write(t, s, b))
  {
    if b.index < t.n {
      PieceLenIsSpan(t.total, t.pl, t.n, b.index);
    }
  }

  // ---- request_blocks --------------------------------------------------------------

  /** `safe_get`: bits beyond the end read as unset. */
  predicate Bit(bits: seq<bool>, i: nat) {
    i < |bits| && bits[i]
  }

  /** The blocks of the first `k` of the given pieces. */
  function BlocksOfPieces(total: nat, pl: nat, pieces: seq<nat>, k: nat): seq<BlockInfo>
    requires k <= |pieces|
  {
    if k == 0 then [] else BlocksOfPieces(total, pl, pieces, k - 1) + PieceBlocks(total, pl, pieces[k - 1])
  }

  /** How many blocks are popped from a queue of `n`: the longest tail whose
      pieces the peer has. */
  function PopCount(queue: seq<BlockInfo>, bits: seq<bool>, n: nat): (k: nat)
    requires n <= |queue|
    ensures k <= n
    ensures forall i :: n - k <= i < n ==> Bit(bits, queue[i].index)
    ensures k < n ==> !Bit(bits, queue[n - 1 - k].index)
  {
    if n > 0 && Bit(bits, queue[n - 1].index) then 1 + PopCount(queue, bits, n - 1) else 0
  }

  /** The last `k` blocks of the queue, last one first. */
  function Popped(queue: seq<BlockInfo>, k: nat): seq<BlockInfo>
    requires k <= |queue|
  {
    seq(k, i requires 0 <= i < k => queue[|queue| - 1 - i])
  }

  /** The blocks among the first `n` of the queue whose pieces the peer has. */
  function Owned(queue: seq<BlockInfo>, bits: seq<bool>, n: nat): seq<BlockInfo>
    requires n <= |queue|
  {
    if n == 0 then [] else
      Owned(queue, bits, n - 1) + (if Bit(bits, queue[n - 1].index) then [queue[n - 1]] else [])
  }

  /** The blocks answered to a peer, and the state after. New pieces are
      expanded; outside endgame queued blocks are moved, in endgame copied. A
      peer that has nothing pending and gets nothing starts the endgame. */
  ghost function Request(t: Torrent, s: DiskState, pieces: seq<nat>, bits: seq<bool>, pending: nat): (DiskState, seq<BlockInfo>) {
    var made := BlocksOfPieces(t.total, t.pl, pieces, |pieces|);
    if s.endgame then
      (s, made + Owned(s.queue, bits, |s.queue|))
    else
      var k := PopCount(s.queue, bits, |s.queue|);
      var blocks := made + Popped(s.queue, k);
      var moved := s.(queue := s.queue[..|s.queue| - k]);
      if pending == 0 && blocks == [] then
        (moved.(endgame := true, sent := s.sent + [Endgame]), blocks)
      else
        (moved, blocks)
  }

  // ---- returns and the end of the download --------------------------------------------

  ghost function Return(s: DiskState, blocks: seq<BlockInfo>): DiskState {
    s.(queue := s.queue + blocks)
  }

  ghost function Finish(s: DiskState): DiskState {
    s.(queue := [], downloaded := [])
  }
}
