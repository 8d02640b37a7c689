/** The geometry of a torrent: one flat byte string cut into pieces, and every
    piece cut into blocks of at most 16 KiB. */
module Metainfo {
  import opened Basics

  const BLOCK_LEN: nat := 16384

  /** The representation of a block: a byte interval relative to its piece. */
  datatype BlockInfo = BlockInfo(index: nat, begin: nat, len: nat)

  datatype File = File(length: nat)

  /** The part of the info dictionary that fixes the geometry. */
  datatype Info = Info(
    fileLength: Option<nat>,
    files: Option<seq<File>>,
    pieceLength: nat,
    pieces: seq<byte>)
  {
    function TorrentSize(): nat {
      match files
      case Some(fs) => SumFiles(fs)
      case None => match fileLength case Some(n) => n case None => 0
    }

    function NumPieces(): nat {
      DivCeil(|pieces|, 20)
    }

    function BlocksCount(): nat {
      DivCeil(TorrentSize(), BLOCK_LEN)
    }

    function PieceLength(piece: nat): nat
      requires pieceLength > 0 && NumPieces() > 0
    {
      PieceLen(TorrentSize(), pieceLength, NumPieces(), piece)
    }

    /** One hash per piece, as the metainfo format demands. */
    ghost predicate WellFormed() {
      Geometry(TorrentSize(), pieceLength, NumPieces())
    }
  }

  /** Every hash takes 20 bytes; one that is cut short counts as well. */
  lemma {:induction false} OneHashPerPiece(info: Info)
    ensures 20 * (info.NumPieces() - 1) < |info.pieces| <= 20 * info.NumPieces()
  {
  }

  function SumFiles(fs: seq<File>): nat {
    if fs == [] then 0 else fs[0].length + SumFiles(fs[1..])
  }

  ghost predicate Geometry(total: nat, pl: nat, n: nat) {
    pl > 0 && total > 0 && n == DivCeil(total, pl)
  }

  /** Length of a piece: only the last one may be shorter. */
  function PieceLen(total: nat, pl: nat, n: nat, piece: nat): nat
    requires pl > 0 && n > 0
  {
    if piece == n - 1 then
      var rem := total % pl;
      if rem == 0 then pl else rem
    else
      pl
  }

  function PieceEnd(total: nat, pl: nat, piece: nat): nat {
    Min(piece * pl + pl, total)
  }

  /** What the last of `n` pieces holds is the remainder, or a full piece. */
  lemma {:induction false} LastPieceLen(total: nat, pl: nat, n: nat, before: nat)
    requires pl > 0 && n > 0 && before == (n - 1) * pl && before < total <= before + pl
    ensures PieceLen(total, pl, n, n - 1) == total - before
  {
    var q, rem := total / pl, total % pl;
    DivModIdentity(total, pl);
    if rem == 0 {
      assert (q - 1) * pl == total - pl;
      QuotientUnique(total - 1, pl, q - 1, n - 1);
    } else {
      assert total < before + pl by {
        if total == before + pl {
          assert n * pl == total;
          QuotientUnique(total, pl, q, n);
          assert false;
        }
      }
      QuotientUnique(total, pl, q, n - 1);
    }
  }

  lemma {:induction false} PiecesReach(total: nat, pl: nat, n: nat)
    requires Geometry(total, pl, n)
    ensures n > 0 && (n - 1) * pl < total <= (n - 1) * pl + pl
  {
    assert n * pl == (n - 1) * pl + pl;
  }

  /** The remainder-based length of a piece is the length of the interval the
      piece occupies in the flat byte string. */
  lemma {:induction false} PieceLenIsSpan(total: nat, pl: nat, n: nat, piece: nat)
    requires Geometry(total, pl, n) && piece < n
    ensures 0 < PieceLen(total, pl, n, piece) <= pl
    ensures piece * pl + PieceLen(total, pl, n, piece) == PieceEnd(total, pl, piece)
    ensures piece < n - 1 ==> (piece + 1) * pl < total
    ensures piece == n - 1 ==> PieceEnd(total, pl, piece) == total
  {
    PiecesReach(total, pl, n);
    hide Geometry;
    if piece == n - 1 {
      LastPieceLen(total, pl, n, piece * pl);
    } else {
      MulMonotone(piece + 1, n - 1, pl);
      assert (piece + 1) * pl == piece * pl + pl;
    }
  }

  // ---- blocks of one piece ---------------------------------------------------

  /** The blocks of a piece of `size` bytes: full blocks, then what remains. */
  function BlocksOfSize(size: nat, piece: nat): seq<BlockInfo> {
    seq(DivCeil(size, BLOCK_LEN), k requires 0 <= k < DivCeil(size, BLOCK_LEN) =>
      BlockInfo(piece, k * BLOCK_LEN, Min(BLOCK_LEN, size - k * BLOCK_LEN)))
  }

  function PieceBlocks(total: nat, pl: nat, piece: nat): seq<BlockInfo> {
    BlocksOfSize(Max(PieceEnd(total, pl, piece) - piece * pl, 0), piece)
  }

  /** Pieces beyond the end have no blocks, all others have some. */
  lemma {:induction false} HasBlocksIff(total: nat, pl: nat, piece: nat)
    requires pl > 0
    ensures PieceBlocks(total, pl, piece) != [] <==> piece * pl < total
  {
    var start := piece * pl;
    var size := Max(Min(start + pl, total) - start, 0);
    assert size > 0 <==> start < total;
    assert |PieceBlocks(total, pl, piece)| == DivCeil(size, BLOCK_LEN);
  }

  method GetBlockInfosOfPiece(total: nat, pl: nat, piece: nat) returns (blocks: seq<BlockInfo>)
    requires piece * pl <= total
    ensures blocks == PieceBlocks(total, pl, piece)
  {
    var pieceStart := piece * pl;
    var pieceEnd := Min(pieceStart + pl, total);
    var pieceSize := pieceEnd - pieceStart;
    var numBlocks := DivCeil(pieceSize, BLOCK_LEN);
    blocks := [];
    for k := 0 to numBlocks
      invariant blocks == PieceBlocks(total, pl, piece)[..k]
    {
      var begin := k * BLOCK_LEN;
      var len := if k == numBlocks - 1 then pieceSize - begin else BLOCK_LEN;
      blocks := blocks + [BlockInfo(piece, begin, len)];
    }
  }

  // ---- tiling ----------------------------------------------------------------

  function Start(b: BlockInfo, pl: nat): nat {
    b.index * pl + b.begin
  }

  function SumLen(bs: seq<BlockInfo>): nat {
    if bs == [] then 0 else bs[0].len + SumLen(bs[1..])
  }

  /** An interval of the flat byte string. */
  datatype Span = Span(start: nat, len: nat)

  /** The intervals of some blocks, given where each block starts. */
  function Spans(bs: seq<BlockInfo>, at: BlockInfo -> nat): seq<Span> {
    seq(|bs|, i requires 0 <= i < |bs| => Span(at(bs[i]), bs[i].len))
  }

  function Place(pl: nat): BlockInfo -> nat {
    (b: BlockInfo) => Start(b, pl)
  }

  /** The first `k` intervals cut [lo, hi) into consecutive non-empty parts of at
      most BLOCK_LEN bytes. */
  ghost predicate TilesTo(ss: seq<Span>, lo: nat, hi: nat, k: nat)
    requires k <= |ss|
  {
    if k == 0 then
      lo == hi
    else
      && ss[k - 1].start + ss[k - 1].len == hi
      && 0 < ss[k - 1].len <= BLOCK_LEN
      && TilesTo(ss, lo, ss[k - 1].start, k - 1)
  }

  /** The blocks cut [lo, hi) into consecutive non-empty intervals of at most
      BLOCK_LEN bytes. */
  ghost predicate Tiles(bs: seq<BlockInfo>, pl: nat, lo: nat, hi: nat) {
    TilesTo(Spans(bs, Place(pl)), lo, hi, |bs|)
  }

  ghost predicate Covers(b: BlockInfo, pl: nat, x: nat) {
    Start(b, pl) <= x < Start(b, pl) + b.len
  }

  /** Exactly one block of `bs` holds byte offset `x`. */
  ghost predicate CoveredOnce(bs: seq<BlockInfo>, pl: nat, x: nat) {
    exists i :: 0 <= i < |bs| && Covers(bs[i], pl, x)
      && forall j :: 0 <= j < |bs| && Covers(bs[j], pl, x) ==> j == i
  }

  lemma {:induction false} SumLenAppend(bs: seq<BlockInfo>, b: BlockInfo)
    ensures SumLen(bs + [b]) == SumLen(bs) + b.len
  {
    if bs == [] {
      assert [b][1..] == [];
    } else {
      SumLenAppend(bs[1..], b);
      assert (bs + [b])[1..] == bs[1..] + [b];
    }
  }

  lemma {:induction false} TilesSum(bs: seq<BlockInfo>, ss: seq<Span>, lo: nat, hi: nat, k: nat)
    requires k <= |bs| == |ss| && TilesTo(ss, lo, hi, k) && forall i :: 0 <= i < |bs| ==> ss[i].len == bs[i].len
    ensures lo + SumLen(bs[..k]) == hi
  {
    if k > 0 {
      TilesSum(bs, ss, lo, ss[k - 1].start, k - 1);
      SumLenAppend(bs[..k - 1], bs[k - 1]);
      assert bs[..k] == bs[..k - 1] + [bs[k - 1]];
    }
  }

  lemma {:induction false} TilesSame(a: seq<Span>, b: seq<Span>, lo: nat, hi: nat, k: nat)
    requires k <= |a| && k <= |b| && TilesTo(a, lo, hi, k) && forall i :: 0 <= i < k ==> a[i] == b[i]
    ensures TilesTo(b, lo, hi, k)
  {
    if k > 0 {
      TilesSame(a, b, lo, a[k - 1].start, k - 1);
    }
  }

  /** A tiling `a` up to `mid` followed by one from there on. */
  lemma {:induction false} TilesConcat(a: seq<Span>, b: seq<Span>, ab: seq<Span>, lo: nat, mid: nat, hi: nat, k: nat)
    requires k <= |b| && TilesTo(a, lo, mid, |a|) && TilesTo(b, mid, hi, k) && |ab| == |a| + |b|
    requires (forall i :: 0 <= i < |a| ==> ab[i] == a[i]) && (forall i :: 0 <= i < |b| ==> ab[|a| + i] == b[i])
    ensures TilesTo(ab, lo, hi, |a| + k)
  {
    if k == 0 {
      TilesSame(a, ab, lo, mid, |a|);
    } else {
      TilesConcat(a, b, ab, lo, mid, b[k - 1].start, k - 1);
      assert ab[|a| + (k - 1)] == b[k - 1];
    }
  }

  /** Every interval of a tiling stays between its ends. */
  lemma {:induction false} TilesBounds(ss: seq<Span>, lo: nat, hi: nat, k: nat, i: nat)
    requires k <= |ss| && TilesTo(ss, lo, hi, k)
    ensures lo <= hi
    ensures i < k ==> lo <= ss[i].start && ss[i].start + ss[i].len <= hi
  {
    if k > 0 {
      TilesBounds(ss, lo, ss[k - 1].start, k - 1, i);
    }
  }

  ghost predicate Holds(s: Span, x: nat) {
    s.start <= x < s.start + s.len
  }

  lemma {:induction false} TilesPartition(ss: seq<Span>, lo: nat, hi: nat, k: nat, x: nat) returns (i: nat)
    requires k <= |ss| && TilesTo(ss, lo, hi, k) && lo <= x < hi
    ensures i < k && Holds(ss[i], x)
    ensures forall j :: 0 <= j < k && Holds(ss[j], x) ==> j == i
  {
    var start := ss[k - 1].start;
    if x < start {
      i := TilesPartition(ss, lo, start, k - 1, x);
    } else {
      i := k - 1;
      forall j | 0 <= j < k - 1 ensures !Holds(ss[j], x) {
        TilesBounds(ss, lo, start, k - 1, j);
      }
    }
  }

  /** A tiling is a partition: each offset lies in exactly one block. */
  lemma {:induction false} BlocksPartition(bs: seq<BlockInfo>, pl: nat, lo: nat, hi: nat, x: nat) returns (i: nat)
    requires Tiles(bs, pl, lo, hi) && lo <= x < hi
    ensures i < |bs| && Covers(bs[i], pl, x)
    ensures forall j :: 0 <= j < |bs| && Covers(bs[j], pl, x) ==> j == i
  {
    i := TilesPartition(Spans(bs, Place(pl)), lo, hi, |bs|, x);
    forall j | 0 <= j < |bs| ensures Covers(bs[j], pl, x) == Holds(Spans(bs, Place(pl))[j], x) {
    }
  }

  lemma {:induction false} SizeTiles(size: nat, start: nat, ss: seq<Span>, k: nat)
    requires k <= |ss| == DivCeil(size, BLOCK_LEN)
    requires forall i :: 0 <= i < |ss| ==> ss[i] == Span(start + i * BLOCK_LEN, Min(BLOCK_LEN, size - i * BLOCK_LEN))
    ensures TilesTo(ss, start, start + Min(k * BLOCK_LEN, size), k)
  {
    if k > 0 {
      SizeTiles(size, start, ss, k - 1);
      assert (k - 1) * BLOCK_LEN < size;
    }
  }

  lemma {:induction false} SizedBlocksTile(size: nat, piece: nat, bs: seq<BlockInfo>, ss: seq<Span>, start: nat)
    requires bs == BlocksOfSize(size, piece) && |ss| == |bs|
    requires forall i :: 0 <= i < |ss| ==> ss[i] == Span(start + bs[i].begin, bs[i].len)
    ensures TilesTo(ss, start, start + size, |ss|)
    ensures SumLen(bs) == size
  {
    assert |bs| == DivCeil(size, BLOCK_LEN) && Min(|bs| * BLOCK_LEN, size) == size;
    SizeTiles(size, start, ss, |bs|);
    TilesSum(bs, ss, start, start + size, |bs|);
    assert bs[..|bs|] == bs;
  }

  /** The blocks of a piece tile exactly the bytes of that piece, and their
      lengths add up to `Info::piece_length`. */
  lemma {:induction false} PieceTiling(total: nat, pl: nat, n: nat, piece: nat)
    requires Geometry(total, pl, n) && piece < n
    ensures piece * pl <= total
    ensures Tiles(PieceBlocks(total, pl, piece), pl, piece * pl, PieceEnd(total, pl, piece))
    ensures SumLen(PieceBlocks(total, pl, piece)) == PieceLen(total, pl, n, piece)
  {
    PieceLenIsSpan(total, pl, n, piece);
    var bs := PieceBlocks(total, pl, piece);
    var ss := Spans(bs, Place(pl));
    assert forall i :: 0 <= i < |ss| ==> ss[i] == Span(piece * pl + bs[i].begin, bs[i].len);
    SizedBlocksTile(PieceEnd(total, pl, piece) - piece * pl, piece, bs, ss, piece * pl);
  }

  lemma {:induction false} PieceStartsInside(total: nat, pl: nat, n: nat)
    requires Geometry(total, pl, n)
    ensures forall p :: 0 <= p < n ==> p * pl <= total
  {
    forall p | 0 <= p < n ensures p * pl <= total {
      PieceLenIsSpan(total, pl, n, p);
    }
  }

  // ---- all blocks of a torrent -------------------------------------------------

  /** The blocks of the first `n` pieces, in order. */
  function BlocksUpTo(total: nat, pl: nat, n: nat): seq<BlockInfo> {
    if n == 0 then [] else BlocksUpTo(total, pl, n - 1) + PieceBlocks(total, pl, n - 1)
  }

  /** Where the first `m` pieces end. */
  function PiecesEnd(total: nat, pl: nat, m: nat): nat {
    if m == 0 then 0 else PieceEnd(total, pl, m - 1)
  }

  lemma {:induction false} PiecesMeet(total: nat, pl: nat, n: nat, m: nat)
    requires Geometry(total, pl, n) && m < n
    ensures PiecesEnd(total, pl, m) == m * pl
  {
    if m > 0 {
      PieceLenIsSpan(total, pl, n, m - 1);
      assert m * pl == (m - 1) * pl + pl;
    }
  }

  lemma {:induction false} BlocksConcat(a: seq<BlockInfo>, b: seq<BlockInfo>, at: BlockInfo -> nat, lo: nat, mid: nat, hi: nat)
    requires TilesTo(Spans(a, at), lo, mid, |a|) && TilesTo(Spans(b, at), mid, hi, |b|)
    ensures TilesTo(Spans(a + b, at), lo, hi, |a + b|)
  {
    TilesConcat(Spans(a, at), Spans(b, at), Spans(a + b, at), lo, mid, hi, |b|);
  }

  lemma {:induction false} NextPieceTiles(total: nat, pl: nat, n: nat, p: nat)
    requires Geometry(total, pl, n) && p < n
    ensures Tiles(PieceBlocks(total, pl, p), pl, PiecesEnd(total, pl, p), PiecesEnd(total, pl, p + 1))
  {
    PiecesMeet(total, pl, n, p);
    PieceTiling(total, pl, n, p);
  }

  lemma {:induction false} PrefixTiling(total: nat, pl: nat, n: nat, m: nat)
    requires Geometry(total, pl, n) && m <= n
    ensures Tiles(BlocksUpTo(total, pl, m), pl, 0, PiecesEnd(total, pl, m))
  {
    hide PieceBlocks, Spans, Place, Geometry, PieceEnd;
    if m > 0 {
      PrefixTiling(total, pl, n, m - 1);
      NextPieceTiles(total, pl, n, m - 1);
      hide TilesTo, PiecesEnd;
      BlocksConcat(BlocksUpTo(total, pl, m - 1), PieceBlocks(total, pl, m - 1), Place(pl),
        0, PiecesEnd(total, pl, m - 1), PiecesEnd(total, pl, m));
    }
  }

  lemma {:induction false} AllPiecesTile(total: nat, pl: nat, n: nat)
    requires Geometry(total, pl, n)
    ensures Tiles(BlocksUpTo(total, pl, n), pl, 0, total)
  {
    PiecesReach(total, pl, n);
    PieceLenIsSpan(total, pl, n, n - 1);
    hide PieceEnd, Tiles, BlocksUpTo;
    PrefixTiling(total, pl, n, n);
  }

  /** The blocks of all pieces, in order, partition the torrent: every byte
      offset lies in exactly one block. */
  lemma {:induction false} TorrentTiling(total: nat, pl: nat, n: nat)
    requires Geometry(total, pl, n)
    ensures Tiles(BlocksUpTo(total, pl, n), pl, 0, total)
    ensures forall x :: 0 <= x < total ==> CoveredOnce(BlocksUpTo(total, pl, n), pl, x)
  {
    AllPiecesTile(total, pl, n);
    hide Tiles, Covers, BlocksUpTo, Geometry;
    forall x | 0 <= x < total ensures CoveredOnce(BlocksUpTo(total, pl, n), pl, x) {
      var i := BlocksPartition(BlocksUpTo(total, pl, n), pl, 0, total, x);
    }
  }

  /** Bytes by which the last block of `size` bytes falls short of a full block. */
  function Padding(size: nat): nat {
    DivCeil(size, BLOCK_LEN) * BLOCK_LEN - size
  }

  lemma {:induction false} PrefixBlockCount(total: nat, pl: nat, n: nat, m: nat, q: nat)
    requires Geometry(total, pl, n) && m < n && q == DivCeil(pl, BLOCK_LEN)
    ensures |BlocksUpTo(total, pl, m)| == m * q
  {
    if m > 0 {
      PrefixBlockCount(total, pl, n, m - 1, q);
      assert |PieceBlocks(total, pl, m - 1)| == q by {
        PieceLenIsSpan(total, pl, n, m - 1);
      }
      assert m * q == (m - 1) * q + q;
    }
  }

  lemma {:induction false} BlockCountOf(total: nat, pl: nat, n: nat, last: nat, count: nat)
    requires Geometry(total, pl, n) && last == PieceLen(total, pl, n, n - 1) && count == |BlocksUpTo(total, pl, n)|
    ensures count >= DivCeil(total, BLOCK_LEN)
    ensures count == DivCeil(total, BLOCK_LEN) <==> (n - 1) * Padding(pl) + Padding(last) < BLOCK_LEN
  {
    CountedBytes(total, pl, n);
    hide BlocksUpTo, PieceLen, DivCeil, Padding;
    SlackDecides(total, count, (n - 1) * Padding(pl) + Padding(last));
  }

  /** `blocks_count` never exceeds the number of blocks requested, and equals it
      exactly when the padding of all pieces together is less than one block. */
  lemma {:induction false} BlockCountExact(info: Info)
    requires info.WellFormed()
    ensures var count := |BlocksUpTo(info.TorrentSize(), info.pieceLength, info.NumPieces())|;
      && info.BlocksCount() <= count
      && (info.BlocksCount() == count <==>
          (info.NumPieces() - 1) * Padding(info.pieceLength) + Padding(info.PieceLength(info.NumPieces() - 1)) < BLOCK_LEN)
      && (info.pieceLength % BLOCK_LEN == 0 ==> info.BlocksCount() == count)
  {
    var total, pl, n := info.TorrentSize(), info.pieceLength, info.NumPieces();
    var last := PieceLen(total, pl, n, n - 1);
    BlockCountOf(total, pl, n, last, |BlocksUpTo(total, pl, n)|);
    if pl % BLOCK_LEN == 0 {
      MultipleHasNoPadding(pl);
      NoPaddingAtAll(n - 1, Padding(pl), Padding(last));
      PaddingIsShort(last);
    }
  }

  lemma {:induction false} NoPaddingAtAll(full: nat, padding: nat, last: nat)
    requires padding == 0
    ensures full * padding + last == last
  {
  }

  lemma {:induction false} PaddingIsShort(size: nat)
    ensures Padding(size) < BLOCK_LEN
  {
  }

  lemma {:induction false} CountedBytes(total: nat, pl: nat, n: nat)
    requires Geometry(total, pl, n)
    ensures |BlocksUpTo(total, pl, n)| * BLOCK_LEN
      == total + (n - 1) * Padding(pl) + Padding(PieceLen(total, pl, n, n - 1)) >= total
  {
    var last, q := PieceLen(total, pl, n, n - 1), DivCeil(pl, BLOCK_LEN);
    PrefixBlockCount(total, pl, n, n - 1, q);
    assert |PieceBlocks(total, pl, n - 1)| == DivCeil(last, BLOCK_LEN) && total == (n - 1) * pl + last by {
      PieceLenIsSpan(total, pl, n, n - 1);
    }
    PaddingAddsUp(total, pl, n - 1, last, |BlocksUpTo(total, pl, n)|);
  }

  lemma {:induction false} PaddingAddsUp(total: nat, pl: nat, full: nat, last: nat, count: nat)
    requires total == full * pl + last
    requires count == full * DivCeil(pl, BLOCK_LEN) + DivCeil(last, BLOCK_LEN)
    ensures count * BLOCK_LEN - total == full * Padding(pl) + Padding(last) >= 0
  {
    var q := DivCeil(pl, BLOCK_LEN);
    assert full * (q * BLOCK_LEN - pl) == full * (q * BLOCK_LEN) - full * pl;
    assert full * (q * BLOCK_LEN) == (full * q) * BLOCK_LEN;
  }

  lemma {:induction false} SlackDecides(total: nat, count: nat, slack: int)
    requires count * BLOCK_LEN == total + slack && slack >= 0
    ensures count >= DivCeil(total, BLOCK_LEN)
    ensures count == DivCeil(total, BLOCK_LEN) <==> slack < BLOCK_LEN
  {
  }

  lemma {:induction false} MultipleHasNoPadding(size: nat)
    requires size % BLOCK_LEN == 0
    ensures Padding(size) == 0
  {
    DivCeilUnique(size, BLOCK_LEN, size / BLOCK_LEN);
  }
}
