/** Whole runs of the disk task: what no sequence of writes, requests, returns
    can break, and how a piece completes whatever the order of its blocks. */
module DiskRuns {
  import opened Basics
  import opened Metainfo
  import opened DiskLayout
  import opened DiskModel

  datatype DiskEvent =
    | WriteEvent(block: Block)
    | RequestEvent(pieces: seq<nat>, bits: seq<bool>, pending: nat)
    | ReturnEvent(blocks: seq<BlockInfo>)
    | FinishEvent

  ghost function Step(t: Torrent, s: DiskState, e: DiskEvent): DiskState
    requires ValidState(t, s)
  {
    match e
    case WriteEvent(b) => Write(t, s, b)
    case RequestEvent(pieces, bits, pending) => Request(t, s, pieces, bits, pending).0
    case ReturnEvent(blocks) => Return(s, blocks)
    case FinishEvent => Finish(s)
  }

  lemma {:induction false} StepKeepsValidState(t: Torrent, s: DiskState, e: DiskEvent)
    requires ValidState(t, s)
    ensures ValidState(t, Step(t, s, e))
  {
    if e.WriteEvent? {
      WriteKeepsValidState(t, s, e.block);
    }
  }

  /** The state after the first `k` events. */
  ghost function Run(t: Torrent, s: DiskState, es: seq<DiskEvent>, k: nat): (r: DiskState)
    requires ValidState(t, s) && k <= |es|
    ensures ValidState(t, r)
  {
    if k == 0 then
      s
    else
      StepKeepsValidState(t, Run(t, s, es, k - 1), es[k - 1]);
      Step(t, Run(t, s, es, k - 1), es[k - 1])
  }

  // ---- blocks that stay inside their piece ----------------------------------------

  /** A write through this block touches no byte beyond its own piece. */
  ghost predicate StaysInside(t: Torrent, b: Block) {
    var at := Start(b.Info(), t.pl);
    b.data == [] || at >= t.total || Min(at + |b.data|, t.total) <= PieceEnd(t.total, t.pl, b.index)
  }

  /** Every byte of every other piece survives the write. */
  ghost predicate KeepsOtherPieces(t: Torrent, b: Block, image: seq<byte>) {
    forall q :: 0 <= q < t.n && q != b.index ==>
      PieceBytes(t, Overwrite(image, 0, Start(b.Info(), t.pl), b.data), q) == PieceBytes(t, image, q)
  }

  lemma {:induction false} PiecesDisjoint(t: Torrent, p: nat, q: nat)
    requires t.WellFormed() && p < t.n && q < t.n && p != q
    ensures PieceEnd(t.total, t.pl, p) <= q * t.pl || PieceEnd(t.total, t.pl, q) <= p * t.pl
  {
    if p < q {
      MulStep(p, q, t.pl);
    } else {
      MulStep(q, p, t.pl);
    }
  }

  lemma {:induction false} OverwriteElsewhere(image: seq<byte>, at: nat, data: seq<byte>, from: nat, to: nat)
    requires from <= to <= |image|
    requires at + |data| <= from || to <= at || data == []
    ensures Overwrite(image, 0, at, data)[from..to] == image[from..to]
  {
  }

  lemma {:induction false} InsideKeepsPiece(t: Torrent, b: Block, image: seq<byte>, q: nat)
    requires t.WellFormed() && |image| == t.total && b.index < t.n && q < t.n && q != b.index
    requires StaysInside(t, b)
    ensures PieceBytes(t, Overwrite(image, 0, Start(b.Info(), t.pl), b.data), q) == PieceBytes(t, image, q)
  {
    PieceLenIsSpan(t.total, t.pl, t.n, q);
    PiecesDisjoint(t, b.index, q);
    var at, from, to := Start(b.Info(), t.pl), q * t.pl, PieceEnd(t.total, t.pl, q);
    if at + |b.data| <= from || to <= at || b.data == [] {
      OverwriteElsewhere(image, at, b.data, from, to);
    }
  }

  /** A block leaves every other piece alone on every image exactly when it stays
      inside its own piece: one that reaches further changes a neighbour. */
  lemma {:induction false} OtherPiecesKeptIff(t: Torrent, b: Block)
    requires t.WellFormed() && b.index < t.n
    ensures (forall image: seq<byte> :: |image| == t.total ==> KeepsOtherPieces(t, b, image)) <==> StaysInside(t, b)
  {
    if StaysInside(t, b) {
      forall image: seq<byte> | |image| == t.total ensures KeepsOtherPieces(t, b, image) {
        forall q | 0 <= q < t.n && q != b.index
          ensures PieceBytes(t, Overwrite(image, 0, Start(b.Info(), t.pl), b.data), q) == PieceBytes(t, image, q)
        {
          InsideKeepsPiece(t, b, image, q);
        }
      }
    } else {
      var image := Disturbed(t, b);
      assert |image| == t.total && !KeepsOtherPieces(t, b, image);
    }
  }

  /** An image on which a block that leaves its piece changes another one. */
  lemma {:induction false} Disturbed(t: Torrent, b: Block) returns (image: seq<byte>)
    requires t.WellFormed() && b.index < t.n && !StaysInside(t, b)
    ensures |image| == t.total && !KeepsOtherPieces(t, b, image)
  {
    var at := Start(b.Info(), t.pl);
    var x := Max(at, PieceEnd(t.total, t.pl, b.index));
    var q := x / t.pl;
    DivModIdentity(x, t.pl);
    var other: byte := (b.data[x - at] as int + 1) % 256;
    image := seq(t.total, i => other);
    PieceHolds(t, x, q);
    var after := Overwrite(image, 0, at, b.data);
    assert after[x] != image[x];
    assert PieceBytes(t, after, q)[x - q * t.pl] == after[x];
    assert PieceBytes(t, image, q)[x - q * t.pl] == image[x];
    assert q != b.index;
  }

  lemma {:induction false} PieceHolds(t: Torrent, x: nat, q: nat)
    requires t.WellFormed() && x < t.total && q * t.pl <= x < q * t.pl + t.pl
    ensures q < t.n && q * t.pl <= x < PieceEnd(t.total, t.pl, q)
  {
    if q >= t.n {
      MulMonotone(t.n, q, t.pl);
    }
  }

  // ---- validated pieces stay valid ---------------------------------------------------

  /** The counter carries the mark of a validated piece. */
  ghost predicate Frozen(s: DiskState, p: nat) {
    p < |s.downloaded| && s.downloaded[p] == USIZE_MAX
  }

  ghost predicate WellBehaved(t: Torrent, e: DiskEvent) {
    e.WriteEvent? && e.block.index < t.n ==> StaysInside(t, e.block)
  }

  /** Validated pieces hash correctly and were announced once, others never. */
  ghost predicate Sound(t: Torrent, s: DiskState, p: nat)
    requires t.WellFormed() && p < t.n
  {
    && (Frozen(s, p) ==> ValidPiece(t, s.image, p))
    && Count(s.sent, DownloadedPiece(p)) <= 1
    && (s.downloaded != [] ==> (Frozen(s, p) <==> Count(s.sent, DownloadedPiece(p)) == 1))
  }

  lemma {:induction false} CountAppend<T>(s: seq<T>, x: T, y: T)
    ensures Count(s + [y], x) == Count(s, x) + if x == y then 1 else 0
  {
  }

  /** What a step must do to one piece: keep it sound, announce it exactly when
      it freezes it, and leave its bytes alone once frozen. */
  ghost predicate SoundTransition(t: Torrent, s: DiskState, r: DiskState, p: nat)
    requires t.WellFormed() && p < t.n
  {
    && Sound(t, r, p)
    && (Frozen(s, p) ==> PieceBytes(t, r.image, p) == PieceBytes(t, s.image, p))
    && (Frozen(s, p) ==> Frozen(r, p) || r.downloaded == [])
    && Count(r.sent, DownloadedPiece(p)) ==
      Count(s.sent, DownloadedPiece(p)) + if !Frozen(s, p) && Frozen(r, p) then 1 else 0
  }

  lemma {:induction false} SoundCount(t: Torrent, s: DiskState, piece: nat, count: nat, p: nat)
    requires ValidState(t, s) && p < t.n && piece < |s.downloaded| && t.pl < USIZE_MAX
    requires !Frozen(s, piece) && Sound(t, s, p)
    ensures SoundTransition(t, s, Counted(t, s, piece, count), p)
  {
    assert t.Len(piece) <= t.pl by {
      PieceLenIsSpan(t.total, t.pl, t.n, piece);
    }
    CountAppend(s.sent, DownloadedPiece(p), DownloadedPiece(piece));
    CountAppend(s.sent, DownloadedPiece(p), CorruptedPiece(piece));
  }

  /** Every step of a well-behaved run treats every piece soundly. */
  lemma {:induction false} SoundStep(t: Torrent, s: DiskState, e: DiskEvent, p: nat)
    requires ValidState(t, s) && p < t.n && Sound(t, s, p) && WellBehaved(t, e) && t.pl < USIZE_MAX
    ensures SoundTransition(t, s, Step(t, s, e), p)
  {
    hide Counted, PieceBytes;
    match e
    case WriteEvent(b) =>
      if b.index < |s.downloaded| && s.downloaded[b.index] != USIZE_MAX {
        var written := s.(image := Overwrite(s.image, 0, Start(b.Info(), t.pl), b.data));
        if b.index != p {
          InsideKeepsPiece(t, b, s.image, p);
        }
        assert SoundTransition(t, s, written, p);
        SoundCount(t, written, b.index, s.downloaded[b.index] + |b.data|, p);
        assert Step(t, s, e) == Counted(t, written, b.index, s.downloaded[b.index] + |b.data|);
      }
    case RequestEvent(pieces, bits, pending) =>
      CountAppend(s.sent, DownloadedPiece(p), Endgame);
    case ReturnEvent(blocks) =>
    case FinishEvent =>
  }

  lemma {:induction false} InitialIsSound(t: Torrent, image: seq<byte>, p: nat)
    requires t.WellFormed() && |image| == t.total && t.pl < USIZE_MAX && p < t.n
    ensures ValidState(t, Initial(t, image)) && Sound(t, Initial(t, image), p)
  {
    InitialIsValid(t, image);
    PieceLenIsSpan(t.total, t.pl, t.n, p);
  }

  /** If `p` was validated in state `a`, then in `b` it still is: same bytes,
      right digest, announced exactly once. */
  ghost predicate Stable(t: Torrent, a: DiskState, b: DiskState, p: nat)
    requires p < |t.expected|
  {
    Frozen(a, p) ==>
      && ValidPiece(t, b.image, p)
      && PieceBytes(t, b.image, p) == PieceBytes(t, a.image, p)
      && Count(b.sent, DownloadedPiece(p)) == 1
  }

  lemma {:induction false} StableStep(t: Torrent, a: DiskState, b: DiskState, e: DiskEvent, p: nat)
    requires ValidState(t, b) && p < t.n && Sound(t, b, p) && WellBehaved(t, e) && t.pl < USIZE_MAX
    requires Stable(t, a, b, p)
    ensures Sound(t, Step(t, b, e), p) && Stable(t, a, Step(t, b, e), p)
  {
    SoundStep(t, b, e, p);
    if Frozen(a, p) && !Frozen(b, p) {
      assert b.downloaded == [];
      assert Step(t, b, e).image == b.image;
    }
  }

  /** Over every run whose blocks stay inside their piece: a piece marked as
      validated has bytes that hash to its expected digest, no later event
      disturbs those bytes, and the piece is announced at most once, exactly if
      it was marked. */
  lemma {:induction false} ValidatedPiecesStayValid(t: Torrent, image: seq<byte>, es: seq<DiskEvent>, i: nat, j: nat, p: nat)
    requires t.WellFormed() && |image| == t.total && t.pl < USIZE_MAX && p < t.n
    requires i <= j <= |es| && forall k :: 0 <= k < |es| ==> WellBehaved(t, es[k])
    ensures ValidState(t, Initial(t, image))
    ensures Sound(t, Run(t, Initial(t, image), es, j), p)
    ensures Stable(t, Run(t, Initial(t, image), es, i), Run(t, Initial(t, image), es, j), p)
    decreases j
  {
    InitialIsSound(t, image, p);
    var s := Initial(t, image);
    if i < j {
      ValidatedPiecesStayValid(t, image, es, i, j - 1, p);
      StableStep(t, Run(t, s, es, i), Run(t, s, es, j - 1), es[j - 1], p);
    } else if j > 0 {
      ValidatedPiecesStayValid(t, image, es, j - 1, j - 1, p);
      SoundStep(t, Run(t, s, es, j - 1), es[j - 1], p);
    }
  }
}
