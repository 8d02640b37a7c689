/** How a piece completes: writing each of its blocks once with the right bytes,
    in any order and mixed with anything else, validates it on the last block. */
module DiskCompletion {
  import opened Basics
  import opened Metainfo
  import opened DiskLayout
  import opened DiskModel
  import opened DiskRuns

  /** The writes to piece `p` among the events from number `k` on. */
  ghost function Remaining(es: seq<DiskEvent>, p: nat, k: nat): seq<Block>
    requires k <= |es|
    decreases |es| - k
  {
    if k == |es| then
      []
    else if es[k].WriteEvent? && es[k].block.index == p then
      [es[k].block] + Remaining(es, p, k + 1)
    else
      Remaining(es, p, k + 1)
  }

  function Infos(bs: seq<Block>): seq<BlockInfo> {
    if bs == [] then [] else [bs[0].Info()] + Infos(bs[1..])
  }

  function Bytes(bs: seq<Block>): nat {
    if bs == [] then 0 else |bs[0].data| + Bytes(bs[1..])
  }

  /** The block carries the bytes `target` has at its place in the piece. */
  ghost predicate Correct(b: Block, p: nat, target: seq<byte>) {
    && b.index == p && b.data != []
    && b.begin + |b.data| <= |target|
    && b.data == target[b.begin..b.begin + |b.data|]
  }

  ghost predicate CoveredBy(bs: seq<Block>, x: nat) {
    exists i :: 0 <= i < |bs| && bs[i].begin <= x < bs[i].begin + |bs[i].data|
  }

  /** Each byte of the piece is already right on disk or still to come. */
  ghost predicate RightOrComing(bytes: seq<byte>, target: seq<byte>, rem: seq<Block>) {
    && |bytes| == |target|
    && forall x :: 0 <= x < |target| ==> bytes[x] == target[x] || CoveredBy(rem, x)
  }

  /** Piece `p` while the blocks `rem` are still to be written. */
  ghost predicate Pending(t: Torrent, s: DiskState, p: nat, target: seq<byte>, rem: seq<Block>) {
    && ValidState(t, s) && p < t.n && |s.downloaded| == t.n
    && |target| == t.Len(p) && t.sha1(target) == t.expected[p]
    && (forall i :: 0 <= i < |rem| ==> Correct(rem[i], p, target))
    && if rem == [] then
         Frozen(s, p)
       else
         && !Frozen(s, p)
         && s.downloaded[p] + Bytes(rem) == |target|
         && RightOrComing(PieceBytes(t, s.image, p), target, rem)
  }

  // ---- the start: a permutation of the blocks of the piece --------------------------

  lemma {:induction false} SumLenRemove(bs: seq<BlockInfo>, i: nat)
    requires i < |bs|
    ensures SumLen(bs) == bs[i].len + SumLen(bs[..i] + bs[i + 1..])
  {
    if i > 0 {
      SumLenRemove(bs[1..], i - 1);
      assert (bs[..i] + bs[i + 1..])[1..] == bs[1..][..i - 1] + bs[1..][i..];
    } else {
      assert bs[..0] + bs[1..] == bs[1..];
    }
  }

  lemma {:induction false} SumLenPermutation(a: seq<BlockInfo>, b: seq<BlockInfo>)
    requires multiset(a) == multiset(b)
    ensures SumLen(a) == SumLen(b)
  {
    if a == [] {
      assert |b| == |multiset(b)| == 0;
    } else {
      assert a[0] in multiset(b);
      var i :| 0 <= i < |b| && b[i] == a[0];
      SumLenRemove(b, i);
      assert multiset(a[1..]) == multiset(a) - multiset{a[0]} by {
        assert a == [a[0]] + a[1..];
      }
      assert multiset(b[..i] + b[i + 1..]) == multiset(b) - multiset{b[i]} by {
        assert b == b[..i] + [b[i]] + b[i + 1..];
      }
      SumLenPermutation(a[1..], b[..i] + b[i + 1..]);
    }
  }

  lemma {:induction false} InfosOf(bs: seq<Block>)
    ensures |Infos(bs)| == |bs| && SumLen(Infos(bs)) == Bytes(bs)
    ensures forall i :: 0 <= i < |bs| ==> Infos(bs)[i] == bs[i].Info()
  {
    if bs != [] {
      InfosOf(bs[1..]);
    }
  }

  /** Blocks that are a permutation of the blocks of the piece cover all of it. */
  lemma {:induction false} PermutationCovers(t: Torrent, p: nat, bs: seq<Block>, x: nat)
    requires t.WellFormed() && p < t.n && x < t.Len(p)
    requires multiset(Infos(bs)) == multiset(PieceBlocks(t.total, t.pl, p))
    ensures CoveredBy(bs, x)
  {
    var blocks := PieceBlocks(t.total, t.pl, p);
    PieceTiling(t.total, t.pl, t.n, p);
    PieceLenIsSpan(t.total, t.pl, t.n, p);
    var i := BlocksPartition(blocks, t.pl, p * t.pl, PieceEnd(t.total, t.pl, p), p * t.pl + x);
    assert blocks[i] in multiset(Infos(bs));
    var j :| 0 <= j < |Infos(bs)| && Infos(bs)[j] == blocks[i];
    InfosOf(bs);
  }

  lemma {:induction false} PendingAtStart(t: Torrent, s: DiskState, p: nat, target: seq<byte>, bs: seq<Block>)
    requires ValidState(t, s) && p < t.n && |s.downloaded| == t.n && s.downloaded[p] == 0
    requires |target| == t.Len(p) && t.sha1(target) == t.expected[p]
    requires multiset(Infos(bs)) == multiset(PieceBlocks(t.total, t.pl, p))
    requires forall i :: 0 <= i < |bs| ==> Correct(bs[i], p, target)
    ensures Pending(t, s, p, target, bs)
  {
    PieceLenIsSpan(t.total, t.pl, t.n, p);
    PieceTiling(t.total, t.pl, t.n, p);
    InfosOf(bs);
    SumLenPermutation(Infos(bs), PieceBlocks(t.total, t.pl, p));
    assert Bytes(bs) == |target| > 0;
    assert |PieceBytes(t, s.image, p)| == |target|;
    forall x | 0 <= x < |target| ensures CoveredBy(bs, x) {
      PermutationCovers(t, p, bs, x);
    }
  }

  // ---- one step ------------------------------------------------------------------------

  /** The message counts of piece `p` after a step, relative to before. */
  ghost predicate Announces(s: DiskState, r: DiskState, p: nat, completed: bool) {
    && Count(r.sent, DownloadedPiece(p)) == Count(s.sent, DownloadedPiece(p)) + (if completed then 1 else 0)
    && Count(r.sent, CorruptedPiece(p)) == Count(s.sent, CorruptedPiece(p))
  }

  /** Within a piece, a block written inside it overwrites the same bytes. */
  lemma {:induction false} PieceOverwrite(t: Torrent, image: seq<byte>, b: Block)
    requires t.WellFormed() && |image| == t.total && b.index < t.n && b.begin + |b.data| <= t.Len(b.index)
    ensures PieceBytes(t, Overwrite(image, 0, Start(b.Info(), t.pl), b.data), b.index)
      == Overwrite(PieceBytes(t, image, b.index), 0, b.begin, b.data)
  {
    PieceLenIsSpan(t.total, t.pl, t.n, b.index);
    SliceOverwrite(image, b.index * t.pl, PieceEnd(t.total, t.pl, b.index), b.begin, b.data);
  }

  lemma {:induction false} SliceOverwrite(image: seq<byte>, from: nat, to: nat, at: nat, data: seq<byte>)
    requires from <= to <= |image|
    ensures Overwrite(image, 0, from + at, data)[from..to] == Overwrite(image[from..to], 0, at, data)
  {
  }

  lemma {:induction false} BlockArrives(bytes: seq<byte>, target: seq<byte>, b: Block, rest: seq<Block>)
    requires RightOrComing(bytes, target, [b] + rest) && Correct(b, b.index, target)
    ensures RightOrComing(Overwrite(bytes, 0, b.begin, b.data), target, rest)
  {
    var rem := [b] + rest;
    forall x | 0 <= x < |target| ensures Overwrite(bytes, 0, b.begin, b.data)[x] == target[x] || CoveredBy(rest, x) {
      if !(b.begin <= x < b.begin + |b.data|) && CoveredBy(rem, x) {
        var i :| 0 <= i < |rem| && rem[i].begin <= x < rem[i].begin + |rem[i].data|;
        assert rest[i - 1] == rem[i];
      }
    }
  }

  lemma {:induction false} NothingComing(bytes: seq<byte>, target: seq<byte>)
    requires RightOrComing(bytes, target, [])
    ensures bytes == target
  {
    forall x | 0 <= x < |target| ensures bytes[x] == target[x] {
      assert !CoveredBy([], x);
    }
  }

  /** A write of the next block of the piece. */
  lemma {:induction false} OwnWrite(t: Torrent, s: DiskState, p: nat, target: seq<byte>, b: Block, rest: seq<Block>)
    requires Pending(t, s, p, target, [b] + rest) && t.pl < USIZE_MAX
    ensures Pending(t, Write(t, s, b), p, target, rest)
    ensures Announces(s, Write(t, s, b), p, rest == [])
  {
    WriteKeepsValidState(t, s, b);
    var rem := [b] + rest;
    assert rem[0] == b && rem[1..] == rest;
    assert forall i :: 0 <= i < |rest| ==> rest[i] == rem[i + 1];
    var image := Overwrite(s.image, 0, Start(b.Info(), t.pl), b.data);
    PieceOverwrite(t, s.image, b);
    BlockArrives(PieceBytes(t, s.image, p), target, b, rest);
    if rest == [] {
      NothingComing(PieceBytes(t, image, p), target);
    } else {
      assert Correct(rest[0], p, target);
      assert |target| < USIZE_MAX by {
        PieceLenIsSpan(t.total, t.pl, t.n, p);
      }
    }
    CountAppend(s.sent, DownloadedPiece(p), DownloadedPiece(p));
    CountAppend(s.sent, CorruptedPiece(p), DownloadedPiece(p));
  }

  /** A write to another piece. */
  lemma {:induction false} OtherWrite(t: Torrent, s: DiskState, p: nat, b: Block)
    requires ValidState(t, s) && p < t.n && b.index != p && (b.index < t.n ==> StaysInside(t, b))
    ensures Announces(s, Write(t, s, b), p, false)
    ensures PieceBytes(t, Write(t, s, b).image, p) == PieceBytes(t, s.image, p)
    ensures |Write(t, s, b).downloaded| == |s.downloaded|
    ensures p < |s.downloaded| ==> Write(t, s, b).downloaded[p] == s.downloaded[p]
  {
    if b.index < |s.downloaded| {
      InsideKeepsPiece(t, b, s.image, p);
      CountAppend(s.sent, DownloadedPiece(p), DownloadedPiece(b.index));
      CountAppend(s.sent, CorruptedPiece(p), DownloadedPiece(b.index));
      CountAppend(s.sent, DownloadedPiece(p), CorruptedPiece(b.index));
      CountAppend(s.sent, CorruptedPiece(p), CorruptedPiece(b.index));
    }
  }

  /** Any other event but the end of the download. */
  lemma {:induction false} OtherStep(t: Torrent, s: DiskState, p: nat, target: seq<byte>, rem: seq<Block>, e: DiskEvent)
    requires Pending(t, s, p, target, rem) && WellBehaved(t, e) && t.pl < USIZE_MAX
    requires !e.FinishEvent? && !(e.WriteEvent? && e.block.index == p && rem != [])
    ensures Pending(t, Step(t, s, e), p, target, rem)
    ensures Announces(s, Step(t, s, e), p, false)
  {
    StepKeepsValidState(t, s, e);
    match e
    case WriteEvent(b) =>
      if b.index != p {
        OtherWrite(t, s, p, b);
      }
    case RequestEvent(pieces, bits, pending) =>
      CountAppend(s.sent, DownloadedPiece(p), Endgame);
      CountAppend(s.sent, CorruptedPiece(p), Endgame);
    case ReturnEvent(blocks) =>
  }

  // ---- the whole run -------------------------------------------------------------------

  lemma {:induction false} Progress(t: Torrent, s: DiskState, p: nat, target: seq<byte>, es: seq<DiskEvent>, i: nat, k: nat)
    requires ValidState(t, s) && t.pl < USIZE_MAX && i <= k <= |es|
    requires Pending(t, Run(t, s, es, i), p, target, Remaining(es, p, i)) && Remaining(es, p, i) != []
    requires forall j :: i <= j < |es| ==> WellBehaved(t, es[j]) && !es[j].FinishEvent?
    ensures Pending(t, Run(t, s, es, k), p, target, Remaining(es, p, k))
    ensures Announces(Run(t, s, es, i), Run(t, s, es, k), p, Remaining(es, p, k) == [])
    decreases k
  {
    hide Pending, Write, Request;
    if k > i {
      Progress(t, s, p, target, es, i, k - 1);
      var before, e := Run(t, s, es, k - 1), es[k - 1];
      if e.WriteEvent? && e.block.index == p {
        OwnWrite(t, before, p, target, e.block, Remaining(es, p, k));
      } else {
        OtherStep(t, before, p, target, Remaining(es, p, k - 1), e);
      }
    }
  }

  /** The writes still to come are the blocks of the piece, once each and with the
      right bytes. */
  ghost predicate AllComing(t: Torrent, p: nat, target: seq<byte>, es: seq<DiskEvent>, i: nat)
    requires t.WellFormed() && p < t.n && i <= |es|
  {
    && |target| == t.Len(p) && t.sha1(target) == t.expected[p]
    && multiset(Infos(Remaining(es, p, i))) == multiset(PieceBlocks(t.total, t.pl, p))
    && forall j :: 0 <= j < |Remaining(es, p, i)| ==> Correct(Remaining(es, p, i)[j], p, target)
  }

  /** From a zero counter on, writing the blocks of the piece once each with right
      bytes, in any order and among any other well-behaved events, announces the
      piece exactly when the last of them is written, and never reports it
      corrupted, so never queues it again. */
  lemma {:induction false} OrderIndependentCompletion(t: Torrent, s: DiskState, p: nat, target: seq<byte>, es: seq<DiskEvent>, i: nat, k: nat)
    requires ValidState(t, s) && t.pl < USIZE_MAX && i <= k <= |es|
    requires p < t.n && |Run(t, s, es, i).downloaded| == t.n && Run(t, s, es, i).downloaded[p] == 0
    requires AllComing(t, p, target, es, i)
    requires forall j :: i <= j < |es| ==> WellBehaved(t, es[j]) && !es[j].FinishEvent?
    ensures Frozen(Run(t, s, es, k), p) <==> Remaining(es, p, k) == []
    ensures Count(Run(t, s, es, k).sent, DownloadedPiece(p))
      == Count(Run(t, s, es, i).sent, DownloadedPiece(p)) + if Remaining(es, p, k) == [] then 1 else 0
    ensures Count(Run(t, s, es, k).sent, CorruptedPiece(p)) == Count(Run(t, s, es, i).sent, CorruptedPiece(p))
  {
    PendingAtStart(t, Run(t, s, es, i), p, target, Remaining(es, p, i));
    assert Remaining(es, p, i) != [] by {
      PieceLenIsSpan(t.total, t.pl, t.n, p);
    }
    Progress(t, s, p, target, es, i, k);
  }
}
