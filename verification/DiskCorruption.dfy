/** What a piece that does not hash goes through: it is reported, counted from zero
    again, and its blocks wait in the queue until they are served; then it
    completes like any other. */
module DiskCorruption {
  import opened Basics
  import opened Metainfo
  import opened DiskLayout
  import opened DiskModel
  import opened DiskRuns
  import opened DiskCompletion

  // ---- one write -----------------------------------------------------------------------

  /** The piece is unknown, or validated already. */
  ghost predicate Ignored(s: DiskState, b: Block) {
    b.index >= |s.downloaded| || Frozen(s, b.index)
  }

  /** With this block as many bytes have been counted as the piece has. */
  ghost predicate Fills(t: Torrent, s: DiskState, b: Block)
    requires ValidState(t, s)
  {
    !Ignored(s, b) && s.downloaded[b.index] + |b.data| >= t.Len(b.index)
  }

  /** The bytes of the piece after the block hash to its digest. */
  ghost predicate HashesAfter(t: Torrent, s: DiskState, b: Block)
    requires ValidState(t, s) && b.index < t.n
  {
    t.sha1(PieceBytes(t, Overwrite(s.image, 0, Start(b.Info(), t.pl), b.data), b.index)) == t.expected[b.index]
  }

  /** A piece is reported corrupted exactly by the block that fills it without
      making it hash, and reported downloaded exactly by one that does; no other
      message is ever sent. */
  lemma {:induction false} WriteReportsIff(t: Torrent, s: DiskState, b: Block, p: nat)
    requires ValidState(t, s)
    ensures Count(Write(t, s, b).sent, CorruptedPiece(p)) ==
      Count(s.sent, CorruptedPiece(p)) + if p == b.index && Fills(t, s, b) && !HashesAfter(t, s, b) then 1 else 0
    ensures Count(Write(t, s, b).sent, DownloadedPiece(p)) ==
      Count(s.sent, DownloadedPiece(p)) + if p == b.index && Fills(t, s, b) && HashesAfter(t, s, b) then 1 else 0
    ensures |Write(t, s, b).sent| == |s.sent| + if Fills(t, s, b) then 1 else 0
  {
    CountAppend(s.sent, CorruptedPiece(p), CorruptedPiece(b.index));
    CountAppend(s.sent, CorruptedPiece(p), DownloadedPiece(b.index));
    CountAppend(s.sent, DownloadedPiece(p), CorruptedPiece(b.index));
    CountAppend(s.sent, DownloadedPiece(p), DownloadedPiece(b.index));
  }

  /** The queue grows exactly when a piece is corrupted, by all blocks of it, and
      what waited before stays in front. */
  lemma {:induction false} WriteQueuesIff(t: Torrent, s: DiskState, b: Block)
    requires ValidState(t, s)
    ensures multiset(Write(t, s, b).queue) == multiset(s.queue) +
      if Fills(t, s, b) && !HashesAfter(t, s, b) then multiset(PieceBlocks(t.total, t.pl, b.index)) else multiset{}
    ensures s.queue <= Write(t, s, b).queue
  {
    if Fills(t, s, b) && !HashesAfter(t, s, b) {
      var blocks := PieceBlocks(t.total, t.pl, b.index);
      assert multiset(s.queue + blocks) == multiset(s.queue) + multiset(blocks);
    }
  }

  /** Only the counter of the piece changes: it grows by the bytes of the block,
      becomes the mark of a validated piece, or starts again from zero. */
  lemma {:induction false} WriteCounts(t: Torrent, s: DiskState, b: Block, p: nat)
    requires ValidState(t, s) && p < |s.downloaded|
    ensures |Write(t, s, b).downloaded| == |s.downloaded|
    ensures var r := Write(t, s, b).downloaded[p];
      if p != b.index || Ignored(s, b) then r == s.downloaded[p]
      else if !Fills(t, s, b) then r == s.downloaded[p] + |b.data|
      else if HashesAfter(t, s, b) then r == USIZE_MAX
      else r == 0
  {
  }

  // ---- the queue over runs ---------------------------------------------------------------

  ghost function Served(t: Torrent, s: DiskState, e: DiskEvent): seq<BlockInfo> {
    if e.RequestEvent? then Request(t, s, e.pieces, e.bits, e.pending).1 else []
  }

  lemma {:induction false} PoppedIsTail(queue: seq<BlockInfo>, k: nat, x: BlockInfo)
    requires k <= |queue| && x in queue
    ensures x in queue[..|queue| - k] || x in Popped(queue, k)
  {
    var i :| 0 <= i < |queue| && queue[i] == x;
    if i < |queue| - k {
      assert queue[..|queue| - k][i] == x;
    } else {
      assert Popped(queue, k)[|queue| - 1 - i] == x;
    }
  }

  /** A queued block stays queued until it is served, or the download is over. */
  lemma {:induction false} QueuedUntilServed(t: Torrent, s: DiskState, e: DiskEvent, x: BlockInfo)
    requires ValidState(t, s) && x in s.queue && !e.FinishEvent?
    ensures x in Step(t, s, e).queue || x in Served(t, s, e)
  {
    match e
    case WriteEvent(b) => WriteQueuesIff(t, s, b);
    case RequestEvent(pieces, bits, pending) =>
      if !s.endgame {
        PoppedIsTail(s.queue, PopCount(s.queue, bits, |s.queue|), x);
      }
    case ReturnEvent(blocks) =>
    case _ =>
  }

  ghost predicate ServedSince(t: Torrent, s: DiskState, es: seq<DiskEvent>, x: BlockInfo, i: nat, k: nat)
    requires ValidState(t, s) && i <= k <= |es|
  {
    i < k && (ServedSince(t, s, es, x, i, k - 1) || x in Served(t, Run(t, s, es, k - 1), es[k - 1]))
  }

  lemma {:induction false} StaysQueued(t: Torrent, s: DiskState, es: seq<DiskEvent>, x: BlockInfo, i: nat, k: nat)
    requires ValidState(t, s) && i <= k <= |es| && x in Run(t, s, es, i).queue
    requires forall j :: i <= j < |es| ==> !es[j].FinishEvent?
    ensures x in Run(t, s, es, k).queue || ServedSince(t, s, es, x, i, k)
    decreases k
  {
    hide Step, Served;
    if i < k {
      StaysQueued(t, s, es, x, i, k - 1);
      if x in Run(t, s, es, k - 1).queue {
        QueuedUntilServed(t, Run(t, s, es, k - 1), es[k - 1], x);
      }
    }
  }

  /** Event `i` fills a piece that then does not hash. */
  ghost predicate CorruptsAt(t: Torrent, s: DiskState, es: seq<DiskEvent>, i: nat)
    requires ValidState(t, s) && i < |es|
  {
    es[i].WriteEvent? && Fills(t, Run(t, s, es, i), es[i].block) && !HashesAfter(t, Run(t, s, es, i), es[i].block)
  }

  /** After a piece was found corrupted each of its blocks waits in the queue until it
      has been served to some peer. */
  lemma {:induction false} CorruptedIsServedAgain(t: Torrent, s: DiskState, es: seq<DiskEvent>, i: nat, k: nat, x: BlockInfo)
    requires ValidState(t, s) && i < k <= |es| && CorruptsAt(t, s, es, i)
    requires x in PieceBlocks(t.total, t.pl, es[i].block.index)
    requires forall j :: i < j < |es| ==> !es[j].FinishEvent?
    ensures x in Run(t, s, es, k).queue || ServedSince(t, s, es, x, i + 1, k)
  {
    var before, b := Run(t, s, es, i), es[i].block;
    WriteQueuesIff(t, before, b);
    assert x in multiset(PieceBlocks(t.total, t.pl, b.index));
    assert Run(t, s, es, i + 1) == Write(t, before, b);
    assert x in multiset(Run(t, s, es, i + 1).queue);
    StaysQueued(t, s, es, x, i + 1, k);
  }

  /** After that the piece completes like any other: once its blocks are written
      again, in any order and with the right bytes, it is validated exactly at the
      last one. */
  lemma {:induction false} CorruptedCompletes(t: Torrent, s: DiskState, es: seq<DiskEvent>, i: nat, k: nat, target: seq<byte>)
    requires ValidState(t, s) && t.pl < USIZE_MAX && i < k <= |es| && CorruptsAt(t, s, es, i)
    requires AllComing(t, es[i].block.index, target, es, i + 1)
    requires forall j :: i < j < |es| ==> WellBehaved(t, es[j]) && !es[j].FinishEvent?
    ensures var p := es[i].block.index;
      && (Frozen(Run(t, s, es, k), p) <==> Remaining(es, p, k) == [])
      && Count(Run(t, s, es, k).sent, CorruptedPiece(p)) == Count(Run(t, s, es, i).sent, CorruptedPiece(p)) + 1
  {
    var before, b := Run(t, s, es, i), es[i].block;
    WriteCounts(t, before, b, b.index);
    WriteReportsIff(t, before, b, b.index);
    assert Run(t, s, es, i + 1) == Write(t, before, b);
    OrderIndependentCompletion(t, s, b.index, target, es, i + 1, k);
  }

  // ---- the start -----------------------------------------------------------------------------

  /** A piece that does not hash when the torrent is added starts from zero, so its
      blocks complete it; one that does counts as full from the start. */
  lemma {:induction false} StartsFullIff(t: Torrent, image: seq<byte>, p: nat)
    requires t.WellFormed() && |image| == t.total && p < t.n
    ensures var s := Initial(t, image);
      && (ValidPiece(t, image, p) <==> s.downloaded[p] == t.Len(p))
      && (!ValidPiece(t, image, p) <==> s.downloaded[p] == 0)
  {
    PieceLenIsSpan(t.total, t.pl, t.n, p);
  }

  // ---- the end ---------------------------------------------------------------------------------

  lemma {:induction false} NothingAfterFinish(t: Torrent, s: DiskState, e: DiskEvent)
    requires ValidState(t, s) && s.downloaded == []
    ensures var r := Step(t, s, e);
      r.image == s.image && r.downloaded == [] && forall p :: Count(r.sent, DownloadedPiece(p)) == Count(s.sent, DownloadedPiece(p))
  {
    forall p ensures Count(Step(t, s, e).sent, DownloadedPiece(p)) == Count(s.sent, DownloadedPiece(p)) {
      CountAppend(s.sent, DownloadedPiece(p), Endgame);
    }
  }

  /** Once the download is finished no block changes the files any more and no piece
      is announced again. */
  lemma {:induction false} FinishIsFinal(t: Torrent, s: DiskState, es: seq<DiskEvent>, i: nat, k: nat, p: nat)
    requires ValidState(t, s) && i < k <= |es| && es[i].FinishEvent?
    ensures var a, b := Run(t, s, es, i), Run(t, s, es, k);
      b.downloaded == [] && b.image == a.image && Count(b.sent, DownloadedPiece(p)) == Count(a.sent, DownloadedPiece(p))
    decreases k
  {
    if k > i + 1 {
      FinishIsFinal(t, s, es, i, k - 1, p);
      NothingAfterFinish(t, Run(t, s, es, k - 1), es[k - 1]);
    }
  }

  ghost predicate ReturnedSince(es: seq<DiskEvent>, x: BlockInfo, i: nat, k: nat)
    requires i <= k <= |es|
  {
    i < k && (ReturnedSince(es, x, i, k - 1) || (es[k - 1].ReturnEvent? && x in es[k - 1].blocks))
  }

  lemma {:induction false} QueueAfterFinish(t: Torrent, s: DiskState, e: DiskEvent, x: BlockInfo)
    requires ValidState(t, s) && s.downloaded == [] && x in Step(t, s, e).queue
    ensures x in s.queue || (e.ReturnEvent? && x in e.blocks)
  {
  }

  lemma {:induction false} RunStep(t: Torrent, s: DiskState, es: seq<DiskEvent>, k: nat)
    requires ValidState(t, s) && 0 < k <= |es|
    ensures Run(t, s, es, k) == Step(t, Run(t, s, es, k - 1), es[k - 1])
  {
  }

  lemma {:induction false} FinishEmpties(t: Torrent, s: DiskState, e: DiskEvent)
    requires ValidState(t, s) && e.FinishEvent?
    ensures Step(t, s, e).queue == []
  {
  }

  /** Nothing is served after that but blocks some peer gave back since. */
  lemma {:induction false} OnlyReturnedAfterFinish(t: Torrent, s: DiskState, es: seq<DiskEvent>, i: nat, k: nat, x: BlockInfo)
    requires ValidState(t, s) && i < k <= |es| && es[i].FinishEvent? && x in Run(t, s, es, k).queue
    ensures ReturnedSince(es, x, i + 1, k)
    decreases k
  {
    hide Step, Run;
    RunStep(t, s, es, k);
    if k == i + 1 {
      FinishEmpties(t, Run(t, s, es, i), es[i]);
    } else {
      FinishIsFinal(t, s, es, i, k - 1, 0);
      QueueAfterFinish(t, Run(t, s, es, k - 1), es[k - 1], x);
      if !(es[k - 1].ReturnEvent? && x in es[k - 1].blocks) {
        OnlyReturnedAfterFinish(t, s, es, i, k - 1, x);
      }
    }
  }
}
