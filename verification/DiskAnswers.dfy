/** What the disk answers to a peer: the blocks of the new pieces in order, then
    queued blocks the peer has, moved from the back of the queue or, in endgame,
    copied in queue order; and exactly when endgame begins. */
module DiskAnswers {
  import opened Basics
  import opened Metainfo
  import opened DiskModel

  function Reversed<T>(s: seq<T>): (r: seq<T>)
    ensures |r| == |s|
  {
    seq(|s|, i requires 0 <= i < |s| => s[|s| - 1 - i])
  }

  /** Earlier in the torrent. */
  predicate Earlier(a: BlockInfo, b: BlockInfo) {
    a.index < b.index || (a.index == b.index && a.begin < b.begin)
  }

  ghost predicate InOrder(bs: seq<BlockInfo>) {
    forall i, j :: 0 <= i < j < |bs| ==> Earlier(bs[i], bs[j])
  }

  ghost predicate UpTo(bs: seq<BlockInfo>, p: nat) {
    forall i :: 0 <= i < |bs| ==> bs[i].index <= p
  }

  lemma {:induction false} PieceInOrder(total: nat, pl: nat, p: nat)
    ensures InOrder(PieceBlocks(total, pl, p)) && UpTo(PieceBlocks(total, pl, p), p)
    ensures forall i :: 0 <= i < |PieceBlocks(total, pl, p)| ==> PieceBlocks(total, pl, p)[i].index == p
  {
    var bs := PieceBlocks(total, pl, p);
    forall i, j | 0 <= i < j < |bs| ensures Earlier(bs[i], bs[j]) {
      assert bs[i].begin == i * BLOCK_LEN && bs[j].begin == j * BLOCK_LEN;
    }
  }

  lemma {:induction false} InOrderAppend(a: seq<BlockInfo>, b: seq<BlockInfo>, before: nat, p: nat)
    requires InOrder(a) && UpTo(a, before) && before < p
    requires InOrder(b) && forall i :: 0 <= i < |b| ==> b[i].index == p
    ensures InOrder(a + b) && UpTo(a + b, p)
  {
  }

  /** Blocks of ascending pieces come in the order of the torrent. */
  lemma {:induction false} PiecesInOrder(total: nat, pl: nat, pieces: seq<nat>, k: nat)
    requires k <= |pieces| && forall i, j :: 0 <= i < j < |pieces| ==> pieces[i] < pieces[j]
    ensures InOrder(BlocksOfPieces(total, pl, pieces, k))
    ensures k > 0 ==> UpTo(BlocksOfPieces(total, pl, pieces, k), pieces[k - 1])
  {
    hide PieceBlocks, InOrder, UpTo;
    if k == 0 {
      NothingInOrder();
    } else {
      PiecesInOrder(total, pl, pieces, k - 1);
      PieceInOrder(total, pl, pieces[k - 1]);
      var front, back := BlocksOfPieces(total, pl, pieces, k - 1), PieceBlocks(total, pl, pieces[k - 1]);
      if k == 1 {
        assert front + back == back;
      } else {
        InOrderAppend(front, back, pieces[k - 2], pieces[k - 1]);
      }
    }
  }

  lemma {:induction false} NothingInOrder()
    ensures InOrder([])
  {
  }

  // ---- outside endgame -------------------------------------------------------------------

  lemma {:induction false} PoppedBack(queue: seq<BlockInfo>, k: nat)
    requires k <= |queue|
    ensures queue[..|queue| - k] + Reversed(Popped(queue, k)) == queue
  {
  }

  /** Outside endgame the answer takes blocks off the back of the queue, one by one,
      until the last one left is not for this peer. */
  lemma {:induction false} MovesFromBack(t: Torrent, s: DiskState, pieces: seq<nat>, bits: seq<bool>, pending: nat)
    requires !s.endgame
    ensures var (r, answer) := Request(t, s, pieces, bits, pending);
      var made := BlocksOfPieces(t.total, t.pl, pieces, |pieces|);
      && made <= answer
      && r.queue + Reversed(answer[|made|..]) == s.queue
      && (forall x :: x in answer[|made|..] ==> Bit(bits, x.index))
      && (r.queue != [] ==> !Bit(bits, r.queue[|r.queue| - 1].index))
      && r.image == s.image && r.downloaded == s.downloaded
  {
    var made := BlocksOfPieces(t.total, t.pl, pieces, |pieces|);
    var k := PopCount(s.queue, bits, |s.queue|);
    var popped := Popped(s.queue, k);
    PoppedBack(s.queue, k);
    PoppedAreOwned(s.queue, bits, k);
    DropFront(made, popped);
    hide Popped, PopCount, Reversed, BlocksOfPieces;
  }

  lemma {:induction false} DropFront(a: seq<BlockInfo>, b: seq<BlockInfo>)
    ensures a <= a + b && (a + b)[|a|..] == b
  {
  }

  lemma {:induction false} PoppedAreOwned(queue: seq<BlockInfo>, bits: seq<bool>, k: nat)
    requires k == PopCount(queue, bits, |queue|)
    ensures forall x :: x in Popped(queue, k) ==> Bit(bits, x.index)
  {
    var popped := Popped(queue, k);
    forall x | x in popped ensures Bit(bits, x.index) {
      var i :| 0 <= i < |popped| && popped[i] == x;
      assert x == queue[|queue| - 1 - i];
    }
  }

  /** Endgame begins exactly when a peer with nothing pending brings no new blocks and
      the last block of the queue, if there is one, is not for it. */
  lemma {:induction false} EndgameBeginsIff(t: Torrent, s: DiskState, pieces: seq<nat>, bits: seq<bool>, pending: nat)
    requires !s.endgame
    ensures var r := Request(t, s, pieces, bits, pending).0;
      && (r.endgame <==>
          (pending == 0 && BlocksOfPieces(t.total, t.pl, pieces, |pieces|) == []
           && (s.queue == [] || !Bit(bits, s.queue[|s.queue| - 1].index))))
      && r.sent == s.sent + (if r.endgame then [Endgame] else [])
      && (r.endgame ==> r.queue == s.queue)
  {
    var k := PopCount(s.queue, bits, |s.queue|);
    assert |Popped(s.queue, k)| == k;
    assert s.queue[..|s.queue|] == s.queue;
  }

  // ---- in endgame ----------------------------------------------------------------------------

  /** The positions, in order, of the queued blocks whose piece the peer has. */
  ghost predicate ChosenTo(queue: seq<BlockInfo>, bits: seq<bool>, pos: seq<nat>, n: nat)
    requires n <= |queue|
  {
    && (forall i, j :: 0 <= i < j < |pos| ==> pos[i] < pos[j])
    && (forall i :: i in pos <==> 0 <= i < n && Bit(bits, queue[i].index))
  }

  ghost predicate At(queue: seq<BlockInfo>, pos: seq<nat>, blocks: seq<BlockInfo>) {
    && |blocks| == |pos|
    && forall j :: 0 <= j < |pos| ==> pos[j] < |queue| && blocks[j] == queue[pos[j]]
  }

  lemma {:induction false} OwnedNext(queue: seq<BlockInfo>, bits: seq<bool>, n: nat, front: seq<nat>)
    requires 0 < n <= |queue| && ChosenTo(queue, bits, front, n - 1) && At(queue, front, Owned(queue, bits, n - 1))
    ensures var pos := front + if Bit(bits, queue[n - 1].index) then [n - 1] else [];
      ChosenTo(queue, bits, pos, n) && At(queue, pos, Owned(queue, bits, n))
  {
    forall j | 0 <= j < |front| ensures front[j] < n - 1 {
      assert front[j] in front;
    }
  }

  lemma {:induction false} OwnedAre(queue: seq<BlockInfo>, bits: seq<bool>, n: nat) returns (pos: seq<nat>)
    requires n <= |queue|
    ensures ChosenTo(queue, bits, pos, n) && At(queue, pos, Owned(queue, bits, n))
  {
    if n == 0 {
      pos := [];
    } else {
      var front := OwnedAre(queue, bits, n - 1);
      hide ChosenTo, At, Owned;
      OwnedNext(queue, bits, n, front);
      pos := front + if Bit(bits, queue[n - 1].index) then [n - 1] else [];
    }
  }

  /** In endgame the answer is, after the blocks of the new pieces, exactly the queued
      blocks of pieces the peer has, in queue order and as often as they are queued;
      nothing else changes. */
  lemma {:induction false} EndgameCopies(t: Torrent, s: DiskState, pieces: seq<nat>, bits: seq<bool>, pending: nat) returns (pos: seq<nat>)
    requires s.endgame
    ensures ChosenTo(s.queue, bits, pos, |s.queue|)
    ensures var (r, answer) := Request(t, s, pieces, bits, pending);
      var made := BlocksOfPieces(t.total, t.pl, pieces, |pieces|);
      r == s && made <= answer && At(s.queue, pos, answer[|made|..])
  {
    pos := OwnedAre(s.queue, bits, |s.queue|);
    hide ChosenTo, At, Owned, BlocksOfPieces;
    DropFront(BlocksOfPieces(t.total, t.pl, pieces, |pieces|), Owned(s.queue, bits, |s.queue|));
  }

  lemma {:induction false} CountsLast(queue: seq<BlockInfo>, n: nat, x: BlockInfo)
    requires n < |queue|
    ensures Count(queue[..n + 1], x) == Count(queue[..n], x) + if queue[n] == x then 1 else 0
  {
    assert queue[..n + 1] == queue[..n] + [queue[n]];
  }

  lemma {:induction false} CountsNone(queue: seq<BlockInfo>, x: BlockInfo)
    ensures Count([], x) == 0 && queue[..0] == []
  {
  }

  lemma {:induction false} CountsAppend(s: seq<BlockInfo>, y: BlockInfo, x: BlockInfo)
    ensures Count(s + [y], x) == Count(s, x) + if y == x then 1 else 0
  {
  }

  lemma {:induction false} OwnedCounts(queue: seq<BlockInfo>, bits: seq<bool>, n: nat, x: BlockInfo)
    requires n <= |queue|
    ensures Count(Owned(queue, bits, n), x) == if Bit(bits, x.index) then Count(queue[..n], x) else 0
  {
    hide Count;
    if n == 0 {
      CountsNone(queue, x);
    } else {
      OwnedCounts(queue, bits, n - 1, x);
      CountsLast(queue, n - 1, x);
      CountsAppend(Owned(queue, bits, n - 1), queue[n - 1], x);
      assert Owned(queue, bits, n - 1) + [] == Owned(queue, bits, n - 1);
    }
  }

  /** Each queued block is copied as often as it is queued if the peer has its piece,
      and not at all otherwise. */
  lemma {:induction false} EndgameCopiesCount(t: Torrent, s: DiskState, pieces: seq<nat>, bits: seq<bool>, pending: nat, x: BlockInfo)
    requires s.endgame
    ensures var answer := Request(t, s, pieces, bits, pending).1;
      var made := BlocksOfPieces(t.total, t.pl, pieces, |pieces|);
      Count(answer, x) == Count(made, x) + if Bit(bits, x.index) then Count(s.queue, x) else 0
  {
    var made, owned := BlocksOfPieces(t.total, t.pl, pieces, |pieces|), Owned(s.queue, bits, |s.queue|);
    OwnedCounts(s.queue, bits, |s.queue|, x);
    assert s.queue[..|s.queue|] == s.queue;
    assert multiset(made + owned) == multiset(made) + multiset(owned);
  }

  // ---- blocks given back --------------------------------------------------------------------------

  lemma {:induction false} PopsAll(queue: seq<BlockInfo>, back: seq<BlockInfo>, bits: seq<bool>)
    requires forall x :: x in back ==> Bit(bits, x.index)
    ensures PopCount(queue + back, bits, |queue + back|) >= |back|
  {
  }

  lemma {:induction false} PoppedPrefix(queue: seq<BlockInfo>, back: seq<BlockInfo>, k: nat)
    requires |back| <= k <= |queue + back|
    ensures Reversed(back) <= Popped(queue + back, k)
    ensures (queue + back)[..|queue + back| - k] <= queue
  {
    assert Reversed(back) == Popped(queue + back, k)[..|back|];
  }

  /** Blocks given back are the first to be served again, the last of them first. */
  lemma {:induction false} ReturnedAreServedFirst(t: Torrent, s: DiskState, back: seq<BlockInfo>, bits: seq<bool>, pending: nat)
    requires !s.endgame && forall x :: x in back ==> Bit(bits, x.index)
    ensures var (r, answer) := Request(t, Return(s, back), [], bits, pending);
      Reversed(back) <= answer && r.queue <= s.queue
  {
    var k := PopCount(s.queue + back, bits, |s.queue + back|);
    PopsAll(s.queue, back, bits);
    PoppedPrefix(s.queue, back, k);
    hide PopCount, Popped, Reversed;
    assert [] + Popped(s.queue + back, k) == Popped(s.queue + back, k);
  }
}
