/** The disk task: memory-mapped files, per-piece byte counters and the queue of
    blocks waiting for a peer, updated in place. Every method is proved to do to
    the flat image what DiskModel says. */
module Disk {
  import opened Basics
  import opened Metainfo
  import opened DiskLayout
  import opened DiskModel

  ghost function Contents(mmaps: seq<array<byte>>): (r: seq<seq<byte>>)
    reads mmaps
    ensures |r| == |mmaps|
  {
    seq(|mmaps|, i requires 0 <= i < |mmaps| reads mmaps => mmaps[i][..])
  }

  lemma {:induction false} AppendNothing(s: seq<byte>, t: seq<byte>)
    requires t == []
    ensures s + t == s
  {
  }

  /** Read `count` bytes at `offset`, or as many as the mapping holds. */
  method ReadAvailable(mapped: seq<byte>, offset: nat, count: nat) returns (data: seq<byte>)
    requires offset < |mapped|
    ensures data == mapped[offset..offset + Min(count, |mapped| - offset)]
  {
    var available := Min(count, |mapped| - offset);
    data := [];
    if available > 0 {
      data := mapped[offset..offset + available];
    }
  }

  /** Feed the hasher the bytes of [from, to) from whatever is mapped: half-open
      ranges, short mappings tolerated, stop once no bytes remain. */
  method FeedHalfOpen(files: seq<FileMeta>, mmaps: seq<seq<byte>>, total: nat, from: nat, to: nat) returns (fed: seq<byte>)
    requires |mmaps| <= |files| && Contiguous(files, total) && from <= to
    ensures fed == Readable(files, mmaps, from, to, |mmaps|)
  {
    var bytesRemaining: nat := to - from;
    fed := [];
    var i := 0;
    while i < |mmaps|
      invariant 0 <= i <= |mmaps|
      invariant fed == Readable(files, mmaps, from, to, i)
      invariant bytesRemaining >= to - Max(from, Min(to, Offset(files, i)))
    {
      FileSpan(files, total, i);
      var fileStart := files[i].start;
      var fileEnd := fileStart + files[i].length;
      var mapped := mmaps[i];
      var readStart := Max(from, fileStart);
      var readEnd := Min(to, fileEnd);
      var readLength := readEnd - readStart;
      var fileOffset := readStart - fileStart;
      HalfOpenContribution(files[i], mapped, from, to, fileOffset, readLength);
      ghost var before, given := fed, Contribution(files[i], mapped, from, to);
      i := i + 1;
      if from < fileEnd && to > fileStart {
        if fileOffset >= |mapped| {
          AppendNothing(before, given);
          continue;
        }
        var data := ReadAvailable(mapped, fileOffset, readLength);
        fed := fed + data;
        bytesRemaining := bytesRemaining - readLength;
      }
      if given == [] {
        AppendNothing(before, given);
      }
      assert fed == before + given;
      assert bytesRemaining >= to - Max(from, Min(to, Offset(files, i)));
      if bytesRemaining == 0 {
        break;
      }
    }
    NothingBeyond(files, mmaps, total, from, to, i, |mmaps|);
  }

  /** Does a piece found on disk at start-up hash to the expected digest? */
  method VerifyPiece(piece: nat, files: seq<FileMeta>, mmaps: seq<seq<byte>>, pl: nat, total: nat,
                     sha1: seq<byte> -> Digest, expected: Digest) returns (ok: bool)
    requires |mmaps| <= |files| && Contiguous(files, total) && piece * pl <= total
    ensures ok == (sha1(Readable(files, mmaps, piece * pl, PieceEnd(total, pl, piece), |mmaps|)) == expected)
  {
    var pieceStart := piece * pl;
    var pieceEnd := Min(pieceStart + pl, total);
    assert pieceEnd == PieceEnd(total, pl, piece);
    var bytes := FeedHalfOpen(files, mmaps, total, pieceStart, pieceEnd);
    ok := sha1(bytes) == expected;
  }

  function StartupCount(t: Torrent, files: seq<FileMeta>, mmaps: seq<seq<byte>>, p: nat): nat
    requires t.WellFormed() && |mmaps| <= |files| && p < t.n
  {
    var read := Readable(files, mmaps, p * t.pl, PieceEnd(t.total, t.pl, p), |mmaps|);
    if t.sha1(read) == t.expected[p] then t.Len(p) else 0
  }

  /** Counters for a torrent just added: the length of each piece whose bytes on
      disk hash to the expected digest, zero for the others. */
  method ComputeDownloadedPieces(t: Torrent, cache: TorrentCache, mmaps: seq<seq<byte>>) returns (counts: seq<nat>)
    requires t.WellFormed() && Contiguous(cache.files, t.total) && |mmaps| <= |cache.files|
    ensures |counts| == t.n
    ensures forall p :: 0 <= p < t.n ==> counts[p] == StartupCount(t, cache.files, mmaps, p)
  {
    counts := [];
    for p := 0 to t.n
      invariant |counts| == p
      invariant forall q :: 0 <= q < p ==> counts[q] == StartupCount(t, cache.files, mmaps, q)
    {
      assert p * t.pl <= t.total by {
        PieceLenIsSpan(t.total, t.pl, t.n, p);
      }
      var ok := VerifyPiece(p, cache.files, mmaps, t.pl, t.total, t.sha1, t.expected[p]);
      var count := if ok then PieceLen(t.total, t.pl, t.n, p) else 0;
      assert count == StartupCount(t, cache.files, mmaps, p);
      counts := counts + [count];
    }
  }

  /** The read-only mappings of the files. */
  method ReadMmaps(mmaps: seq<array<byte>>) returns (views: seq<seq<byte>>)
    ensures views == Contents(mmaps)
  {
    views := [];
    for i := 0 to |mmaps|
      invariant |views| == i && forall j :: 0 <= j < i ==> views[j] == mmaps[j][..]
    {
      views := views + [mmaps[i][..]];
    }
  }

  /** Feed the hasher the bytes of [from, last] from non-empty files mapped in
      full: inclusive ranges, no early exit. */
  method FeedInclusive(files: seq<FileMeta>, mmaps: seq<seq<byte>>, from: nat, last: nat) returns (fed: seq<byte>)
    requires FullLength(files, mmaps) && from <= last
    requires forall i :: 0 <= i < |files| ==> files[i].length > 0
    ensures fed == Readable(files, mmaps, from, last + 1, |mmaps|)
  {
    fed := [];
    for i := 0 to |mmaps|
      invariant fed == Readable(files, mmaps, from, last + 1, i)
    {
      var fileStart := files[i].start;
      var fileEnd := fileStart + files[i].length - 1;
      var overlapStart := Max(from, fileStart) - fileStart;
      var overlapEnd := Min(last, fileEnd) - fileStart;
      var len := overlapEnd - overlapStart + 1;
      InclusiveContribution(files[i], mmaps[i], from, last, overlapStart, len);
      ghost var before, given := fed, Contribution(files[i], mmaps[i], from, last + 1);
      if from <= fileEnd && last >= fileStart {
        fed := fed + mmaps[i][overlapStart..overlapStart + len];
      } else {
        AppendNothing(before, given);
      }
      assert fed == before + given;
    }
  }

  /** The two hashers agree: over files mapped in full, the interval the start-up
      check reads (up to the clipped piece end) and the one the later check reads
      (as many bytes as the piece is long) both feed the flat bytes of the piece,
      whatever files the piece crosses. */
  lemma {:induction false} HashersAgree(t: Torrent, cache: TorrentCache, contents: seq<seq<byte>>, piece: nat, start: nat, len: nat)
    requires t.WellFormed() && cache.totalSize == t.total && piece < t.n
    requires Contiguous(cache.files, t.total) && FullLength(cache.files, contents)
    requires start == piece * t.pl && len == t.Len(piece)
    ensures Readable(cache.files, contents, start, start + len - 1 + 1, |contents|)
      == PieceBytes(t, Image(contents, |contents|), piece)
    ensures Readable(cache.files, contents, start, PieceEnd(t.total, t.pl, piece), |contents|)
      == PieceBytes(t, Image(contents, |contents|), piece)
  {
    PieceLenIsSpan(t.total, t.pl, t.n, piece);
    ReadableIsFlatSlice(cache, contents, start, start + len);
  }

  method ExpandPieces(total: nat, pl: nat, pieces: seq<nat>) returns (blocks: seq<BlockInfo>)
    requires forall i :: 0 <= i < |pieces| ==> pieces[i] * pl <= total
    ensures blocks == BlocksOfPieces(total, pl, pieces, |pieces|)
  {
    blocks := [];
    for i := 0 to |pieces|
      invariant blocks == BlocksOfPieces(total, pl, pieces, i)
    {
      var piece := GetBlockInfosOfPiece(total, pl, pieces[i]);
      blocks := blocks + piece;
    }
  }

  method CopyOwned(queue: seq<BlockInfo>, bits: seq<bool>) returns (blocks: seq<BlockInfo>)
    ensures blocks == Owned(queue, bits, |queue|)
  {
    blocks := [];
    for i := 0 to |queue|
      invariant blocks == Owned(queue, bits, i)
    {
      if Bit(bits, queue[i].index) {
        blocks := blocks + [queue[i]];
      }
    }
  }

  ghost predicate Distinct(mmaps: seq<array<byte>>) {
    forall i, j :: 0 <= i < j < |mmaps| ==> mmaps[i] != mmaps[j]
  }

  ghost predicate OpFits(op: WriteOp, mmaps: seq<array<byte>>, data: seq<byte>) {
    OpReads(op, |mmaps|, data) && op.offset + (op.hi - op.lo) <= mmaps[op.file].Length
  }

  /** Copy bytes `op.lo..op.hi` of the buffer into the mapped file. */
  method CopyFromSlice(mmaps: seq<array<byte>>, op: WriteOp, data: seq<byte>)
    requires OpFits(op, mmaps, data)
    requires Distinct(mmaps)
    modifies mmaps
    ensures Contents(mmaps) == ApplyOp(old(Contents(mmaps)), op, data)
  {
    var file := mmaps[op.file];
    forall i | 0 <= i < op.hi - op.lo {
      file[op.offset + i] := data[op.lo + i];
    }
    assert file[..] == Overwrite(old(file[..]), 0, op.offset, data[op.lo..op.hi]);
    ghost var after := ApplyOp(old(Contents(mmaps)), op, data);
    forall i | 0 <= i < |mmaps| ensures Contents(mmaps)[i] == after[i] {
      assert i == op.file || mmaps[i] != file;
    }
  }

  lemma {:induction false} OpsFit(cache: TorrentCache, mmaps: seq<array<byte>>, at: nat, data: seq<byte>, ops: seq<WriteOp>)
    requires FullLength(cache.files, Contents(mmaps))
    requires ops == WriteOps(cache.files, at, Min(at + |data|, cache.totalSize), |cache.files|)
    requires OpsRead(ops, |mmaps|, data)
    ensures forall k :: 0 <= k < |ops| ==> OpFits(ops[k], mmaps, data)
  {
    forall k | 0 <= k < |ops| ensures OpFits(ops[k], mmaps, data) {
      WriteOpInsideFile(cache.files, at, Min(at + |data|, cache.totalSize), |cache.files|, k);
      assert |Contents(mmaps)[ops[k].file]| == mmaps[ops[k].file].Length;
    }
  }

  /** Carry out the operations of a block, in order. */
  method CopyAll(mmaps: seq<array<byte>>, ops: seq<WriteOp>, data: seq<byte>)
    requires OpsRead(ops, |mmaps|, data) && Distinct(mmaps)
    requires forall k :: 0 <= k < |ops| ==> OpFits(ops[k], mmaps, data)
    modifies mmaps
    ensures Contents(mmaps) == ApplyOps(old(Contents(mmaps)), ops, data, |ops|)
  {
    for k := 0 to |ops|
      invariant Contents(mmaps) == ApplyOps(old(Contents(mmaps)), ops, data, k)
    {
      CopyFromSlice(mmaps, ops[k], data);
    }
  }

  lemma {:induction false} StartupCounters(t: Torrent, cache: TorrentCache, contents: seq<seq<byte>>, counts: seq<nat>)
    requires t.WellFormed() && cache.totalSize == t.total
    requires Contiguous(cache.files, t.total) && FullLength(cache.files, contents)
    requires |counts| == t.n
    requires forall p :: 0 <= p < t.n ==> counts[p] == StartupCount(t, cache.files, contents, p)
    ensures |Image(contents, |contents|)| == t.total
    ensures Initial(t, Image(contents, |contents|)).downloaded == counts
    ensures ValidState(t, Initial(t, Image(contents, |contents|)))
  {
    ReadableIsFlatSlice(cache, contents, 0, t.total);
    var image := Image(contents, |contents|);
    InitialIsValid(t, image);
    forall p | 0 <= p < t.n ensures Initial(t, image).downloaded[p] == counts[p] {
      HashersAgree(t, cache, contents, p, p * t.pl, t.Len(p));
    }
  }

  class Disk {
    const t: Torrent
    const cache: TorrentCache
    const mmaps: seq<array<byte>>
    var downloadedPerPiece: seq<nat>
    var queue: seq<BlockInfo>
    var endgame: bool
    var sent: seq<TorrentMsg>

    /** The torrent as one byte string. */
    ghost function Flat(): seq<byte>
      reads mmaps
    {
      Image(Contents(mmaps), |mmaps|)
    }

    /** The flat image and the bookkeeping, as one value. */
    ghost function State(): DiskState
      reads this, mmaps
    {
      DiskState(Flat(), downloadedPerPiece, queue, endgame, sent)
    }

    ghost predicate Layout()
      reads this, mmaps
    {
      && cache.WellFormed()
      && cache.totalSize == t.total && cache.pieceLength == t.pl && cache.numPieces == t.n
      && FullLength(cache.files, Contents(mmaps))
      && Distinct(mmaps)
      && (forall i :: 0 <= i < |cache.files| ==> cache.files[i].length > 0)
    }

    ghost predicate Valid()
      reads this, mmaps
    {
      Layout() && ValidState(t, State())
    }

    /** A torrent just added: every piece is checked against the files, and the
        counter of a piece found complete holds its length. */
    constructor (t: Torrent, cache: TorrentCache, mmaps: seq<array<byte>>)
      requires t.WellFormed() && cache.WellFormed()
      requires cache.totalSize == t.total && cache.pieceLength == t.pl && cache.numPieces == t.n
      requires FullLength(cache.files, Contents(mmaps))
      requires Distinct(mmaps)
      requires forall i :: 0 <= i < |cache.files| ==> cache.files[i].length > 0
      ensures Valid() && this.t == t && this.cache == cache && this.mmaps == mmaps
      ensures State() == Initial(t, Flat())
    {
      this.t := t;
      this.cache := cache;
      this.mmaps := mmaps;
      this.queue, this.endgame, this.sent := [], false, [];
      var views := ReadMmaps(mmaps);
      var counts := ComputeDownloadedPieces(t, cache, views);
      this.downloadedPerPiece := counts;
      new;
      ReadableIsFlatSlice(cache, Contents(mmaps), 0, t.total);
      StartupCounters(t, cache, Contents(mmaps), downloadedPerPiece);
    }

    /** Does a piece whose counter is full hash to the expected digest? */
    method ValidatePiece(piece: nat) returns (ok: bool)
      requires Layout() && t.WellFormed() && piece < t.n
      ensures ok == ValidPiece(t, Flat(), piece)
    {
      hide Readable, PieceEnd;
      PieceLenIsSpan(t.total, t.pl, t.n, piece);
      var pieceStart := piece * t.pl;
      var pieceLen := PieceLen(t.total, t.pl, t.n, piece);
      var views := ReadMmaps(mmaps);
      var fed := FeedInclusive(cache.files, views, pieceStart, pieceStart + pieceLen - 1);
      HashersAgree(t, cache, Contents(mmaps), piece, pieceStart, pieceLen);
      ok := t.sha1(fed) == t.expected[piece];
    }

    /** Copy the block into the files it crosses. */
    method CopyBlock(b: Block)
      requires Layout()
      modifies mmaps
      ensures Layout()
      ensures Flat() == Overwrite(old(Flat()), 0, Start(b.Info(), t.pl), b.data)
    {
      ghost var at := Start(b.Info(), t.pl);
      assert b.Info().len == |b.data| && Start(b.Info(), cache.pieceLength) == at;
      var ops := CalculateWriteOpsForBlock(cache, b.Info());
      MultiFileWriteIsFlatWrite(cache, Contents(mmaps), at, b.data);
      OpsFit(cache, mmaps, at, b.data, ops);
      CopyAll(mmaps, ops, b.data);
    }

    /** The counting half of `write_block`: add the bytes, and once the piece is
        full hash it, then freeze and announce it or reset and queue it again. */
    method CountBytes(index: nat, len: nat)
      requires Layout() && t.WellFormed() && index < t.n && index < |downloadedPerPiece|
      modifies this`downloadedPerPiece, this`queue, this`sent
      ensures State() == Counted(t, old(State()), index, old(downloadedPerPiece[index]) + len)
    {
      downloadedPerPiece := downloadedPerPiece[index := downloadedPerPiece[index] + len];
      if downloadedPerPiece[index] < cache.PieceLength(index) {
        return;
      }
      var ok := ValidatePiece(index);
      if !ok {
        assert index * t.pl <= t.total by {
          PieceLenIsSpan(t.total, t.pl, t.n, index);
        }
        var blocks := GetBlockInfosOfPiece(t.total, t.pl, index);
        queue := queue + blocks;
        downloadedPerPiece := downloadedPerPiece[index := 0];
        sent := sent + [CorruptedPiece(index)];
        return;
      }
      downloadedPerPiece := downloadedPerPiece[index := USIZE_MAX];
      sent := sent + [DownloadedPiece(index)];
    }

    method WriteBlock(b: Block)
      requires Valid() && t.pl + |b.data| < USIZE_MAX
      modifies this`downloadedPerPiece, this`queue, this`sent, mmaps
      ensures Valid() && State() == Write(t, old(State()), b)
    {
      if b.index >= |downloadedPerPiece| || downloadedPerPiece[b.index] == USIZE_MAX {
        return;
      }
      WriteKeepsValidState(t, State(), b);
      CopyBlock(b);
      CountBytes(b.index, |b.data|);
    }

    /** Pop queued blocks from the back while the peer has their piece. */
    method MoveOwned(bits: seq<bool>) returns (blocks: seq<BlockInfo>)
      modifies this`queue
      ensures var k := PopCount(old(queue), bits, |old(queue)|);
        queue == old(queue)[..|old(queue)| - k] && blocks == Popped(old(queue), k)
    {
      ghost var waiting, k := queue, 0;
      blocks := [];
      while |queue| > 0 && Bit(bits, queue[|queue| - 1].index)
        invariant 0 <= k <= |waiting| && queue == waiting[..|waiting| - k]
        invariant blocks == Popped(waiting, k)
        invariant PopCount(waiting, bits, |waiting|) == k + PopCount(waiting, bits, |waiting| - k)
        decreases |queue|
      {
        blocks := blocks + [queue[|queue| - 1]];
        queue := queue[..|queue| - 1];
        k := k + 1;
      }
    }

    /** Answer a peer: the blocks of new pieces, then queued blocks it has. */
    method RequestBlocks(pieces: seq<nat>, bits: seq<bool>, pending: nat) returns (blocks: seq<BlockInfo>)
      requires Valid() && forall i :: 0 <= i < |pieces| ==> pieces[i] < t.n
      modifies this`queue, this`endgame, this`sent
      ensures Valid() && (State(), blocks) == Request(t, old(State()), pieces, bits, pending)
    {
      PieceStartsInside(t.total, t.pl, t.n);
      var made := ExpandPieces(t.total, t.pl, pieces);
      var queued;
      if endgame {
        queued := CopyOwned(queue, bits);
      } else {
        queued := MoveOwned(bits);
      }
      blocks := made + queued;
      if pending == 0 && blocks == [] && !endgame {
        endgame := true;
        sent := sent + [Endgame];
      }
    }

    /** Blocks given back by a choked, snubbed or failed peer. */
    method ReturnBlocks(blocks: seq<BlockInfo>)
      requires Valid()
      modifies this`queue
      ensures Valid() && State() == Return(old(State()), blocks)
    {
      queue := queue + blocks;
    }

    method FinishedDownload()
      requires Valid()
      modifies this`queue, this`downloadedPerPiece
      ensures Valid() && State() == Finish(old(State()))
    {
      queue := [];
      downloadedPerPiece := [];
    }
  }
}
