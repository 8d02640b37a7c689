/** Several files laid end to end: how one interval of the flat torrent is
    written to and read from the files it crosses. */
module DiskLayout {
  import opened Basics
  import opened Metainfo

  datatype FileMeta = FileMeta(start: nat, length: nat)

  datatype TorrentCache = TorrentCache(
    files: seq<FileMeta>,
    pieceLength: nat,
    numPieces: nat,
    totalSize: nat)
  {
    function PieceLength(piece: nat): nat
      requires pieceLength > 0 && numPieces > 0
    {
      PieceLen(totalSize, pieceLength, numPieces, piece)
    }

    ghost predicate WellFormed() {
      Geometry(totalSize, pieceLength, numPieces) && Contiguous(files, totalSize)
    }
  }

  /** Combined length of the first `n` files. */
  function Offset(fs: seq<FileMeta>, n: nat): nat
    requires n <= |fs|
  {
    if n == 0 then 0 else Offset(fs, n - 1) + fs[n - 1].length
  }

  /** Each of the first `n` files begins where the ones before it end. */
  ghost predicate EndToEnd(fs: seq<FileMeta>, n: nat)
    requires n <= |fs|
  {
    n == 0 || (EndToEnd(fs, n - 1) && fs[n - 1].start == Offset(fs, n - 1))
  }

  /** The files follow each other without gap or overlap and end at `total`. */
  ghost predicate Contiguous(fs: seq<FileMeta>, total: nat) {
    EndToEnd(fs, |fs|) && Offset(fs, |fs|) == total
  }

  lemma {:induction false} OffsetMonotone(fs: seq<FileMeta>, i: nat, j: nat)
    requires i <= j <= |fs|
    ensures Offset(fs, i) <= Offset(fs, j)
  {
    if i < j {
      OffsetMonotone(fs, i, j - 1);
    }
  }

  lemma {:induction false} StartAt(fs: seq<FileMeta>, n: nat, i: nat)
    requires i < n <= |fs| && EndToEnd(fs, n)
    ensures fs[i].start == Offset(fs, i)
  {
    if i < n - 1 {
      StartAt(fs, n - 1, i);
    }
  }

  /** Every file ends where the next one begins, and inside the torrent. */
  lemma {:induction false} FileSpan(fs: seq<FileMeta>, total: nat, i: nat)
    requires Contiguous(fs, total) && i < |fs|
    ensures fs[i].start == Offset(fs, i)
    ensures fs[i].start + fs[i].length == Offset(fs, i + 1) <= total
  {
    StartAt(fs, |fs|, i);
    OffsetMonotone(fs, i + 1, |fs|);
  }

  lemma {:induction false} AppendFile(fs: seq<FileMeta>, f: FileMeta, n: nat)
    requires n <= |fs|
    ensures Offset(fs + [f], n) == Offset(fs, n)
    ensures EndToEnd(fs + [f], n) == EndToEnd(fs, n)
  {
    if n > 0 {
      AppendFile(fs, f, n - 1);
    }
  }

  ghost predicate SameLengths(metas: seq<FileMeta>, files: seq<File>) {
    |metas| == |files| && forall i :: 0 <= i < |files| ==> metas[i].length == files[i].length
  }

  lemma {:induction false} ContiguousAppend(fs: seq<FileMeta>, f: FileMeta, total: nat)
    requires Contiguous(fs, total) && f.start == total
    ensures Contiguous(fs + [f], total + f.length)
  {
    AppendFile(fs, f, |fs|);
  }

  lemma {:induction false} SumFilesAppend(fs: seq<File>, f: File)
    ensures SumFiles(fs + [f]) == SumFiles(fs) + f.length
  {
    if fs == [] {
      assert (fs + [f])[1..] == [];
    } else {
      assert (fs + [f])[1..] == fs[1..] + [f];
      SumFilesAppend(fs[1..], f);
    }
  }

  method ComputeTorrentCache(info: Info) returns (cache: TorrentCache)
    ensures Contiguous(cache.files, info.TorrentSize())
    ensures cache.totalSize == info.TorrentSize() && cache.pieceLength == info.pieceLength
    ensures cache.numPieces == info.NumPieces()
    ensures info.WellFormed() ==> cache.WellFormed()
    ensures info.files.Some? ==> SameLengths(cache.files, info.files.value)
    ensures info.files.None? ==> cache.files == [FileMeta(0, info.TorrentSize())]
    ensures info.files.None? ==> cache.totalSize == if info.fileLength.Some? then info.fileLength.value else 0
  {
    var metas := [];
    var offset: nat := 0;
    match info.files {
      case Some(files) =>
        for i := 0 to |files|
          invariant SameLengths(metas, files[..i]) && Contiguous(metas, offset)
          invariant offset == SumFiles(files[..i])
        {
          ContiguousAppend(metas, FileMeta(offset, files[i].length), offset);
          SumFilesAppend(files[..i], files[i]);
          assert files[..i] + [files[i]] == files[..i + 1];
          metas := metas + [FileMeta(offset, files[i].length)];
          offset := offset + files[i].length;
        }
        assert files[..|files|] == files;
      case None =>
        ContiguousAppend([], FileMeta(0, info.TorrentSize()), 0);
        metas := [FileMeta(0, match info.fileLength case Some(n) => n case None => 0)];
        assert metas == [] + [FileMeta(0, info.TorrentSize())];
    }
    cache := TorrentCache(metas, info.pieceLength, info.NumPieces(), info.TorrentSize());
  }

  // ---- the flat byte string ----------------------------------------------------

  /** The contents match the lengths recorded for the files. */
  ghost predicate FullLength(fs: seq<FileMeta>, contents: seq<seq<byte>>) {
    |fs| == |contents| && forall i :: 0 <= i < |fs| ==> |contents[i]| == fs[i].length
  }

  /** The first `n` files, one after the other. */
  function Image(contents: seq<seq<byte>>, n: nat): seq<byte>
    requires n <= |contents|
  {
    if n == 0 then [] else Image(contents, n - 1) + contents[n - 1]
  }

  lemma {:induction false} ImageLength(fs: seq<FileMeta>, contents: seq<seq<byte>>, n: nat)
    requires FullLength(fs, contents) && n <= |fs|
    ensures |Image(contents, n)| == Offset(fs, n)
  {
    if n > 0 {
      ImageLength(fs, contents, n - 1);
    }
  }

  // ---- writing -----------------------------------------------------------------

  /** Copy bytes `lo..hi` of the buffer to `offset` in file number `file`. */
  datatype WriteOp = WriteOp(file: nat, offset: nat, lo: nat, hi: nat)

  /** The operation on file number `i` for the flat interval [from, to), if the
      two overlap. */
  function FileOps(f: FileMeta, i: nat, from: nat, to: nat): seq<WriteOp> {
    var lo, hi := Max(from, f.start), Min(to, f.start + f.length);
    if lo >= hi then [] else [WriteOp(i, lo - f.start, lo - from, hi - from)]
  }

  /** The operations for the first `n` files. */
  function WriteOps(fs: seq<FileMeta>, from: nat, to: nat, n: nat): seq<WriteOp>
    requires n <= |fs|
  {
    if n == 0 then [] else WriteOps(fs, from, to, n - 1) + FileOps(fs[n - 1], n - 1, from, to)
  }

  method CalculateWriteOpsForBlock(cache: TorrentCache, b: BlockInfo) returns (ops: seq<WriteOp>)
    ensures ops == WriteOps(cache.files, Start(b, cache.pieceLength),
      Min(Start(b, cache.pieceLength) + b.len, cache.totalSize), |cache.files|)
  {
    var blockStart := b.index * cache.pieceLength + b.begin;
    var blockEnd := Min(blockStart + b.len, cache.totalSize);
    ops := [];
    for i := 0 to |cache.files|
      invariant ops == WriteOps(cache.files, blockStart, blockEnd, i)
    {
      var f := cache.files[i];
      var fileEnd := f.start + f.length;
      var overlapStart := Max(blockStart, f.start);
      var overlapEnd := Min(blockEnd, fileEnd);
      if overlapStart >= overlapEnd {
        continue;
      }
      ops := ops + [WriteOp(i, overlapStart - f.start, overlapStart - blockStart, overlapEnd - blockStart)];
    }
  }

  /** Byte string `image`, whose first byte is at flat offset `base`, after
      writing `data` at flat offset `at`. */
  function Overwrite(image: seq<byte>, base: nat, at: nat, data: seq<byte>): (r: seq<byte>)
    ensures |r| == |image|
  {
    seq(|image|, i requires 0 <= i < |image| =>
      if at <= base + i < at + |data| then data[base + i - at] else image[i])
  }

  lemma {:induction false} OverwriteConcat(a: seq<byte>, b: seq<byte>, base: nat, at: nat, data: seq<byte>)
    ensures Overwrite(a + b, base, at, data) == Overwrite(a, base, at, data) + Overwrite(b, base + |a|, at, data)
  {
  }

  ghost predicate OpReads(op: WriteOp, files: nat, data: seq<byte>) {
    op.file < files && op.lo <= op.hi <= |data|
  }

  ghost function ApplyOp(contents: seq<seq<byte>>, op: WriteOp, data: seq<byte>): (r: seq<seq<byte>>)
    requires OpReads(op, |contents|, data)
    ensures |r| == |contents|
  {
    contents[op.file := Overwrite(contents[op.file], 0, op.offset, data[op.lo..op.hi])]
  }

  ghost predicate OpsRead(ops: seq<WriteOp>, files: nat, data: seq<byte>) {
    forall i :: 0 <= i < |ops| ==> OpReads(ops[i], files, data)
  }

  /** The files after the first `k` operations, in order. */
  ghost function ApplyOps(contents: seq<seq<byte>>, ops: seq<WriteOp>, data: seq<byte>, k: nat): (r: seq<seq<byte>>)
    requires OpsRead(ops, |contents|, data) && k <= |ops|
    ensures |r| == |contents|
  {
    if k == 0 then contents else ApplyOp(ApplyOps(contents, ops, data, k - 1), ops[k - 1], data)
  }

  /** Each operation stays inside its file, and no file is written twice. */
  lemma {:induction false} WriteOpInsideFile(fs: seq<FileMeta>, at: nat, to: nat, n: nat, k: nat)
    requires n <= |fs| && k < |WriteOps(fs, at, to, n)|
    ensures var op := WriteOps(fs, at, to, n)[k];
      && op.file < n && op.lo < op.hi
      && op.offset + (op.hi - op.lo) <= fs[op.file].length
    ensures k > 0 ==> WriteOps(fs, at, to, n)[k - 1].file < WriteOps(fs, at, to, n)[k].file
  {
    if k < |WriteOps(fs, at, to, n - 1)| {
      WriteOpInsideFile(fs, at, to, n - 1, k);
    } else if k > 0 {
      WriteOpInsideFile(fs, at, to, n - 1, k - 1);
    }
  }

  /** The operation for one file writes what the flat interval covers of it. */
  lemma {:induction false} FileOpOverwrites(f: FileMeta, i: nat, content: seq<byte>, at: nat, total: nat, data: seq<byte>)
    requires |content| == f.length && f.start + f.length <= total
    ensures var ops := FileOps(f, i, at, Min(at + |data|, total));
      if ops == [] then
        Overwrite(content, f.start, at, data) == content
      else
        && ops == [ops[0]] && ops[0].file == i && ops[0].lo <= ops[0].hi <= |data|
        && Overwrite(content, f.start, at, data) == Overwrite(content, 0, ops[0].offset, data[ops[0].lo..ops[0].hi])
  {
  }

  /** Operations appended to a list do not change what its first `k` do. */
  lemma {:induction false} ApplyOpsPrefix(contents: seq<seq<byte>>, ops: seq<WriteOp>, more: seq<WriteOp>, data: seq<byte>, k: nat)
    requires OpsRead(ops, |contents|, data) && OpsRead(ops + more, |contents|, data) && k <= |ops|
    ensures ApplyOps(contents, ops + more, data, k) == ApplyOps(contents, ops, data, k)
  {
    if k > 0 {
      ApplyOpsPrefix(contents, ops, more, data, k - 1);
    }
  }

  /** The first `n` files overwritten where the flat interval covers them. */
  ghost function OverwrittenFiles(fs: seq<FileMeta>, contents: seq<seq<byte>>, at: nat, data: seq<byte>, n: nat): (r: seq<seq<byte>>)
    requires |fs| == |contents| && n <= |fs|
    ensures |r| == |contents|
  {
    if n == 0 then
      contents
    else
      OverwrittenFiles(fs, contents, at, data, n - 1)[n - 1 := Overwrite(contents[n - 1], fs[n - 1].start, at, data)]
  }

  lemma {:induction false} OverwrittenFile(fs: seq<FileMeta>, contents: seq<seq<byte>>, at: nat, data: seq<byte>, n: nat, i: nat)
    requires |fs| == |contents| && n <= |fs| && i < |fs|
    ensures OverwrittenFiles(fs, contents, at, data, n)[i]
      == if i < n then Overwrite(contents[i], fs[i].start, at, data) else contents[i]
  {
    if n > 0 {
      OverwrittenFile(fs, contents, at, data, n - 1, i);
    }
  }

  /** What one more file adds to the operations is what it adds to the result. */
  lemma {:induction false} ApplyFileOps(fs: seq<FileMeta>, contents: seq<seq<byte>>, at: nat, total: nat, data: seq<byte>, n: nat, before: seq<WriteOp>)
    requires |fs| == |contents| && n < |fs| && |contents[n]| == fs[n].length && fs[n].start + fs[n].length <= total
    requires OpsRead(before, |fs|, data)
    requires ApplyOps(contents, before, data, |before|) == OverwrittenFiles(fs, contents, at, data, n)
    ensures var ops := before + FileOps(fs[n], n, at, Min(at + |data|, total));
      OpsRead(ops, |fs|, data) && ApplyOps(contents, ops, data, |ops|) == OverwrittenFiles(fs, contents, at, data, n + 1)
  {
    var more, prior := FileOps(fs[n], n, at, Min(at + |data|, total)), OverwrittenFiles(fs, contents, at, data, n);
    FileOpOverwrites(fs[n], n, contents[n], at, total, data);
    OverwrittenFile(fs, contents, at, data, n, n);
    if more == [] {
      assert before + more == before;
      assert prior[n := prior[n]] == prior;
    } else {
      assert (before + more)[|before|] == more[0];
      ApplyOpsPrefix(contents, before, more, data, |before|);
    }
  }

  /** File by file, the operations overwrite what the flat interval covers. */
  lemma {:induction false} AppliedFiles(fs: seq<FileMeta>, contents: seq<seq<byte>>, at: nat, total: nat, data: seq<byte>, n: nat)
    requires Contiguous(fs, total) && FullLength(fs, contents) && n <= |fs|
    ensures var ops := WriteOps(fs, at, Min(at + |data|, total), n);
      OpsRead(ops, |fs|, data) && ApplyOps(contents, ops, data, |ops|) == OverwrittenFiles(fs, contents, at, data, n)
  {
    if n > 0 {
      AppliedFiles(fs, contents, at, total, data, n - 1);
      FileSpan(fs, total, n - 1);
      ApplyFileOps(fs, contents, at, total, data, n - 1, WriteOps(fs, at, Min(at + |data|, total), n - 1));
    }
  }

  lemma {:induction false} ImageOverwrite(fs: seq<FileMeta>, before: seq<seq<byte>>, total: nat, at: nat, data: seq<byte>, n: nat)
    requires Contiguous(fs, total) && FullLength(fs, before) && n <= |fs|
    ensures Image(OverwrittenFiles(fs, before, at, data, |fs|), n) == Overwrite(Image(before, n), 0, at, data)
  {
    if n > 0 {
      var image, last := Image(before, n - 1), before[n - 1];
      assert fs[n - 1].start == |image| by {
        FileSpan(fs, total, n - 1);
        ImageLength(fs, before, n - 1);
      }
      assert OverwrittenFiles(fs, before, at, data, |fs|)[n - 1] == Overwrite(last, |image|, at, data) by {
        OverwrittenFile(fs, before, at, data, |fs|, n - 1);
      }
      ImageOverwrite(fs, before, total, at, data, n - 1);
      OverwriteConcat(image, last, 0, at, data);
    }
  }

  /** Writing a block through the per-file operations is one write to the flat
      byte string, clipped at its end: the covered bytes become the data, every
      other byte of every file stays. */
  lemma {:induction false} MultiFileWriteIsFlatWrite(cache: TorrentCache, contents: seq<seq<byte>>, at: nat, data: seq<byte>)
    requires Contiguous(cache.files, cache.totalSize) && FullLength(cache.files, contents)
    ensures var ops := WriteOps(cache.files, at, Min(at + |data|, cache.totalSize), |cache.files|);
      && OpsRead(ops, |contents|, data)
      && Image(ApplyOps(contents, ops, data, |ops|), |contents|) == Overwrite(Image(contents, |contents|), 0, at, data)
  {
    AppliedFiles(cache.files, contents, at, cache.totalSize, data, |cache.files|);
    ImageOverwrite(cache.files, contents, cache.totalSize, at, data, |cache.files|);
  }

  // ---- reading -----------------------------------------------------------------

  /** `s[from..to]` with both ends clipped to the length of `s`. */
  function Clip(s: seq<byte>, from: nat, to: nat): seq<byte>
    requires from <= to
  {
    s[Min(from, |s|)..Min(to, |s|)]
  }

  lemma {:induction false} ClipConcat(s: seq<byte>, t: seq<byte>, from: nat, to: nat)
    requires from <= to
    ensures Clip(s + t, from, to) == Clip(s, from, to) + Clip(t, Max(from - |s|, 0), Max(to - |s|, 0))
  {
  }

  /** What one file, mapped as `mapped`, contributes to the interval [from, to).
      A mapping shorter than the file contributes what it has. */
  function Contribution(f: FileMeta, mapped: seq<byte>, from: nat, to: nat): seq<byte> {
    var lo, hi := Max(from, f.start), Min(to, f.start + f.length);
    if lo >= hi then [] else Clip(mapped, lo - f.start, hi - f.start)
  }

  /** What the first `n` mapped files contribute. */
  function Readable(fs: seq<FileMeta>, mapped: seq<seq<byte>>, from: nat, to: nat, n: nat): seq<byte>
    requires n <= |mapped| <= |fs|
  {
    if n == 0 then [] else
      Readable(fs, mapped, from, to, n - 1) + Contribution(fs[n - 1], mapped[n - 1], from, to)
  }

  /** The contribution of a file, in the terms of half-open ranges. */
  lemma {:induction false} HalfOpenContribution(f: FileMeta, mapped: seq<byte>, from: nat, to: nat, offset: int, count: int)
    requires from <= to
    requires offset == Max(from, f.start) - f.start && count == Min(to, f.start + f.length) - Max(from, f.start)
    ensures !(from < f.start + f.length && to > f.start) ==> Contribution(f, mapped, from, to) == []
    ensures from < f.start + f.length && to > f.start ==>
      && 0 <= offset && 0 <= count
      && Contribution(f, mapped, from, to) ==
        if offset >= |mapped| then [] else mapped[offset..offset + Min(count, |mapped| - offset)]
  {
  }

  /** The same in the terms of inclusive ranges, for a non-empty file mapped in
      full. */
  lemma {:induction false} InclusiveContribution(f: FileMeta, mapped: seq<byte>, from: nat, last: nat, start: int, len: int)
    requires from <= last && |mapped| == f.length > 0
    requires start == Max(from, f.start) - f.start
    requires len == Min(last, f.start + f.length - 1) - f.start - start + 1
    ensures if from <= f.start + f.length - 1 && last >= f.start then
        0 <= start && 0 < len && start + len <= |mapped| && Contribution(f, mapped, from, last + 1) == mapped[start..start + len]
      else
        Contribution(f, mapped, from, last + 1) == []
  {
  }

  lemma {:induction false} FullContribution(f: FileMeta, mapped: seq<byte>, from: nat, to: nat)
    requires from <= to && |mapped| == f.length
    ensures Contribution(f, mapped, from, to) == Clip(mapped, Max(from - f.start, 0), Max(to - f.start, 0))
  {
  }

  /** What a fully mapped file contributes, counted from its own start. */
  lemma {:induction false} FileContribution(fs: seq<FileMeta>, contents: seq<seq<byte>>, total: nat, from: nat, to: nat, i: nat)
    requires Contiguous(fs, total) && FullLength(fs, contents) && i < |fs| && from <= to
    ensures var before := |Image(contents, i)|;
      Contribution(fs[i], contents[i], from, to) == Clip(contents[i], Max(from - before, 0), Max(to - before, 0))
  {
    FileSpan(fs, total, i);
    ImageLength(fs, contents, i);
    FullContribution(fs[i], contents[i], from, to);
  }

  lemma {:induction false} ReadablePrefix(fs: seq<FileMeta>, contents: seq<seq<byte>>, total: nat, from: nat, to: nat, n: nat)
    requires Contiguous(fs, total) && FullLength(fs, contents) && n <= |fs| && from <= to
    ensures Readable(fs, contents, from, to, n) == Clip(Image(contents, n), from, to)
  {
    if n > 0 {
      hide Clip, Contribution;
      ReadablePrefix(fs, contents, total, from, to, n - 1);
      FileContribution(fs, contents, total, from, to, n - 1);
      ClipConcat(Image(contents, n - 1), contents[n - 1], from, to);
    }
  }

  /** With every file mapped in full, reading an interval file by file yields
      exactly that slice of the flat byte string. */
  lemma {:induction false} ReadableIsFlatSlice(cache: TorrentCache, contents: seq<seq<byte>>, from: nat, to: nat)
    requires Contiguous(cache.files, cache.totalSize) && FullLength(cache.files, contents)
    requires from <= to <= cache.totalSize
    ensures |Image(contents, |contents|)| == cache.totalSize
    ensures Readable(cache.files, contents, from, to, |contents|) == Image(contents, |contents|)[from..to]
  {
    ImageLength(cache.files, contents, |contents|);
    ReadablePrefix(cache.files, contents, cache.totalSize, from, to, |contents|);
  }

  /** Files that begin at or after the end of the interval contribute nothing. */
  lemma {:induction false} NothingBeyond(fs: seq<FileMeta>, mapped: seq<seq<byte>>, total: nat, from: nat, to: nat, i: nat, n: nat)
    requires Contiguous(fs, total) && i <= n <= |mapped| <= |fs| && from <= to
    requires i < n && from < to ==> to <= Offset(fs, i)
    ensures Readable(fs, mapped, from, to, n) == Readable(fs, mapped, from, to, i)
  {
    if i < n {
      assert Contribution(fs[n - 1], mapped[n - 1], from, to) == [] by {
        FileSpan(fs, total, n - 1);
        OffsetMonotone(fs, i, n - 1);
      }
      NothingBeyond(fs, mapped, total, from, to, i, n - 1);
      assert Readable(fs, mapped, from, to, n) == Readable(fs, mapped, from, to, n - 1) + [];
    }
  }
}
