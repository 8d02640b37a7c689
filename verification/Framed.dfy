/** Reading a stream of frames through a growing buffer: a decoder is called on the
    buffer until it yields nothing, then the next chunk of bytes is appended. */
module Framed {
  import opened Basics

  /** A decoder looks at the buffer and returns a message, if one is complete, and
      what stays in the buffer. */
  type Decoder<!M> = seq<byte> -> (Option<M>, seq<byte>)

  /** Messages take up bytes, and an empty buffer yields nothing. */
  ghost predicate Consumes<M(!new)>(dec: Decoder<M>) {
    && dec([]) == (None, [])
    && forall buf :: dec(buf).0.Some? ==> |dec(buf).1| < |buf|
  }

  /** Decode until nothing comes: the messages and what is left in the buffer. */
  ghost function Drain<M(!new)>(dec: Decoder<M>, buf: seq<byte>): (seq<M>, seq<byte>)
    requires Consumes(dec)
    decreases |buf|
  {
    var (msg, rest) := dec(buf);
    if msg.Some? then
      var (more, last) := Drain(dec, rest);
      ([msg.value] + more, last)
    else
      ([], rest)
  }

  /** The first `k` chunks arrive one by one. */
  ghost function Feed<M(!new)>(dec: Decoder<M>, chunks: seq<seq<byte>>, k: nat): (seq<M>, seq<byte>)
    requires Consumes(dec) && k <= |chunks|
  {
    if k == 0 then ([], []) else
      var (msgs, buf) := Feed(dec, chunks, k - 1);
      var (more, rest) := Drain(dec, buf + chunks[k - 1]);
      (msgs + more, rest)
  }

  /** How long the first `k` of some byte strings are together. */
  function End(parts: seq<seq<byte>>, k: nat): nat
    requires k <= |parts|
  {
    if k == 0 then 0 else End(parts, k - 1) + |parts[k - 1]|
  }

  /** The first `k` of some byte strings in a row. */
  function Flat(parts: seq<seq<byte>>, k: nat): (r: seq<byte>)
    requires k <= |parts|
    ensures |r| == End(parts, k)
  {
    if k == 0 then [] else Flat(parts, k - 1) + parts[k - 1]
  }

  lemma {:induction false} FlatPrefix(parts: seq<seq<byte>>, j: nat, k: nat)
    requires j <= k <= |parts|
    ensures End(parts, j) <= End(parts, k) && Flat(parts, k)[..End(parts, j)] == Flat(parts, j)
  {
    if j < k {
      FlatPrefix(parts, j, k - 1);
      assert Flat(parts, k)[..End(parts, j)] == Flat(parts, k - 1)[..End(parts, j)];
    } else {
      assert Flat(parts, k)[..End(parts, k)] == Flat(parts, k);
    }
  }

  /** Between the ends of two neighbours lies the later one. */
  lemma {:induction false} PartInFlat(parts: seq<seq<byte>>, j: nat)
    requires j < |parts|
    ensures End(parts, j + 1) == End(parts, j) + |parts[j]| <= End(parts, |parts|)
    ensures Flat(parts, |parts|)[End(parts, j)..End(parts, j + 1)] == parts[j]
  {
    FlatPrefix(parts, j, j + 1);
    FlatPrefix(parts, j + 1, |parts|);
    var s, a, e := Flat(parts, |parts|), End(parts, j), End(parts, j + 1);
    assert s[a..e] == s[..e][a..];
    assert Flat(parts, j + 1) == Flat(parts, j) + parts[j];
  }

  // ---- decodable frames ---------------------------------------------------------------

  /** A frame that is decoded whole and left alone while incomplete. A frame that
      needs company is lost when the buffer ends with it. */
  ghost predicate Decodable<M(!new)>(dec: Decoder<M>, frame: seq<byte>, msg: M, needsCompany: bool) {
    && frame != []
    && (forall rest :: (needsCompany ==> rest != []) ==> dec(frame + rest) == (Some(msg), rest))
    && (forall n :: 0 <= n < |frame| ==> dec(frame[..n]) == (None, frame[..n]))
    && (needsCompany ==> dec(frame) == (None, []))
  }

  /** A list of messages with their frames. */
  datatype Script<M> = Script(frames: seq<seq<byte>>, msgs: seq<M>, needs: seq<bool>)

  ghost predicate AllDecodable<M(!new)>(dec: Decoder<M>, s: Script<M>) {
    && |s.frames| == |s.msgs| == |s.needs|
    && forall j :: 0 <= j < |s.frames| ==> Decodable(dec, s.frames[j], s.msgs[j], s.needs[j])
  }

  /** Starting at frame `j`, the first one that is not complete in `n` bytes. */
  function Complete(frames: seq<seq<byte>>, j: nat, n: nat): (r: nat)
    requires j <= |frames|
    ensures j <= r <= |frames|
    decreases |frames| - j
  {
    if j < |frames| && End(frames, j + 1) <= n then Complete(frames, j + 1, n) else j
  }

  lemma {:induction false} CompleteTwice(frames: seq<seq<byte>>, j: nat, m: nat, n: nat)
    requires j <= |frames| && m <= n
    ensures Complete(frames, Complete(frames, j, m), n) == Complete(frames, j, n)
    decreases |frames| - j
  {
    if j < |frames| && End(frames, j + 1) <= m {
      CompleteTwice(frames, j + 1, m, n);
    }
  }

  lemma {:induction false} AllComplete(frames: seq<seq<byte>>, j: nat, n: nat)
    requires j <= |frames| && n == End(frames, |frames|)
    ensures Complete(frames, j, n) == |frames|
    decreases |frames| - j
  {
    if j < |frames| {
      FlatPrefix(frames, j + 1, |frames|);
      AllComplete(frames, j + 1, n);
    }
  }

  lemma {:induction false} SliceSplits(s: seq<byte>, a: nat, b: nat, c: nat)
    requires a <= b <= c <= |s|
    ensures s[a..c] == s[a..b] + s[b..c]
  {
  }

  lemma {:induction false} SlicePrefix(s: seq<byte>, a: nat, n: nat, b: nat)
    requires a <= n <= b <= |s|
    ensures s[a..n] == s[a..b][..n - a]
  {
  }

  /** The bytes from frame `j` up to position `n` of the whole stream. */
  function Rest(frames: seq<seq<byte>>, j: nat, n: nat): seq<byte>
    requires j <= |frames| && End(frames, j) <= n <= End(frames, |frames|)
  {
    Flat(frames, |frames|)[End(frames, j)..n]
  }

  lemma {:induction false} RestSplits(frames: seq<seq<byte>>, j: nat, n: nat)
    requires j < |frames| && End(frames, j + 1) <= n <= End(frames, |frames|)
    ensures End(frames, j + 1) == End(frames, j) + |frames[j]|
    ensures Rest(frames, j, n) == frames[j] + Rest(frames, j + 1, n)
  {
    PartInFlat(frames, j);
    SliceSplits(Flat(frames, |frames|), End(frames, j), End(frames, j + 1), n);
  }

  lemma {:induction false} RestIsPrefix(frames: seq<seq<byte>>, j: nat, n: nat)
    requires j < |frames| && End(frames, j) <= n < End(frames, j + 1)
    ensures n <= End(frames, |frames|) && n - End(frames, j) < |frames[j]|
    ensures Rest(frames, j, n) == frames[j][..n - End(frames, j)]
  {
    PartInFlat(frames, j);
    SlicePrefix(Flat(frames, |frames|), End(frames, j), n, End(frames, j + 1));
  }

  lemma {:induction false} TakeFrame<M(!new)>(dec: Decoder<M>, s: Script<M>, j: nat, n: nat)
    requires AllDecodable(dec, s) && j < |s.frames| && End(s.frames, j + 1) <= n <= End(s.frames, |s.frames|)
    requires s.needs[j] ==> End(s.frames, j + 1) < n
    ensures End(s.frames, j) < End(s.frames, j + 1)
    ensures dec(Rest(s.frames, j, n)) == (Some(s.msgs[j]), Rest(s.frames, j + 1, n))
  {
    RestSplits(s.frames, j, n);
    assert Decodable(dec, s.frames[j], s.msgs[j], s.needs[j]);
    assert |Rest(s.frames, j + 1, n)| == n - End(s.frames, j + 1);
  }

  lemma {:induction false} LeaveFrame<M(!new)>(dec: Decoder<M>, s: Script<M>, j: nat, n: nat)
    requires AllDecodable(dec, s) && j < |s.frames| && End(s.frames, j) <= n < End(s.frames, j + 1)
    ensures n <= End(s.frames, |s.frames|)
    ensures dec(Rest(s.frames, j, n)) == (None, Rest(s.frames, j, n))
  {
    RestIsPrefix(s.frames, j, n);
    assert Decodable(dec, s.frames[j], s.msgs[j], s.needs[j]);
  }

  /** None of the first `k` frames that need company ends exactly at `n`. */
  ghost predicate CleanCut<M>(s: Script<M>, k: nat, n: nat)
    requires k <= |s.needs| == |s.frames|
  {
    forall j :: 0 <= j < k && s.needs[j] ==> End(s.frames, j + 1) != n
  }

  /** From frame `j` to frame `k`, one call of the decoder takes one frame. */
  ghost predicate Chain<M(!new)>(dec: Decoder<M>, s: Script<M>, j: nat, k: nat, n: nat)
    requires j <= k <= |s.frames| == |s.msgs| && n <= End(s.frames, |s.frames|)
    decreases k - j
  {
    j == k ||
    (End(s.frames, j) <= End(s.frames, j + 1) <= n &&
     dec(Rest(s.frames, j, n)) == (Some(s.msgs[j]), Rest(s.frames, j + 1, n)) &&
     Chain(dec, s, j + 1, k, n))
  }

  lemma {:induction false} DecodableChain<M(!new)>(dec: Decoder<M>, s: Script<M>, j: nat, k: nat, n: nat)
    requires AllDecodable(dec, s) && j <= k <= |s.frames| && CleanCut(s, k, n)
    requires End(s.frames, k) <= n <= End(s.frames, |s.frames|)
    ensures Chain(dec, s, j, k, n)
    decreases k - j
  {
    if j < k {
      FlatPrefix(s.frames, j + 1, k);
      TakeFrame(dec, s, j, n);
      DecodableChain(dec, s, j + 1, k, n);
    }
  }

  lemma {:induction false} DrainChain<M(!new)>(dec: Decoder<M>, s: Script<M>, j: nat, k: nat, n: nat, last: seq<byte>)
    requires Consumes(dec) && j <= k <= |s.frames| == |s.msgs|
    requires End(s.frames, j) <= n <= End(s.frames, |s.frames|) && End(s.frames, k) <= n
    requires Chain(dec, s, j, k, n) && dec(Rest(s.frames, k, n)) == (None, last)
    ensures Drain(dec, Rest(s.frames, j, n)) == (s.msgs[j..k], last)
    decreases k - j
  {
    if j < k {
      DrainChain(dec, s, j + 1, k, n, last);
      DrainStep(dec, Rest(s.frames, j, n), Rest(s.frames, j + 1, n), s.msgs[j], s.msgs[j + 1..k], last);
      assert s.msgs[j..k] == [s.msgs[j]] + s.msgs[j + 1..k];
    } else {
      assert s.msgs[j..j] == [];
    }
  }

  lemma {:induction false} DrainStep<M(!new)>(dec: Decoder<M>, buf: seq<byte>, rest: seq<byte>, msg: M, more: seq<M>, last: seq<byte>)
    requires Consumes(dec) && dec(buf) == (Some(msg), rest) && Drain(dec, rest) == (more, last)
    ensures Drain(dec, buf) == ([msg] + more, last)
  {
  }

  lemma {:induction false} CompleteBounds(frames: seq<seq<byte>>, j: nat, n: nat)
    requires j <= |frames| && End(frames, j) <= n
    ensures var k := Complete(frames, j, n); End(frames, k) <= n && (k < |frames| ==> n < End(frames, k + 1))
    decreases |frames| - j
  {
    if j < |frames| && End(frames, j + 1) <= n {
      CompleteBounds(frames, j + 1, n);
    }
  }

  lemma {:induction false} StopsAt<M(!new)>(dec: Decoder<M>, s: Script<M>, k: nat, n: nat)
    requires Consumes(dec) && AllDecodable(dec, s) && k <= |s.frames|
    requires End(s.frames, k) <= n <= End(s.frames, |s.frames|) && (k < |s.frames| ==> n < End(s.frames, k + 1))
    ensures dec(Rest(s.frames, k, n)) == (None, Rest(s.frames, k, n))
  {
    if k < |s.frames| {
      LeaveFrame(dec, s, k, n);
    } else {
      assert Rest(s.frames, k, n) == [];
    }
  }

  /** A buffer that starts at frame `j` yields all its complete frames. */
  lemma {:induction false} DrainFrom<M(!new)>(dec: Decoder<M>, s: Script<M>, j: nat, n: nat)
    requires Consumes(dec) && AllDecodable(dec, s) && j <= |s.frames| && CleanCut(s, |s.frames|, n)
    requires End(s.frames, j) <= n <= End(s.frames, |s.frames|)
    ensures var k := Complete(s.frames, j, n);
      End(s.frames, k) <= n && Drain(dec, Rest(s.frames, j, n)) == (s.msgs[j..k], Rest(s.frames, k, n))
  {
    var k := Complete(s.frames, j, n);
    CompleteBounds(s.frames, j, n);
    DecodableChain(dec, s, j, k, n);
    StopsAt(dec, s, k, n);
    DrainChain(dec, s, j, k, n, Rest(s.frames, k, n));
  }

  // ---- chunks ----------------------------------------------------------------------------

  /** The first `n` bytes have arrived: their complete messages are out and the
      buffer holds the rest. */
  ghost predicate ReceivedUpTo<M(!new)>(s: Script<M>, n: nat, got: (seq<M>, seq<byte>))
    requires |s.msgs| == |s.frames|
  {
    var j := Complete(s.frames, 0, n);
    End(s.frames, j) <= n <= End(s.frames, |s.frames|) &&
    got == (s.msgs[..j], Rest(s.frames, j, n))
  }

  lemma {:induction false} NothingReceived<M(!new)>(dec: Decoder<M>, s: Script<M>)
    requires AllDecodable(dec, s)
    ensures ReceivedUpTo(s, 0, ([], []))
  {
    if |s.frames| > 0 {
      assert Decodable(dec, s.frames[0], s.msgs[0], s.needs[0]);
      PartInFlat(s.frames, 0);
    }
  }

  lemma {:induction false} ReceiveChunk<M(!new)>(dec: Decoder<M>, s: Script<M>, m: nat, n: nat, got: (seq<M>, seq<byte>), chunk: seq<byte>)
    requires Consumes(dec) && AllDecodable(dec, s) && ReceivedUpTo(s, m, got)
    requires m <= n <= End(s.frames, |s.frames|) && CleanCut(s, |s.frames|, n) && chunk == Flat(s.frames, |s.frames|)[m..n]
    ensures var (more, rest) := Drain(dec, got.1 + chunk); ReceivedUpTo(s, n, (got.0 + more, rest))
  {
    assert |s.frames| == |s.msgs| == |s.needs|;
    hide AllDecodable, Drain, CleanCut;
    var all, j := Flat(s.frames, |s.frames|), Complete(s.frames, 0, m);
    SliceSplits(all, End(s.frames, j), m, n);
    DrainFrom(dec, s, j, n);
    CompleteTwice(s.frames, 0, m, n);
    TakeSplits(s.msgs, j, Complete(s.frames, 0, n));
  }

  lemma {:induction false} TakeSplits<M>(s: seq<M>, j: nat, k: nat)
    requires j <= k <= |s|
    ensures s[..j] + s[j..k] == s[..k]
  {
  }

  lemma {:induction false} FeedPrefix<M(!new)>(dec: Decoder<M>, s: Script<M>, chunks: seq<seq<byte>>, k: nat)
    requires Consumes(dec) && AllDecodable(dec, s) && k <= |chunks| && Flat(chunks, |chunks|) == Flat(s.frames, |s.frames|)
    requires forall j :: 0 <= j < |s.needs| ==> !s.needs[j]
    ensures ReceivedUpTo(s, End(chunks, k), Feed(dec, chunks, k))
  {
    assert |s.frames| == |s.msgs| == |s.needs|;
    hide AllDecodable, Drain, ReceivedUpTo;
    if k == 0 {
      NothingReceived(dec, s);
    } else {
      FeedPrefix(dec, s, chunks, k - 1);
      PartInFlat(chunks, k - 1);
      ReceiveChunk(dec, s, End(chunks, k - 1), End(chunks, k), Feed(dec, chunks, k - 1), chunks[k - 1]);
    }
  }

  /** However the frames are cut into chunks, exactly the messages come out and
      nothing stays behind. */
  ghost predicate Independent<M(!new)>(dec: Decoder<M>, s: Script<M>)
    requires Consumes(dec)
  {
    forall chunks :: Flat(chunks, |chunks|) == Flat(s.frames, |s.frames|) ==>
      Feed(dec, chunks, |chunks|) == (s.msgs, [])
  }

  lemma {:induction false} NoNeedsIsIndependent<M(!new)>(dec: Decoder<M>, s: Script<M>)
    requires Consumes(dec) && AllDecodable(dec, s) && forall j :: 0 <= j < |s.needs| ==> !s.needs[j]
    ensures Independent(dec, s)
  {
    AllComplete(s.frames, 0, End(s.frames, |s.frames|));
    forall chunks | Flat(chunks, |chunks|) == Flat(s.frames, |s.frames|)
      ensures Feed(dec, chunks, |chunks|) == (s.msgs, [])
    {
      FeedPrefix(dec, s, chunks, |chunks|);
      assert End(chunks, |chunks|) == End(s.frames, |s.frames|);
      assert Rest(s.frames, |s.frames|, End(chunks, |chunks|)) == [];
      assert s.msgs[..|s.msgs|] == s.msgs;
    }
  }

  // ---- frames that need company -------------------------------------------------------------

  lemma {:induction false} EndsIncrease<M(!new)>(dec: Decoder<M>, s: Script<M>, j: nat, i: nat)
    requires AllDecodable(dec, s) && j <= i < |s.frames|
    ensures End(s.frames, j) < End(s.frames, i + 1) <= End(s.frames, |s.frames|)
  {
    FlatPrefix(s.frames, j, i);
    PartInFlat(s.frames, i);
    assert Decodable(dec, s.frames[i], s.msgs[i], s.needs[i]);
  }

  lemma {:induction false} LoneFrame<M(!new)>(dec: Decoder<M>, s: Script<M>, i: nat)
    requires AllDecodable(dec, s) && i < |s.frames| && s.needs[i]
    ensures End(s.frames, i) <= End(s.frames, i + 1) <= End(s.frames, |s.frames|)
    ensures dec(Rest(s.frames, i, End(s.frames, i + 1))) == (None, [])
  {
    PartInFlat(s.frames, i);
    assert Decodable(dec, s.frames[i], s.msgs[i], s.needs[i]);
  }

  /** Cut right after a frame that needs company, it is taken but not delivered. */
  lemma {:induction false} LastIsLost<M(!new)>(dec: Decoder<M>, s: Script<M>, i: nat)
    requires Consumes(dec) && AllDecodable(dec, s) && i < |s.frames| && s.needs[i]
    ensures End(s.frames, i + 1) <= End(s.frames, |s.frames|)
    ensures Drain(dec, Rest(s.frames, 0, End(s.frames, i + 1))) == (s.msgs[0..i], [])
  {
    var n := End(s.frames, i + 1);
    LoneFrame(dec, s, i);
    forall x | 0 <= x < i && s.needs[x] ensures End(s.frames, x + 1) != n {
      EndsIncrease(dec, s, x + 1, i);
    }
    DecodableChain(dec, s, 0, i, n);
    DrainChain(dec, s, 0, i, n, []);
  }

  lemma {:induction false} TwoChunks<M(!new)>(dec: Decoder<M>, a: seq<byte>, b: seq<byte>)
    requires Consumes(dec)
    ensures Flat([a, b], 2) == a + b
    ensures var (x, rest) := Drain(dec, a); Feed(dec, [a, b], 2).0 == x + Drain(dec, rest + b).0
  {
    var chunks := [a, b];
    assert [] + a == a;
    assert Flat(chunks, 1) == a;
    var (x, rest) := Drain(dec, a);
    assert [] + x == x;
    assert Feed(dec, chunks, 1) == (x, rest);
  }

  lemma {:induction false} LastNeedy(needs: seq<bool>, k: nat) returns (i: nat)
    requires k <= |needs| && exists x :: 0 <= x < k && needs[x]
    ensures i < k && needs[i] && forall x :: i < x < k ==> !needs[x]
  {
    i := k - 1;
    if !needs[i] {
      i := LastNeedy(needs, k - 1);
    }
  }

  lemma {:induction false} RestIsComplete<M(!new)>(dec: Decoder<M>, s: Script<M>, i: nat)
    requires Consumes(dec) && AllDecodable(dec, s) && i < |s.frames| && forall x :: i < x < |s.frames| ==> !s.needs[x]
    ensures End(s.frames, i + 1) <= End(s.frames, |s.frames|)
    ensures Drain(dec, Rest(s.frames, i + 1, End(s.frames, |s.frames|))).0 == s.msgs[i + 1..]
  {
    assert |s.frames| == |s.msgs| == |s.needs|;
    hide AllDecodable, Drain;
    PartInFlat(s.frames, i);
    var n := End(s.frames, |s.frames|);
    AllComplete(s.frames, i + 1, n);
    forall x | 0 <= x < |s.frames| && s.needs[x] ensures End(s.frames, x + 1) != n || i + 1 == |s.frames| {
      if i + 1 < |s.frames| {
        EndsIncrease(dec, s, x + 1, |s.frames| - 1);
      }
    }
    if i + 1 < |s.frames| {
      DrainFrom(dec, s, i + 1, n);
      assert s.msgs[i + 1..|s.msgs|] == s.msgs[i + 1..];
    } else {
      assert Rest(s.frames, i + 1, n) == [] && s.msgs[i + 1..] == [];
    }
  }

  lemma {:induction false} CutAt(frames: seq<seq<byte>>, j: nat)
    requires j <= |frames|
    ensures End(frames, j) <= End(frames, |frames|)
    ensures Rest(frames, 0, End(frames, j)) + Rest(frames, j, End(frames, |frames|)) == Flat(frames, |frames|)
  {
    FlatPrefix(frames, j, |frames|);
  }

  lemma {:induction false} BrokenByTwo<M(!new)>(dec: Decoder<M>, s: Script<M>, a: seq<byte>, b: seq<byte>)
    requires Consumes(dec) && Flat([a, b], 2) == Flat(s.frames, |s.frames|)
    requires Feed(dec, [a, b], 2).0 != s.msgs
    ensures !Independent(dec, s)
  {
    hide Feed, Flat;
    assert |[a, b]| == 2;
  }

  lemma {:induction false} CutLoses<M(!new)>(dec: Decoder<M>, s: Script<M>, i: nat)
    requires Consumes(dec) && AllDecodable(dec, s) && i < |s.frames| && s.needs[i]
    requires forall x :: i < x < |s.frames| ==> !s.needs[x]
    ensures !Independent(dec, s)
  {
    assert |s.frames| == |s.msgs| == |s.needs|;
    hide AllDecodable, Drain, Feed, Independent, Flat;
    CutAt(s.frames, i + 1);
    var a, b := Rest(s.frames, 0, End(s.frames, i + 1)), Rest(s.frames, i + 1, End(s.frames, |s.frames|));
    LastIsLost(dec, s, i);
    TwoChunks(dec, a, b);
    RestIsComplete(dec, s, i);
    assert [] + b == b;
    assert |Feed(dec, [a, b], 2).0| == |s.msgs| - 1;
    BrokenByTwo(dec, s, a, b);
  }

  /** For decodable frames: the cut into chunks does not matter if and only if no
      frame needs company. */
  lemma {:induction false} IndependentIff<M(!new)>(dec: Decoder<M>, s: Script<M>)
    requires Consumes(dec) && AllDecodable(dec, s)
    ensures Independent(dec, s) <==> forall j :: 0 <= j < |s.needs| ==> !s.needs[j]
  {
    if exists x :: 0 <= x < |s.needs| && s.needs[x] {
      var i := LastNeedy(s.needs, |s.needs|);
      CutLoses(dec, s, i);
    } else {
      NoNeedsIsIndependent(dec, s);
    }
  }
}
