/** The framing does not depend on how the bytes are cut into chunks. */
module CodecRuns {
  import opened Basics
  import opened Metainfo
  import opened DiskModel
  import opened CodecModel
  import opened Framed

  /** Every number fits 32 bits. */
  predicate Encodable(m: Core) {
    && Len(m) <= U32_MAX
    && match m
       case Have(p) => p <= U32_MAX
       case Request(info) => Fits(info)
       case Cancel(info) => Fits(info)
       case Piece(b) => b.index <= U32_MAX && b.begin <= U32_MAX
       case _ => true
  }

  predicate Fits(b: BlockInfo) {
    b.index <= U32_MAX && b.begin <= U32_MAX && b.len <= U32_MAX
  }

  /** A message as it arrives: bitfields come in whole bytes. */
  function Canonical(m: Core): Core {
    if m.Bitfield? then Bitfield(Padded(m.bits)) else m
  }

  predicate EmptyBitfield(m: Core) {
    m.Bitfield? && m.bits == []
  }

  function Frame(m: Core): seq<byte> {
    Encode(m).0
  }

  // ---- one frame ------------------------------------------------------------------------

  lemma {:induction false} FrameLength(m: Core)
    requires Encodable(m)
    ensures Encode(m).1 && |Frame(m)| == 4 + Len(m)
    ensures !m.KeepAlive? ==> |Body(m)| == Len(m) - 1
  {
  }

  lemma {:induction false} InfoReadsBack(info: BlockInfo, rest: seq<byte>)
    requires Fits(info)
    ensures ReadInfo(Infos(info) + rest) == info && (Infos(info) + rest)[12..] == rest
  {
    var s := Infos(info) + rest;
    assert s[..4] == U32(info.index);
    assert s[4..][..4] == U32(info.begin);
    assert s[8..][..4] == U32(info.len);
    ReadsBack(info.index, s);
    ReadsBack(info.begin, s[4..]);
    ReadsBack(info.len, s[8..]);
  }

  lemma {:induction false} PieceReadsBack(b: Block, rest: seq<byte>)
    requires Encodable(Piece(b))
    ensures var buf := Body(Piece(b)) + rest;
      && |buf| >= 8 + |b.data|
      && ReadU32(buf) == b.index && ReadU32(buf[4..]) == b.begin
      && buf[8..8 + |b.data|] == b.data && buf[8 + |b.data|..] == rest
  {
    var buf := Body(Piece(b)) + rest;
    assert buf[..4] == U32(b.index);
    assert buf[4..][..4] == U32(b.begin);
    ReadsBack(b.index, buf);
    ReadsBack(b.begin, buf[4..]);
  }

  lemma {:induction false} DecodeBody(m: Core, rest: seq<byte>)
    requires Encodable(m) && !m.KeepAlive? && !(EmptyBitfield(m) && rest == [])
    requires |Body(m)| == Len(m) - 1
    ensures DecodePayload(Id(m), Len(m), Body(m) + rest) == (Got(Canonical(m)), rest)
  {
    var buf := Body(m) + rest;
    assert Body(m) == [] ==> buf == rest;
    match m
    case Have(p) =>
      assert buf[..4] == U32(p) && buf[4..] == rest;
      ReadsBack(p, buf);
    case Bitfield(bits) =>
      BytesRoundTrip(bits);
      assert buf[..Len(m) - 1] == ToBytes(bits) && buf[Len(m) - 1..] == rest;
    case Request(info) => InfoReadsBack(info, rest);
    case Cancel(info) => InfoReadsBack(info, rest);
    case Piece(b) => PieceReadsBack(b, rest);
    case Extended(id, payload) =>
      assert buf[1..Len(m) - 1] == payload && buf[Len(m) - 1..] == rest;
    case _ =>
  }

  lemma {:induction false} DecodeHeader(size: nat, id: byte, tail: seq<byte>)
    requires 1 <= size <= U32_MAX && size - 1 <= |tail|
    ensures Decode(U32(size) + [id] + tail) == DecodePayload(id, size, tail)
  {
    var buf := U32(size) + [id] + tail;
    assert buf[..4] == U32(size);
    ReadsBack(size, buf);
    assert buf[4] == id && buf[5..] == tail;
  }

  lemma {:induction false} DecodeKeepAlive(rest: seq<byte>)
    ensures Decode(Frame(KeepAlive) + rest) == (Got(KeepAlive), rest)
  {
    var buf := Frame(KeepAlive) + rest;
    assert buf[..4] == U32(0) && buf[4..] == rest;
    ReadsBack(0, buf);
  }

  lemma {:induction false} FrameSplits(m: Core, rest: seq<byte>)
    requires Encodable(m) && !m.KeepAlive?
    ensures Frame(m) + rest == U32(Len(m)) + [Id(m)] + (Body(m) + rest)
  {
  }

  /** A whole frame is decoded to its message, and exactly its bytes are taken;
      only an empty bitfield needs something after it. */
  lemma {:induction false} DecodeFrame(m: Core, rest: seq<byte>)
    requires Encodable(m) && !(EmptyBitfield(m) && rest == [])
    ensures Decode(Frame(m) + rest) == (Got(Canonical(m)), rest)
  {
    if m.KeepAlive? {
      DecodeKeepAlive(rest);
    } else {
      FrameLength(m);
      FrameSplits(m, rest);
      DecodeBody(m, rest);
      DecodeHeader(Len(m), Id(m), Body(m) + rest);
    }
  }

  /** An empty bitfield at the end of the buffer is taken but yields nothing. */
  lemma {:induction false} DecodeEmptyBitfield(m: Core)
    requires EmptyBitfield(m)
    ensures Decode(Frame(m)) == (Nothing, [])
  {
    DecodeHeader(1, Id(m), []);
    assert Frame(m) == U32(1) + [Id(m)] + [];
  }

  /** An incomplete frame is left in the buffer as it is. */
  lemma {:induction false} DecodeIncomplete(m: Core, n: nat)
    requires Encodable(m) && n < |Frame(m)|
    ensures Decode(Frame(m)[..n]) == (Nothing, Frame(m)[..n])
  {
    var buf := Frame(m)[..n];
    FrameLength(m);
    if n >= 4 {
      assert buf[..4] == U32(Len(m));
      ReadsBack(Len(m), buf);
    }
  }

  // ---- whole streams ------------------------------------------------------------------------

  /** The decoder as the reader of the stream calls it. */
  function Next(buf: seq<byte>): (Option<Core>, seq<byte>) {
    var (outcome, rest) := Decode(buf);
    (if outcome.Got? then Some(outcome.msg) else None, rest)
  }

  ghost predicate AllEncodable(ms: seq<Core>) {
    forall i :: 0 <= i < |ms| ==> Encodable(ms[i])
  }

  ghost function Scripted(ms: seq<Core>): Script<Core> {
    Script(
      seq(|ms|, i requires 0 <= i < |ms| => Frame(ms[i])),
      seq(|ms|, i requires 0 <= i < |ms| => Canonical(ms[i])),
      seq(|ms|, i requires 0 <= i < |ms| => EmptyBitfield(ms[i])))
  }

  lemma {:induction false} FramesAreDecodable(m: Core)
    requires Encodable(m)
    ensures Decodable(Next, Frame(m), Canonical(m), EmptyBitfield(m))
  {
    var f := Frame(m);
    FrameLength(m);
    forall rest | EmptyBitfield(m) ==> rest != [] ensures Next(f + rest) == (Some(Canonical(m)), rest) {
      DecodeFrame(m, rest);
    }
    forall n | 0 <= n < |f| ensures Next(f[..n]) == (None, f[..n]) {
      DecodeIncomplete(m, n);
    }
    if EmptyBitfield(m) {
      DecodeEmptyBitfield(m);
    }
  }

  lemma {:induction false} NextConsumes()
    ensures Consumes(Next)
  {
  }

  lemma {:induction false} ScriptIsDecodable(ms: seq<Core>)
    requires AllEncodable(ms)
    ensures AllDecodable(Next, Scripted(ms))
  {
    var s := Scripted(ms);
    forall j | 0 <= j < |ms| ensures Decodable(Next, s.frames[j], s.msgs[j], s.needs[j]) {
      FramesAreDecodable(ms[j]);
    }
  }

  /** However the encoding is cut, exactly the messages come out and nothing stays. */
  ghost predicate ChunkingIndependent(ms: seq<Core>) {
    NextConsumes();
    Independent(Next, Scripted(ms))
  }

  /** For messages that fit the wire format: whatever the cut into chunks, exactly
      these messages (bitfields filled up to whole bytes) come out and nothing
      stays behind, if and only if none of them is an empty bitfield. */
  lemma {:induction false} ChunkingIndependentIff(ms: seq<Core>)
    requires AllEncodable(ms)
    ensures ChunkingIndependent(ms) <==> forall i :: 0 <= i < |ms| ==> !EmptyBitfield(ms[i])
  {
    NextConsumes();
    ScriptIsDecodable(ms);
    IndependentIff(Next, Scripted(ms));
    var needs := Scripted(ms).needs;
    assert forall i :: 0 <= i < |ms| ==> needs[i] == EmptyBitfield(ms[i]);
  }
}
