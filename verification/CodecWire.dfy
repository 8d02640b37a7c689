/** The peer messages byte by byte, and what becomes of frames that are unknown or
    have the wrong length. */
module CodecWire {
  import opened Basics
  import opened Metainfo
  import opened DiskModel
  import opened CodecModel
  import opened CodecRuns

  // ---- numbers and bits on the wire ----------------------------------------------------

  /** Four bytes, most significant first, of the lowest 32 bits of a number. */
  function Wire32(n: nat): seq<byte> {
    [n / 16777216 % 256, n / 65536 % 256, n / 256 % 256, n % 256]
  }

  lemma {:induction false} U32IsWire(n: nat)
    ensures U32(n) == Wire32(n)
  {
    var a, b, c := n / 256, n / 256 / 256, n / 256 / 256 / 256;
    assert BigEndian(c, 0) == [] && BigEndian(c, 1) == [] + [c % 256] == [c % 256];
    assert BigEndian(b, 2) == [c % 256, b % 256];
    assert BigEndian(a, 3) == [c % 256, b % 256, a % 256];
    assert BigEndian(n, 4) == [c % 256, b % 256, a % 256, n % 256];
  }

  /** The first bit of eight is the most significant one. */
  lemma {:induction false} ByteIsWire(bits: seq<bool>, i: nat)
    ensures ByteAt(bits, i) ==
      128 * Num(Bit(bits, i)) + 64 * Num(Bit(bits, i + 1)) + 32 * Num(Bit(bits, i + 2)) + 16 * Num(Bit(bits, i + 3)) +
      8 * Num(Bit(bits, i + 4)) + 4 * Num(Bit(bits, i + 5)) + 2 * Num(Bit(bits, i + 6)) + Num(Bit(bits, i + 7))
  {
    assert Number(bits, i, 1) == Num(Bit(bits, i));
    assert Number(bits, i, 3) == 2 * Number(bits, i, 2) + Num(Bit(bits, i + 2));
    assert Number(bits, i, 5) == 2 * Number(bits, i, 4) + Num(Bit(bits, i + 4));
    assert Number(bits, i, 7) == 2 * Number(bits, i, 6) + Num(Bit(bits, i + 6));
  }

  // ---- messages on the wire --------------------------------------------------------------

  lemma {:induction false} NoBody(a: seq<byte>, b: seq<byte>)
    ensures a + b + [] == a + b
  {
  }

  /** The bytes of every kind of message: length, id, then the fields in order. */
  lemma {:induction false} WireFormat(m: Core)
    requires !Refused(m)
    ensures Encode(m).1
    ensures Encode(m).0 ==
      match m
      case KeepAlive => [0, 0, 0, 0]
      case Choke => [0, 0, 0, 1, 0]
      case Unchoke => [0, 0, 0, 1, 1]
      case Interested => [0, 0, 0, 1, 2]
      case NotInterested => [0, 0, 0, 1, 3]
      case Have(p) => [0, 0, 0, 5, 4] + Wire32(p)
      case Bitfield(bits) => Wire32(1 + (|bits| + 7) / 8) + [5] + ToBytes(bits)
      case Request(b) => [0, 0, 0, 13, 6] + (Wire32(b.index) + Wire32(b.begin) + Wire32(b.len))
      case Piece(b) => Wire32(9 + |b.data|) + [7] + (Wire32(b.index) + Wire32(b.begin) + b.data)
      case Cancel(b) => [0, 0, 0, 13, 8] + (Wire32(b.index) + Wire32(b.begin) + Wire32(b.len))
      case Extended(id, payload) => Wire32(2 + |payload|) + [20] + ([id] + payload)
  {
    U32IsWire(Len(m));
    match m
    case KeepAlive => U32IsWire(0);
    case Have(p) => U32IsWire(p);
    case Request(b) => InfoIsWire(b);
    case Cancel(b) => InfoIsWire(b);
    case Piece(b) =>
      U32IsWire(b.index);
      U32IsWire(b.begin);
    case _ =>
  }

  lemma {:induction false} InfoIsWire(b: BlockInfo)
    ensures Infos(b) == Wire32(b.index) + Wire32(b.begin) + Wire32(b.len)
  {
    U32IsWire(b.index);
    U32IsWire(b.begin);
    U32IsWire(b.len);
  }

  /** A message with an index beyond 32 bits leaves its length and id, and nothing
      else, in the buffer. */
  lemma {:induction false} RefusedWire(m: Core)
    ensures !Encode(m).1 <==> (m.Have? && m.piece >= 0x1_0000_0000) || (m.Piece? && m.block.index >= 0x1_0000_0000)
    ensures m.Have? && m.piece >= 0x1_0000_0000 ==> Encode(m).0 == [0, 0, 0, 5, 4]
    ensures m.Piece? && m.block.index >= 0x1_0000_0000 ==> Encode(m).0 == Wire32(9 + |m.block.data|) + [7]
  {
    U32IsWire(Len(m));
  }

  // ---- frames that are not messages ----------------------------------------------------------

  predicate Known(id: byte) {
    id <= 8 || id == 20
  }

  /** A frame with an unknown id yields nothing, and one byte too many is skipped: the
      bytes that follow stay whole exactly if there are none. */
  lemma {:induction false} UnknownSkipsOneMore(size: nat, id: byte, payload: seq<byte>, rest: seq<byte>)
    requires 1 <= size <= U32_MAX && |payload| == size - 1 && !Known(id)
    ensures var (o, left) := Decode(Wire32(size) + [id] + payload + rest);
      && o == Nothing
      && left == (if rest == [] then [] else rest[1..])
      && (left == rest <==> rest == [])
  {
    U32IsWire(size);
    assert Wire32(size) + [id] + payload + rest == U32(size) + [id] + (payload + rest);
    DecodeHeader(size, id, payload + rest);
    if rest != [] {
      assert (payload + rest)[size..] == rest[1..];
    }
  }

  /** The length of the messages whose length is fixed. */
  function FixedLength(id: byte): nat {
    if id <= 3 then 1 else if id == 4 then 5 else 13
  }

  /** A message of fixed length is read without regard to the length in front of it:
      if enough bytes follow, exactly the frame is taken if and only if that length
      is right. */
  lemma {:induction false} FixedTakesFrameIff(size: nat, id: byte, tail: seq<byte>)
    requires 1 <= size <= U32_MAX && size - 1 <= |tail| && (id <= 4 || id == 6 || id == 8)
    ensures var (o, left) := Decode(Wire32(size) + [id] + tail);
      && (o.Got? <==> |tail| >= FixedLength(id) - 1)
      && (!o.Got? ==> o == Nothing && left == tail)
      && (o.Got? ==> left == tail[FixedLength(id) - 1..] && (left == tail[size - 1..] <==> size == FixedLength(id)))
  {
    U32IsWire(size);
    DecodeHeader(size, id, tail);
    if |tail| >= FixedLength(id) - 1 {
      SameTailIff(tail, FixedLength(id) - 1, size - 1);
    }
  }

  lemma {:induction false} SameTailIff(s: seq<byte>, i: nat, j: nat)
    requires i <= |s| && j <= |s|
    ensures s[i..] == s[j..] <==> i == j
  {
    assert |s[i..]| == |s| - i && |s[j..]| == |s| - j;
  }

  /** A complete frame too short for its kind is left behind its id. */
  lemma {:induction false} ShortPayloadStays(size: nat, id: byte, tail: seq<byte>)
    requires 1 <= size <= U32_MAX && size - 1 <= |tail|
    requires (id == 5 && |tail| < 1) || (id == 7 && |tail| < 8) || (id == 20 && |tail| < 1)
    ensures Decode(Wire32(size) + [id] + tail) == (Nothing, tail)
  {
    U32IsWire(size);
    DecodeHeader(size, id, tail);
  }

  /** The copy of a payload panics exactly in these complete frames: a block whose
      length does not cover its two numbers, or an extended message without its
      id, although the bytes for them are there. */
  lemma {:induction false} PanicsIff(buf: seq<byte>)
    ensures Decode(buf).0 == Panics <==>
      |buf| >= 5 && 0 < ReadU32(buf) <= |buf| - 4 &&
      ((buf[4] == 7 && ReadU32(buf) < 9 && |buf| >= 13) || (buf[4] == 20 && ReadU32(buf) < 2 && |buf| >= 6))
    ensures Decode(buf).0 == Panics ==> Decode(buf).1 == buf[if buf[4] == 7 then 13 else 6..]
  {
  }
}
