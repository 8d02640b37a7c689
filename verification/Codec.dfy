/** The encoder and decoder of peer messages working on a mutable byte buffer. */
module Codec {
  import opened Basics
  import opened Metainfo
  import opened DiskModel
  import opened CodecModel

  /** A buffer bytes are appended to at the end and taken from at the front. */
  class Buffer {
    var bytes: seq<byte>

    constructor ()
      ensures bytes == []
    {
      bytes := [];
    }

    method PutU8(b: byte)
      modifies this
      ensures bytes == old(bytes) + [b]
    {
      bytes := bytes + [b];
    }

    /** Big-endian, keeping only the low 32 bits. */
    method PutU32(n: nat)
      modifies this
      ensures bytes == old(bytes) + U32(n)
    {
      var rest, low, k := n, [], 0;
      while k < 4
        invariant k <= 4 && |low| == k
        invariant BigEndian(n, 4) == BigEndian(rest, 4 - k) + low
        invariant bytes == old(bytes)
      {
        var b: byte := rest % 0x100;
        assert BigEndian(rest, 4 - k) + low == BigEndian(rest / 0x100, 3 - k) + ([b] + low);
        rest, low, k := rest / 0x100, [b] + low, k + 1;
      }
      assert BigEndian(rest, 0) + low == low;
      bytes := bytes + low;
    }

    method Put(data: seq<byte>)
      modifies this
      ensures bytes == old(bytes) + data
    {
      bytes := bytes + data;
    }

    method Advance(n: nat)
      requires n <= |bytes|
      modifies this
      ensures bytes == old(bytes)[n..]
    {
      bytes := bytes[n..];
    }

    method GetU8() returns (b: byte)
      requires |bytes| >= 1
      modifies this
      ensures b == old(bytes)[0] && bytes == old(bytes)[1..]
    {
      b := bytes[0];
      bytes := bytes[1..];
    }

    method GetU32() returns (n: nat)
      requires |bytes| >= 4
      modifies this
      ensures n == ReadU32(old(bytes)) && bytes == old(bytes)[4..]
    {
      n := 0;
      for k := 0 to 4
        invariant n == FromBigEndian(bytes, k)
        invariant bytes == old(bytes)
      {
        n := 0x100 * n + (bytes[k] as int);
      }
      bytes := bytes[4..];
    }

    method CopyToBytes(n: nat) returns (data: seq<byte>)
      requires n <= |bytes|
      modifies this
      ensures data == old(bytes)[..n] && bytes == old(bytes)[n..]
    {
      data := bytes[..n];
      bytes := bytes[n..];
    }

    method PutInfo(b: BlockInfo)
      modifies this
      ensures bytes == old(bytes) + Infos(b)
    {
      PutU32(b.index);
      PutU32(b.begin);
      PutU32(b.len);
    }

    method GetInfo() returns (b: BlockInfo)
      requires |bytes| >= 12
      modifies this
      ensures b == ReadInfo(old(bytes)) && bytes == old(bytes)[12..]
    {
      var index := GetU32();
      var begin := GetU32();
      var len := GetU32();
      b := BlockInfo(index, begin, len);
    }
  }

  lemma {:induction false} Regroup(a: seq<byte>, b: seq<byte>, c: seq<byte>, d: seq<byte>)
    ensures a + b + c + d == a + (b + c + d)
  {
  }

  method PutPiece(b: Block, buf: Buffer)
    modifies buf
    ensures buf.bytes == old(buf.bytes) + Body(Piece(b))
  {
    Regroup(buf.bytes, U32(b.index), U32(b.begin), b.data);
    buf.PutU32(b.index);
    buf.PutU32(b.begin);
    buf.Put(b.data);
  }

  method PutExtended(id: byte, payload: seq<byte>, buf: Buffer)
    modifies buf
    ensures buf.bytes == old(buf.bytes) + Body(Extended(id, payload))
  {
    buf.PutU8(id);
    buf.Put(payload);
  }

  method PutBody(m: Core, buf: Buffer)
    modifies buf
    ensures buf.bytes == old(buf.bytes) + Body(m)
  {
    match m {
      case Have(p) => buf.PutU32(p);
      case Bitfield(bits) => buf.Put(ToBytes(bits));
      case Request(info) => buf.PutInfo(info);
      case Piece(b) =>
        PutPiece(b, buf);
      case Cancel(info) => buf.PutInfo(info);
      case Extended(id, payload) =>
        PutExtended(id, payload, buf);
      case _ =>
    }
  }

  method EncodeMessage(m: Core, buf: Buffer) returns (ok: bool)
    modifies buf
    ensures buf.bytes == old(buf.bytes) + Encode(m).0
    ensures ok == Encode(m).1
  {
    buf.PutU32(Len(m));
    if m.KeepAlive? {
      return true;
    }
    buf.PutU8(Id(m));
    if Refused(m) {
      Regroup(old(buf.bytes), U32(Len(m)), [Id(m)], []);
      return false;
    }
    Regroup(old(buf.bytes), U32(Len(m)), [Id(m)], Body(m));
    PutBody(m, buf);
    ok := true;
  }

  /** The payload of a complete frame; the cursor is already past the id. */
  method DecodeRest(id: byte, size: nat, buf: Buffer) returns (o: Outcome)
    requires size >= 1 && |buf.bytes| >= size - 1
    modifies buf
    ensures (o, buf.bytes) == DecodePayload(id, size, old(buf.bytes))
  {
    if id == 0 {
      return Got(Choke);
    } else if id == 1 {
      return Got(Unchoke);
    } else if id == 2 {
      return Got(Interested);
    } else if id == 3 {
      return Got(NotInterested);
    } else if id == 4 {
      if |buf.bytes| < 4 {
        return Nothing;
      }
      var piece := buf.GetU32();
      return Got(Have(piece));
    } else if id == 5 {
      if |buf.bytes| < 1 {
        return Nothing;
      }
      var bitfield := buf.CopyToBytes(size - 1);
      return Got(Bitfield(FromBytes(bitfield)));
    } else if id == 6 {
      if |buf.bytes| < 12 {
        return Nothing;
      }
      var info := buf.GetInfo();
      return Got(Request(info));
    } else if id == 7 {
      o := DecodePiece(size, buf);
    } else if id == 8 {
      if |buf.bytes| < 12 {
        return Nothing;
      }
      var info := buf.GetInfo();
      return Got(Cancel(info));
    } else if id == 20 {
      o := DecodeExtended(size, buf);
    } else {
      if |buf.bytes| >= size {
        buf.Advance(size);
      } else {
        buf.bytes := [];
      }
      return Nothing;
    }
  }

  method DecodePiece(size: nat, buf: Buffer) returns (o: Outcome)
    requires size >= 1 && |buf.bytes| >= size - 1
    modifies buf
    ensures (o, buf.bytes) == DecodePayload(7, size, old(buf.bytes))
  {
    if |buf.bytes| < 8 {
      return Nothing;
    }
    ghost var was := buf.bytes;
    var index := buf.GetU32();
    var begin := buf.GetU32();
    assert buf.bytes == was[8..];
    if size < 9 {
      return Panics;
    }
    var data := buf.CopyToBytes(size - 9);
    assert data == was[8..size - 1] && buf.bytes == was[size - 1..];
    o := Got(Piece(Block(index, begin, data)));
  }

  method DecodeExtended(size: nat, buf: Buffer) returns (o: Outcome)
    requires size >= 1 && |buf.bytes| >= size - 1
    modifies buf
    ensures (o, buf.bytes) == DecodePayload(20, size, old(buf.bytes))
  {
    if |buf.bytes| < 1 {
      return Nothing;
    }
    ghost var was := buf.bytes;
    var extId := buf.GetU8();
    if size < 2 {
      return Panics;
    }
    var payload := buf.CopyToBytes(size - 2);
    assert payload == was[1..size - 1] && buf.bytes == was[size - 1..];
    o := Got(Extended(extId, payload));
  }

  method DecodeMessage(buf: Buffer) returns (o: Outcome)
    modifies buf
    ensures (o, buf.bytes) == Decode(old(buf.bytes))
  {
    if |buf.bytes| < 4 {
      return Nothing;
    }
    ghost var was := buf.bytes;
    var size: int := 0;
    for k := 0 to 4
      invariant size == FromBigEndian(was, k)
      invariant buf.bytes == was
    {
      size := 0x100 * size + (buf.bytes[k] as int);
    }
    if size == 0 {
      buf.Advance(4);
      return Got(KeepAlive);
    }
    if |buf.bytes| < 4 + size {
      return Nothing;
    }
    buf.Advance(4);
    var id := buf.GetU8();
    assert buf.bytes == was[5..];
    o := DecodeRest(id, size, buf);
  }
}
