/** The framing of peer messages: a four-byte length, an id, and a payload. What
    encoding appends to a byte buffer, and what one decoding takes from its front. */
module CodecModel {
  import opened Basics
  import opened Metainfo
  import opened DiskModel

  const U32_MAX: nat := 0xFFFF_FFFF

  datatype Core =
    | Choke
    | Unchoke
    | Interested
    | NotInterested
    | Have(piece: nat)
    | Bitfield(bits: seq<bool>)
    | Request(info: BlockInfo)
    | Piece(block: Block)
    | Cancel(info: BlockInfo)
    | Extended(extId: byte, payload: seq<byte>)
    | KeepAlive

  function Id(m: Core): byte
    requires !m.KeepAlive?
  {
    match m
    case Choke => 0
    case Unchoke => 1
    case Interested => 2
    case NotInterested => 3
    case Have(_) => 4
    case Bitfield(_) => 5
    case Request(_) => 6
    case Piece(_) => 7
    case Cancel(_) => 8
    case Extended(_, _) => 20
  }

  // ---- numbers and bits --------------------------------------------------------------

  /** The lowest `k` bytes of a number, most significant first. */
  function BigEndian(n: nat, k: nat): (r: seq<byte>)
    ensures |r| == k
  {
    if k == 0 then [] else BigEndian(n / 0x100, k - 1) + [n % 0x100]
  }

  function FromBigEndian(s: seq<byte>, k: nat): nat
    requires k <= |s|
  {
    if k == 0 then 0 else 0x100 * FromBigEndian(s, k - 1) + s[k - 1]
  }

  function PowerOf256(k: nat): nat {
    if k == 0 then 1 else 0x100 * PowerOf256(k - 1)
  }

  lemma {:induction false} SamePrefix(a: seq<byte>, b: seq<byte>, k: nat)
    requires k <= |a| && k <= |b| && a[..k] == b[..k]
    ensures FromBigEndian(a, k) == FromBigEndian(b, k)
  {
    if k > 0 {
      assert a[k - 1] == a[..k][k - 1] && b[k - 1] == b[..k][k - 1];
      assert a[..k - 1] == a[..k][..k - 1] && b[..k - 1] == b[..k][..k - 1];
      SamePrefix(a, b, k - 1);
    }
  }

  lemma {:induction false} BigEndianReadsBack(n: nat, k: nat)
    requires n < PowerOf256(k)
    ensures FromBigEndian(BigEndian(n, k), k) == n
  {
    if k > 0 {
      var front := BigEndian(n / 0x100, k - 1);
      BigEndianReadsBack(n / 0x100, k - 1);
      assert BigEndian(n, k)[..k - 1] == front[..k - 1];
      SamePrefix(BigEndian(n, k), front, k - 1);
    }
  }

  /** `put_u32`: larger numbers are truncated. */
  function U32(n: nat): (r: seq<byte>)
    ensures |r| == 4
  {
    BigEndian(n, 4)
  }

  function ReadU32(s: seq<byte>): nat
    requires |s| >= 4
  {
    FromBigEndian(s, 4)
  }

  /** A number that fits is read back. */
  lemma {:induction false} ReadsBack(n: nat, s: seq<byte>)
    requires n <= U32_MAX && |s| >= 4 && s[..4] == U32(n)
    ensures ReadU32(s) == n
  {
    assert PowerOf256(2) == 0x1_0000 && PowerOf256(4) == 0x1_0000_0000;
    BigEndianReadsBack(n, 4);
    assert U32(n)[..4] == U32(n);
    SamePrefix(s, U32(n), 4);
  }

  function Num(b: bool): nat {
    if b then 1 else 0
  }

  /** `k` bits from position `i` on as a number, the first one most significant. */
  function Number(bits: seq<bool>, i: nat, k: nat): nat {
    if k == 0 then 0 else 2 * Number(bits, i, k - 1) + Num(Bit(bits, i + k - 1))
  }

  function Power(k: nat): nat {
    if k == 0 then 1 else 2 * Power(k - 1)
  }

  lemma {:induction false} NumberIsSmall(bits: seq<bool>, i: nat, k: nat)
    ensures Number(bits, i, k) < Power(k)
  {
    if k > 0 {
      NumberIsSmall(bits, i, k - 1);
    }
  }

  function ByteAt(bits: seq<bool>, i: nat): byte {
    NumberIsSmall(bits, i, 8);
    assert Power(4) == 16 && Power(8) == 256;
    Number(bits, i, 8)
  }

  function ShiftRight(n: nat, k: nat): nat {
    if k == 0 then n else ShiftRight(n, k - 1) / 2
  }

  /** Bit `i` of a byte, counted from the most significant one. */
  function BitOf(b: byte, i: nat): bool
    requires i < 8
  {
    ShiftRight(b, 7 - i) % 2 == 1
  }

  /** The storage of a bitfield: as many whole bytes as it takes. */
  function ToBytes(bits: seq<bool>): (r: seq<byte>)
    ensures |r| == DivCeil(|bits|, 8)
  {
    seq(DivCeil(|bits|, 8), k requires 0 <= k < DivCeil(|bits|, 8) => ByteAt(bits, 8 * k))
  }

  function FromBytes(bytes: seq<byte>): (r: seq<bool>)
    ensures |r| == 8 * |bytes|
  {
    seq(8 * |bytes|, i requires 0 <= i < 8 * |bytes| => BitOf(bytes[i / 8], i % 8))
  }

  lemma {:induction false} ShiftedNumber(bits: seq<bool>, i: nat, k: nat, m: nat)
    requires m <= k
    ensures ShiftRight(Number(bits, i, k), m) == Number(bits, i, k - m)
  {
    if m > 0 {
      ShiftedNumber(bits, i, k, m - 1);
    }
  }

  lemma {:induction false} BitOfByteAt(bits: seq<bool>, i: nat, j: nat)
    requires j < 8
    ensures BitOf(ByteAt(bits, i), j) == Bit(bits, i + j)
  {
    ShiftedNumber(bits, i, 8, 7 - j);
  }

  /** A bitfield filled up with unset bits to whole bytes. */
  function Padded(bits: seq<bool>): seq<bool> {
    seq(8 * DivCeil(|bits|, 8), i requires 0 <= i < 8 * DivCeil(|bits|, 8) => Bit(bits, i))
  }

  lemma {:induction false} BytesRoundTrip(bits: seq<bool>)
    ensures FromBytes(ToBytes(bits)) == Padded(bits)
  {
    var bytes := ToBytes(bits);
    forall i | 0 <= i < 8 * |bytes| ensures FromBytes(bytes)[i] == Padded(bits)[i] {
      BitOfByteAt(bits, 8 * (i / 8), i % 8);
    }
  }

  // ---- encoding -------------------------------------------------------------------------

  /** The length prefix: bytes after it. */
  function Len(m: Core): nat {
    match m
    case KeepAlive => 0
    case Choke => 1
    case Unchoke => 1
    case Interested => 1
    case NotInterested => 1
    case Have(_) => 5
    case Bitfield(bits) => 1 + DivCeil(|bits|, 8)
    case Request(_) => 13
    case Piece(b) => 9 + |b.data|
    case Cancel(_) => 13
    case Extended(_, payload) => 2 + |payload|
  }

  function Infos(b: BlockInfo): seq<byte> {
    U32(b.index) + U32(b.begin) + U32(b.len)
  }

  /** What follows the id. */
  function Body(m: Core): seq<byte> {
    match m
    case Have(p) => U32(p)
    case Bitfield(bits) => ToBytes(bits)
    case Request(info) => Infos(info)
    case Piece(b) => U32(b.index) + U32(b.begin) + b.data
    case Cancel(info) => Infos(info)
    case Extended(id, payload) => [id] + payload
    case _ => []
  }

  /** Piece indices are checked to fit 32 bits, all other numbers are truncated. */
  predicate Refused(m: Core) {
    (m.Have? && m.piece > U32_MAX) || (m.Piece? && m.block.index > U32_MAX)
  }

  /** What is appended, and whether encoding succeeds; a refused message leaves its
      length and id behind. */
  function Encode(m: Core): (seq<byte>, bool) {
    if m.KeepAlive? then (U32(0), true)
    else if Refused(m) then (U32(Len(m)) + [Id(m)], false)
    else (U32(Len(m)) + [Id(m)] + Body(m), true)
  }

  // ---- decoding -------------------------------------------------------------------------

  datatype Outcome = Got(msg: Core) | Nothing | Panics

  /** The payload of a message of `size` bytes with the given id; `buf` is what
      follows the id. Too little data after a complete frame yields nothing, a
      length too small for its kind makes the copy of the payload panic. */
  function DecodePayload(id: byte, size: nat, buf: seq<byte>): (Outcome, seq<byte>)
    requires size >= 1 && |buf| >= size - 1
  {
    if id == 0 then (Got(Choke), buf)
    else if id == 1 then (Got(Unchoke), buf)
    else if id == 2 then (Got(Interested), buf)
    else if id == 3 then (Got(NotInterested), buf)
    else if id == 4 then
      if |buf| < 4 then (Nothing, buf) else (Got(Have(ReadU32(buf))), buf[4..])
    else if id == 5 then
      if |buf| < 1 then (Nothing, buf) else (Got(Bitfield(FromBytes(buf[..size - 1]))), buf[size - 1..])
    else if id == 6 then
      if |buf| < 12 then (Nothing, buf) else (Got(Request(ReadInfo(buf))), buf[12..])
    else if id == 7 then
      if |buf| < 8 then (Nothing, buf)
      else if size < 9 then (Panics, buf[8..])
      else (Got(Piece(Block(ReadU32(buf), ReadU32(buf[4..]), buf[8..size - 1]))), buf[size - 1..])
    else if id == 8 then
      if |buf| < 12 then (Nothing, buf) else (Got(Cancel(ReadInfo(buf))), buf[12..])
    else if id == 20 then
      if |buf| < 1 then (Nothing, buf)
      else if size < 2 then (Panics, buf[1..])
      else (Got(Extended(buf[0], buf[1..size - 1])), buf[size - 1..])
    else
      (Nothing, if |buf| >= size then buf[size..] else [])
  }

  function ReadInfo(buf: seq<byte>): BlockInfo
    requires |buf| >= 12
  {
    BlockInfo(ReadU32(buf), ReadU32(buf[4..]), ReadU32(buf[8..]))
  }

  /** One call of the decoder: the outcome and what is left in the buffer. */
  function Decode(buf: seq<byte>): (r: (Outcome, seq<byte>))
    ensures r.0.Got? ==> |r.1| < |buf|
  {
    if |buf| < 4 then
      (Nothing, buf)
    else
      var size := ReadU32(buf);
      if size == 0 then (Got(KeepAlive), buf[4..])
      else if |buf| < 4 + size then (Nothing, buf)
      else DecodePayload(buf[4], size, buf[5..])
  }
}
