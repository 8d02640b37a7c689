/** Messages that carry pieces of the info dictionary: a small bencoded dictionary
    directly followed by raw bytes. Only what such a header needs of bencoding is
    modelled: a dictionary of byte-string keys and unsigned integers. */
module MetadataModel {
  import opened Basics

  type u64 = n: int | 0 <= n < 0x1_0000_0000_0000_0000

  datatype MsgType = Request | Response | Reject

  datatype Metadata = Metadata(msgType: MsgType, piece: u64, totalSize: Option<u64>, payload: seq<byte>)

  /** `Panics` stands for the panic on an input that holds no object at all. */
  datatype ParseError = Malformed | OutOfRange | UnknownType | Panics

  const E: byte := 101
  const D: byte := 100
  const I: byte := 105
  const COLON: byte := 58
  const ZERO: byte := 48

  // "msg_type", "piece" and "total_size"
  const MSG_TYPE: seq<byte> := [109, 115, 103, 95, 116, 121, 112, 101]
  const PIECE: seq<byte> := [112, 105, 101, 99, 101]
  const TOTAL_SIZE: seq<byte> := [116, 111, 116, 97, 108, 95, 115, 105, 122, 101]

  function Code(t: MsgType): nat {
    match t case Request => 0 case Response => 1 case Reject => 2
  }

  function TypeOf(code: nat): Result<MsgType, ParseError> {
    if code == 0 then Ok(Request) else if code == 1 then Ok(Response) else if code == 2 then Ok(Reject)
    else Err(UnknownType)
  }

  // ---- printing -------------------------------------------------------------------------

  function Digit(n: nat): byte
    requires n < 10
  {
    ZERO + n
  }

  function Digits(n: nat): (r: seq<byte>)
    ensures |r| >= 1
  {
    (if n < 10 then [] else Digits(n / 10)) + [Digit(n % 10)]
  }

  function PrintPair(key: seq<byte>, n: nat): seq<byte> {
    Digits(|key|) + [COLON] + key + [I] + Digits(n) + [E]
  }

  function Pairs(m: Metadata): seq<(seq<byte>, nat)> {
    [(MSG_TYPE, Code(m.msgType)), (PIECE, m.piece)] +
    if m.totalSize.Some? then [(TOTAL_SIZE, m.totalSize.value)] else []
  }

  /** The first `k` pairs in a row. */
  function PrintPairs(ps: seq<(seq<byte>, nat)>, k: nat): seq<byte>
    requires k <= |ps|
  {
    if k == 0 then [D] else PrintPairs(ps, k - 1) + PrintPair(ps[k - 1].0, ps[k - 1].1)
  }

  function Print(m: Metadata): seq<byte> {
    PrintPairs(Pairs(m), |Pairs(m)|) + [E] + m.payload
  }

  // ---- parsing --------------------------------------------------------------------------

  predicate IsDigit(b: byte) {
    ZERO <= b < ZERO + 10
  }

  function SpanEnd(s: seq<byte>, i: nat): (j: nat)
    requires i <= |s|
    ensures i <= j <= |s|
    decreases |s| - i
  {
    if i < |s| && IsDigit(s[i]) then SpanEnd(s, i + 1) else i
  }

  function Value(s: seq<byte>, i: nat, j: nat): nat
    requires i <= j <= |s|
    decreases j - i
  {
    if j == i then 0 else 10 * Value(s, i, j - 1) + Max(s[j - 1] - ZERO, 0)
  }

  datatype Next = End | Pair(key: seq<byte>, value: nat, next: nat) | Bad

  /** A number is a single zero or digits without a leading zero. */
  predicate Number(s: seq<byte>, i: nat, j: nat)
    requires i <= j <= |s|
  {
    i < j && (s[i] == ZERO ==> j == i + 1)
  }

  /** The pair at position `i` of a dictionary. */
  function NextPair(s: seq<byte>, i: nat): (r: Next)
    requires i <= |s|
    ensures r.Pair? ==> i < r.next <= |s|
  {
    if i < |s| && s[i] == E then End
    else
      var j := SpanEnd(s, i);
      if !Number(s, i, j) || j == |s| || s[j] != COLON then Bad
      else
        var k := j + 1 + Value(s, i, j);
        if k >= |s| || s[k] != I then Bad
        else
          var l := SpanEnd(s, k + 1);
          if !Number(s, k + 1, l) || l == |s| || s[l] != E then Bad
          else Pair(s[j + 1..k], Value(s, k + 1, l), l + 1)
  }

  datatype Fields = Fields(msgType: nat, piece: nat, totalSize: Option<nat>)

  /** Store one pair: the known keys must fit their width, others are ignored. */
  function Store(f: Fields, key: seq<byte>, value: nat): Result<Fields, ParseError> {
    if key == MSG_TYPE then (if value < 0x100 then Ok(f.(msgType := value)) else Err(OutOfRange))
    else if key == PIECE then (if value < 0x1_0000_0000_0000_0000 then Ok(f.(piece := value)) else Err(OutOfRange))
    else if key == TOTAL_SIZE then
      (if value < 0x1_0000_0000_0000_0000 then Ok(f.(totalSize := Some(value))) else Err(OutOfRange))
    else Ok(f)
  }

  function ParsePairs(s: seq<byte>, i: nat, f: Fields): Result<Fields, ParseError>
    requires i <= |s|
    decreases |s| - i
  {
    match NextPair(s, i)
    case End => Ok(f)
    case Bad => Err(Malformed)
    case Pair(key, value, next) =>
      match Store(f, key, value)
      case Ok(g) => ParsePairs(s, next, g)
      case Err(e) => Err(e)
  }

  /** The position of the first two neighbouring letters "e" from `i` on. */
  function FirstEE(s: seq<byte>, i: nat): (r: nat)
    requires i <= |s|
    ensures i <= r <= |s| && (r + 1 < |s| ==> s[r] == E && s[r + 1] == E)
    decreases |s| - i
  {
    if i + 1 < |s| then (if s[i] == E && s[i + 1] == E then i else FirstEE(s, i + 1)) else |s|
  }

  /** What follows the first "ee", which is taken for the end of the header. */
  function Payload(s: seq<byte>): seq<byte> {
    var p := FirstEE(s, 0);
    if p + 1 < |s| then s[p + 2..] else []
  }

  function Finish(f: Fields, payload: seq<byte>): Result<Metadata, ParseError>
    requires f.piece < 0x1_0000_0000_0000_0000
    requires f.totalSize.Some? ==> f.totalSize.value < 0x1_0000_0000_0000_0000
  {
    match TypeOf(f.msgType)
    case Ok(t) => Ok(Metadata(t, f.piece, if f.totalSize.Some? then Some(f.totalSize.value) else None, payload))
    case Err(e) => Err(e)
  }

  predicate InRange(f: Fields) {
    && f.piece < 0x1_0000_0000_0000_0000
    && (f.totalSize.Some? ==> f.totalSize.value < 0x1_0000_0000_0000_0000)
  }

  lemma {:induction false} ParsedInRange(s: seq<byte>, i: nat, f: Fields)
    requires i <= |s| && InRange(f)
    ensures ParsePairs(s, i, f).Ok? ==> InRange(ParsePairs(s, i, f).value)
    decreases |s| - i
  {
    var n := NextPair(s, i);
    if n.Pair? && Store(f, n.key, n.value).Ok? {
      ParsedInRange(s, n.next, Store(f, n.key, n.value).value);
    }
  }

  const NO_FIELDS: Fields := Fields(0, 0, None)

  function Parse(s: seq<byte>): Result<Metadata, ParseError> {
    if s == [] then Err(Panics)
    else if s[0] != D then Err(Malformed)
    else
      ParsedInRange(s, 1, NO_FIELDS);
      match ParsePairs(s, 1, NO_FIELDS)
      case Ok(f) => Finish(f, Payload(s))
      case Err(e) => Err(e)
  }
}
