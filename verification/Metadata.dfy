/** Printing and parsing metadata messages, and the round trip through both. */
module Metadata {
  import opened Basics
  import opened MetadataModel

  method ToBencode(m: MetadataModel.Metadata) returns (r: seq<byte>)
    ensures r == Print(m)
  {
    r := [D] + PrintPair(MSG_TYPE, Code(m.msgType));
    r := r + PrintPair(PIECE, m.piece);
    assert r == PrintPairs(Pairs(m), 2) by {
      assert PrintPairs(Pairs(m), 1) == [D] + PrintPair(MSG_TYPE, Code(m.msgType));
    }
    if m.totalSize.Some? {
      r := r + PrintPair(TOTAL_SIZE, m.totalSize.value);
    }
    r := r + [E] + m.payload;
  }

  method FromBencode(bytes: seq<byte>) returns (r: Result<MetadataModel.Metadata, ParseError>)
    ensures r == Parse(bytes)
  {
    var payload, i := [], 0;
    while i + 1 < |bytes|
      invariant i <= |bytes|
      invariant FirstEE(bytes, i) == FirstEE(bytes, 0)
      invariant payload == []
    {
      if bytes[i] == E && bytes[i + 1] == E {
        payload := bytes[i + 2..];
        break;
      }
      i := i + 1;
    }
    assert payload == Payload(bytes);
    if bytes == [] {
      return Err(Panics);
    }
    if bytes[0] != D {
      return Err(Malformed);
    }
    var fields, pos: nat := NO_FIELDS, 1;
    ParsedInRange(bytes, 1, NO_FIELDS);
    while true
      invariant pos <= |bytes|
      invariant ParsePairs(bytes, pos, fields) == ParsePairs(bytes, 1, NO_FIELDS)
      decreases |bytes| - pos
    {
      var pair := NextPair(bytes, pos);
      if pair.End? {
        break;
      }
      if pair.Bad? {
        return Err(Malformed);
      }
      var stored := Store(fields, pair.key, pair.value);
      if stored.Err? {
        return Err(stored.error);
      }
      fields, pos := stored.value, pair.next;
    }
    r := Finish(fields, payload);
  }

  // ---- numbers read back ------------------------------------------------------------------

  /** The digits of a number, without a leading zero. */
  ghost predicate Denotes(ds: seq<byte>, n: nat) {
    && ds != [] && (forall k :: 0 <= k < |ds| ==> IsDigit(ds[k]))
    && (ds[0] == ZERO ==> |ds| == 1)
    && Value(ds, 0, |ds|) == n
  }

  lemma {:induction false} ValueOfPrefix(a: seq<byte>, b: seq<byte>, k: nat)
    requires k <= |a|
    ensures Value(a + b, 0, k) == Value(a, 0, k)
  {
    if k > 0 {
      ValueOfPrefix(a, b, k - 1);
    }
  }

  lemma {:induction false} DigitsDenote(n: nat)
    ensures Denotes(Digits(n), n)
    ensures Digits(n)[0] == ZERO ==> n == 0
  {
    var front, last := if n < 10 then [] else Digits(n / 10), Digit(n % 10);
    if n >= 10 {
      DigitsDenote(n / 10);
    }
    ValueOfPrefix(front, [last], |front|);
    assert Digits(n) == front + [last];
    assert Value(front, 0, |front|) == n / 10;
  }

  /** `s` holds `part` at position `i`. */
  predicate At(s: seq<byte>, i: nat, part: seq<byte>) {
    i + |part| <= |s| && s[i..i + |part|] == part
  }

  lemma {:induction false} AtParts(s: seq<byte>, i: nat, a: seq<byte>, b: seq<byte>)
    ensures At(s, i, a + b) <==> At(s, i, a) && At(s, i + |a|, b)
  {
    if At(s, i, a + b) {
      assert s[i..i + |a|] == (a + b)[..|a|];
      assert s[i + |a|..i + |a| + |b|] == (a + b)[|a|..];
    }
    if At(s, i, a) && At(s, i + |a|, b) {
      assert s[i..i + |a + b|] == s[i..i + |a|] + s[i + |a|..i + |a| + |b|];
    }
  }

  lemma {:induction false} ValueReadsBack(s: seq<byte>, i: nat, ds: seq<byte>, k: nat)
    requires At(s, i, ds) && k <= |ds|
    ensures Value(s, i, i + k) == Value(ds, 0, k)
  {
    if k > 0 {
      ValueReadsBack(s, i, ds, k - 1);
      assert s[i + k - 1] == s[i..i + |ds|][k - 1];
    }
  }

  lemma {:induction false} SpanReadsBack(s: seq<byte>, i: nat, j: nat)
    requires i <= j < |s| && !IsDigit(s[j]) && forall k :: i <= k < j ==> IsDigit(s[k])
    ensures SpanEnd(s, i) == j
    decreases j - i
  {
    if i < j {
      SpanReadsBack(s, i + 1, j);
    }
  }

  /** The number at `i` is `n` and ends before `j`. */
  ghost predicate Reads(s: seq<byte>, i: nat, j: nat, n: nat) {
    i < j <= |s| && SpanEnd(s, i) == j && Number(s, i, j) && Value(s, i, j) == n && IsDigit(s[i])
  }

  lemma {:induction false} NumberReadsBack(s: seq<byte>, i: nat, ds: seq<byte>, n: nat)
    requires At(s, i, ds) && Denotes(ds, n) && i + |ds| < |s| && !IsDigit(s[i + |ds|])
    ensures Reads(s, i, i + |ds|, n)
  {
    var j := i + |ds|;
    forall k | i <= k < j ensures IsDigit(s[k]) && s[k] == ds[k - i] {
      assert s[k] == s[i..j][k - i];
    }
    SpanReadsBack(s, i, j);
    ValueReadsBack(s, i, ds, |ds|);
  }

  // ---- pairs read back ----------------------------------------------------------------------

  /** A printed pair, given the digits of both numbers. */
  function Printed(a: seq<byte>, key: seq<byte>, b: seq<byte>): seq<byte> {
    a + [COLON] + key + [I] + b + [E]
  }

  lemma {:induction false} PairParts(s: seq<byte>, i: nat, a: seq<byte>, key: seq<byte>, b: seq<byte>)
    requires At(s, i, Printed(a, key, b))
    ensures var j := i + |a|; var k := j + 1 + |key|; var l := k + 1 + |b|;
      && l < |s| && l + 1 == i + |Printed(a, key, b)|
      && At(s, i, a) && s[j] == COLON
      && s[j + 1..k] == key && s[k] == I
      && At(s, k + 1, b) && s[l] == E
  {
    AtParts(s, i, a + [COLON] + key + [I] + b, [E]);
    AtParts(s, i, a + [COLON] + key + [I], b);
    AtParts(s, i, a + [COLON] + key, [I]);
    AtParts(s, i, a + [COLON], key);
    AtParts(s, i, a, [COLON]);
    var j := i + |a|;
    var k := j + 1 + |key|;
    var l := k + 1 + |b|;
    assert s[j..j + 1][0] == COLON && s[k..k + 1][0] == I && s[l..l + 1][0] == E;
  }

  /** What the parser finds, given where the key and the value lie. */
  lemma {:induction false} NextPairAt(s: seq<byte>, i: nat, j: nat, k: nat, l: nat, n: nat)
    requires k > j && Reads(s, i, j, k - j - 1) && k + 1 <= l && Reads(s, k + 1, l, n)
    requires l < |s| && s[j] == COLON && s[k] == I && s[l] == E
    ensures NextPair(s, i) == Pair(s[j + 1..k], n, l + 1)
  {
  }

  lemma {:induction false} PairReads(s: seq<byte>, i: nat, a: seq<byte>, key: seq<byte>, b: seq<byte>, n: nat)
    requires At(s, i, Printed(a, key, b)) && Denotes(a, |key|) && Denotes(b, n)
    ensures NextPair(s, i) == Pair(key, n, i + |Printed(a, key, b)|)
  {
    PairParts(s, i, a, key, b);
    var j := i + |a|;
    var k := j + 1 + |key|;
    NumberReadsBack(s, i, a, |key|);
    NumberReadsBack(s, k + 1, b, n);
    var l := k + 1 + |b|;
    NextPairAt(s, i, j, k, l, n);
    assert l + 1 == i + |Printed(a, key, b)| && s[j + 1..k] == key;
  }

  lemma {:induction false} PairReadsBack(s: seq<byte>, i: nat, key: seq<byte>, n: nat)
    requires At(s, i, PrintPair(key, n))
    ensures NextPair(s, i) == Pair(key, n, i + |PrintPair(key, n)|)
  {
    DigitsDenote(|key|);
    DigitsDenote(n);
    assert PrintPair(key, n) == Printed(Digits(|key|), key, Digits(n));
    PairReads(s, i, Digits(|key|), key, Digits(n), n);
  }

  // ---- the end of the header -----------------------------------------------------------------

  /** No two neighbouring "e" start in `i..j`. */
  ghost predicate NoEE(s: seq<byte>, i: nat, j: nat) {
    forall k :: i <= k < j && k + 1 < |s| ==> !(s[k] == E && s[k + 1] == E)
  }

  lemma {:induction false} SkipNoEE(s: seq<byte>, i: nat, j: nat)
    requires i <= j && j + 1 < |s| && NoEE(s, i, j) && s[j] == E && s[j + 1] == E
    ensures FirstEE(s, i) == j
    decreases j - i
  {
    if i < j {
      SkipNoEE(s, i + 1, j);
    }
  }

  lemma {:induction false} PrintedHasNoEE(s: seq<byte>, i: nat, a: seq<byte>, key: seq<byte>, b: seq<byte>)
    requires At(s, i, Printed(a, key, b)) && NoEE(key, 0, |key|)
    requires forall k :: 0 <= k < |a| ==> IsDigit(a[k])
    requires forall k :: 0 <= k < |b| ==> IsDigit(b[k])
    ensures NoEE(s, i, i + |Printed(a, key, b)| - 1) && s[i + |Printed(a, key, b)| - 1] == E
    ensures a != [] ==> IsDigit(s[i])
  {
    PairParts(s, i, a, key, b);
    var j := i + |a|;
    var k := j + 1 + |key|;
    var l := k + 1 + |b|;
    forall x | i <= x < l ensures !(s[x] == E && s[x + 1] == E) {
      if x < j {
        assert s[x] == s[i..j][x - i];
      } else if j < x < k - 1 {
        assert s[x] == s[j + 1..k][x - j - 1] && s[x + 1] == s[j + 1..k][x - j];
      } else if k < x {
        assert s[x] == s[k + 1..l][x - k - 1];
      }
    }
    if a != [] {
      assert s[i] == s[i..j][0];
    }
  }

  lemma {:induction false} PairHasNoEE(s: seq<byte>, i: nat, key: seq<byte>, n: nat)
    requires At(s, i, PrintPair(key, n)) && NoEE(key, 0, |key|)
    ensures var e := i + |PrintPair(key, n)| - 1; i < e < |s| && NoEE(s, i, e) && s[e] == E && IsDigit(s[i])
  {
    DigitsDenote(|key|);
    DigitsDenote(n);
    assert PrintPair(key, n) == Printed(Digits(|key|), key, Digits(n));
    PrintedHasNoEE(s, i, Digits(|key|), key, Digits(n));
  }

  /** `s` holds the pairs one after the other up to a final "e" at `end`. */
  ghost predicate HoldsPairs(s: seq<byte>, i: nat, ps: seq<(seq<byte>, nat)>, k: nat, end: nat)
    requires k <= |ps|
    decreases |ps| - k
  {
    if k == |ps| then i == end < |s| && s[i] == E
    else At(s, i, PrintPair(ps[k].0, ps[k].1)) && HoldsPairs(s, i + |PrintPair(ps[k].0, ps[k].1)|, ps, k + 1, end)
  }

  /** If no key contains "ee", the first "ee" is the end of the last value and of
      the dictionary. */
  lemma {:induction false} FirstEEIsEnd(s: seq<byte>, i: nat, ps: seq<(seq<byte>, nat)>, k: nat, end: nat)
    requires k < |ps| && HoldsPairs(s, i, ps, k, end)
    requires forall x :: 0 <= x < |ps| ==> NoEE(ps[x].0, 0, |ps[x].0|)
    ensures i < end < |s| && NoEE(s, i, end - 1) && s[end - 1] == E && s[end] == E
    decreases |ps| - k
  {
    var p := PrintPair(ps[k].0, ps[k].1);
    PairHasNoEE(s, i, ps[k].0, ps[k].1);
    if k + 1 < |ps| {
      FirstEEIsEnd(s, i + |p|, ps, k + 1, end);
      PairHasNoEE(s, i + |p|, ps[k + 1].0, ps[k + 1].1);
    }
  }

  function StoreAll(ps: seq<(seq<byte>, nat)>, k: nat, f: Fields): Result<Fields, ParseError>
    requires k <= |ps|
    decreases |ps| - k
  {
    if k == |ps| then Ok(f) else
      match Store(f, ps[k].0, ps[k].1)
      case Ok(g) => StoreAll(ps, k + 1, g)
      case Err(e) => Err(e)
  }

  lemma {:induction false} PairsReadBack(s: seq<byte>, i: nat, ps: seq<(seq<byte>, nat)>, k: nat, end: nat, f: Fields)
    requires k <= |ps| && i <= |s| && HoldsPairs(s, i, ps, k, end)
    ensures ParsePairs(s, i, f) == StoreAll(ps, k, f)
    decreases |ps| - k
  {
    if k < |ps| {
      PairReadsBack(s, i, ps[k].0, ps[k].1);
      var stored := Store(f, ps[k].0, ps[k].1);
      if stored.Ok? {
        PairsReadBack(s, i + |PrintPair(ps[k].0, ps[k].1)|, ps, k + 1, end, stored.value);
      }
    }
  }

  lemma {:induction false} PairPrefix(ps: seq<(seq<byte>, nat)>, j: nat, k: nat)
    requires j <= k <= |ps|
    ensures |PrintPairs(ps, j)| <= |PrintPairs(ps, k)|
    ensures PrintPairs(ps, k)[..|PrintPairs(ps, j)|] == PrintPairs(ps, j)
  {
    if j < k {
      PairPrefix(ps, j, k - 1);
      var n := |PrintPairs(ps, j)|;
      assert PrintPairs(ps, k)[..n] == PrintPairs(ps, k - 1)[..n];
    } else {
      assert PrintPairs(ps, k)[..|PrintPairs(ps, k)|] == PrintPairs(ps, k);
    }
  }

  lemma {:induction false} AtEnd(s: seq<byte>, head: seq<byte>, a: seq<byte>, b: seq<byte>)
    requires |head| <= |s| && s[..|head|] == head
    requires |a + b| <= |head| && head[..|a + b|] == a + b
    ensures At(s, |a|, b)
  {
    assert forall x :: 0 <= x < |a + b| ==> s[x] == s[..|head|][x] == head[..|a + b|][x];
    assert forall x :: 0 <= x < |b| ==> b[x] == (a + b)[|a| + x];
  }

  lemma {:induction false} PairIsAt(s: seq<byte>, ps: seq<(seq<byte>, nat)>, k: nat, end: nat)
    requires k < |ps| && end <= |s| && s[..end] == PrintPairs(ps, |ps|)
    ensures |PrintPairs(ps, k + 1)| <= end
    ensures PrintPairs(ps, k + 1) == PrintPairs(ps, k) + PrintPair(ps[k].0, ps[k].1)
    ensures At(s, |PrintPairs(ps, k)|, PrintPair(ps[k].0, ps[k].1))
  {
    hide At, PrintPair;
    PairPrefix(ps, k + 1, |ps|);
    AtEnd(s, PrintPairs(ps, |ps|), PrintPairs(ps, k), PrintPair(ps[k].0, ps[k].1));
  }

  /** Printed pairs are held where they were printed. */
  lemma {:induction false} PrintedPairs(s: seq<byte>, ps: seq<(seq<byte>, nat)>, k: nat, end: nat)
    requires k <= |ps| && end < |s| && s[..end] == PrintPairs(ps, |ps|) && s[end] == E
    ensures |PrintPairs(ps, k)| <= end && HoldsPairs(s, |PrintPairs(ps, k)|, ps, k, end)
    decreases |ps| - k
  {
    hide At, PrintPair;
    if k < |ps| {
      PrintedPairs(s, ps, k + 1, end);
      PairIsAt(s, ps, k, end);
    }
  }

  lemma {:induction false} FieldsReadBack(m: MetadataModel.Metadata)
    ensures StoreAll(Pairs(m), 0, NO_FIELDS) == Ok(Fields(Code(m.msgType), m.piece, if m.totalSize.Some? then Some(m.totalSize.value) else None))
  {
    var ps := Pairs(m);
    var f1 := NO_FIELDS.(msgType := Code(m.msgType));
    var f2 := f1.(piece := m.piece);
    assert |MSG_TYPE| == 8 && |PIECE| == 5 && |TOTAL_SIZE| == 10;
    assert Store(NO_FIELDS, ps[0].0, ps[0].1) == Ok(f1);
    assert Store(f1, ps[1].0, ps[1].1) == Ok(f2);
    if m.totalSize.Some? {
      assert Store(f2, ps[2].0, ps[2].1) == Ok(f2.(totalSize := Some(m.totalSize.value)));
      assert StoreAll(ps, 2, f2) == Ok(f2.(totalSize := Some(m.totalSize.value)));
    } else {
      assert StoreAll(ps, 2, f2) == Ok(f2);
    }
    assert StoreAll(ps, 1, f1) == StoreAll(ps, 2, f2);
  }

  lemma {:induction false} KeysHaveNoEE(m: MetadataModel.Metadata)
    ensures forall x :: 0 <= x < |Pairs(m)| ==> NoEE(Pairs(m)[x].0, 0, |Pairs(m)[x].0|)
  {
    assert NoEE(MSG_TYPE, 0, 8) && NoEE(PIECE, 0, 5) && NoEE(TOTAL_SIZE, 0, 10);
    assert |MSG_TYPE| == 8 && |PIECE| == 5 && |TOTAL_SIZE| == 10;
  }

  /** Pairs printed as a dictionary, and what follows it. */
  function Printing(ps: seq<(seq<byte>, nat)>, payload: seq<byte>): seq<byte> {
    PrintPairs(ps, |ps|) + [E] + payload
  }

  lemma {:induction false} PrintShape(ps: seq<(seq<byte>, nat)>, payload: seq<byte>, s: seq<byte>, end: nat)
    requires s == Printing(ps, payload) && end == |PrintPairs(ps, |ps|)|
    ensures 1 <= end < |s| && s[0] == D && s[end + 1..] == payload
    ensures HoldsPairs(s, 1, ps, 0, end)
  {
    var head := PrintPairs(ps, |ps|);
    assert s == head + ([E] + payload);
    assert s[..end] == head && s[end] == E;
    PrintedPairs(s, ps, 0, end);
    assert PrintPairs(ps, 0) == [D];
    PairPrefix(ps, 0, |ps|);
    assert head[..1][0] == D;
  }

  lemma {:induction false} HeaderEnds(s: seq<byte>, ps: seq<(seq<byte>, nat)>, end: nat)
    requires 1 <= end < |s| && s[0] == D && HoldsPairs(s, 1, ps, 0, end) && ps != []
    requires forall x :: 0 <= x < |ps| ==> NoEE(ps[x].0, 0, |ps[x].0|)
    ensures FirstEE(s, 0) == end - 1
  {
    FirstEEIsEnd(s, 1, ps, 0, end);
    SkipNoEE(s, 0, end - 1);
  }

  lemma {:induction false} CodeReadsBack(t: MsgType)
    ensures TypeOf(Code(t)) == Ok(t)
  {
    match t
    case Request =>
    case Response =>
    case Reject =>
  }

  lemma {:induction false} ParseAs(s: seq<byte>, r: Result<Fields, ParseError>)
    requires s != [] && s[0] == D && ParsePairs(s, 1, NO_FIELDS) == r
    ensures r.Ok? ==> InRange(r.value) && Parse(s) == Finish(r.value, Payload(s))
    ensures r.Err? ==> Parse(s) == Err(r.error)
  {
    ParsedInRange(s, 1, NO_FIELDS);
  }

  /** Any printed dictionary of numbers, with keys without "ee", is read pair by pair,
      and what follows it is the payload, whatever its bytes. */
  lemma {:induction false} PrintedIsRead(ps: seq<(seq<byte>, nat)>, payload: seq<byte>)
    requires ps != [] && forall x :: 0 <= x < |ps| ==> NoEE(ps[x].0, 0, |ps[x].0|)
    ensures var r := StoreAll(ps, 0, NO_FIELDS);
      && (r.Ok? ==> InRange(r.value) && Parse(Printing(ps, payload)) == Finish(r.value, payload))
      && (r.Err? ==> Parse(Printing(ps, payload)) == Err(r.error))
  {
    var s, end := Printing(ps, payload), |PrintPairs(ps, |ps|)|;
    PrintShape(ps, payload, s, end);
    HeaderEnds(s, ps, end);
    PairsReadBack(s, 1, ps, 0, end, NO_FIELDS);
    assert Payload(s) == payload;
    ParseAs(s, StoreAll(ps, 0, NO_FIELDS));
  }

  /** Every message survives printing and parsing, whatever bytes its payload has:
      the first "ee" of the output is always the end of the header. */
  lemma {:induction false} RoundTrip(m: MetadataModel.Metadata)
    ensures Parse(Print(m)) == Ok(m)
  {
    KeysHaveNoEE(m);
    PrintedIsRead(Pairs(m), m.payload);
    FieldsReadBack(m);
    CodeReadsBack(m.msgType);
  }

  // ---- dictionaries that are not messages ---------------------------------------------------------

  lemma {:induction false} StoredAlone(key: seq<byte>, value: nat)
    ensures StoreAll([(key, value)], 0, NO_FIELDS) == Store(NO_FIELDS, key, value)
  {
    var ps := [(key, value)];
    if Store(NO_FIELDS, key, value).Ok? {
      assert StoreAll(ps, 1, Store(NO_FIELDS, key, value).value) == Store(NO_FIELDS, key, value);
    }
  }

  lemma {:induction false} KeysDiffer()
    ensures |MSG_TYPE| == 8 && |PIECE| == 5 && |TOTAL_SIZE| == 10
    ensures NoEE(MSG_TYPE, 0, 8) && NoEE(PIECE, 0, 5) && NoEE(TOTAL_SIZE, 0, 10)
  {
  }

  /** A single pair: the type must be 0, 1 or 2, a piece or a total size fit 64 bits; a
      type beyond 8 bits is out of range rather than unknown, and any other key is
      ignored. What is missing is zero or absent, so that the message is a request. */
  lemma {:induction false} SinglePair(key: seq<byte>, value: nat, payload: seq<byte>)
    requires NoEE(key, 0, |key|)
    ensures Parse(Printing([(key, value)], payload)) ==
      if key == MSG_TYPE then
        (if value >= 0x100 then Err(OutOfRange)
         else if value > 2 then Err(UnknownType)
         else Ok(Metadata(if value == 0 then Request else if value == 1 then Response else Reject, 0, None, payload)))
      else if key == PIECE then
        (if value >= 0x1_0000_0000_0000_0000 then Err(OutOfRange) else Ok(Metadata(Request, value, None, payload)))
      else if key == TOTAL_SIZE then
        (if value >= 0x1_0000_0000_0000_0000 then Err(OutOfRange) else Ok(Metadata(Request, 0, Some(value), payload)))
      else
        Ok(Metadata(Request, 0, None, payload))
  {
    PrintedIsRead([(key, value)], payload);
    StoredAlone(key, value);
    KeysDiffer();
  }

  lemma {:induction false} LeadingZero(s: seq<byte>, i: nat)
    requires i + 1 < |s| && s[i] == ZERO && IsDigit(s[i + 1])
    ensures NextPair(s, i) == Bad
  {
    assert SpanEnd(s, i) == SpanEnd(s, i + 1) == SpanEnd(s, i + 2);
  }

  // ---- the letters --------------------------------------------------------------------------------------

  lemma {:induction false} LengthLetters()
    ensures Digits(8) == [56] && Digits(5) == [53] && Digits(10) == [49, 48]
  {
    assert Digits(1) == [] + [49] == [49];
    assert Digits(10) == Digits(1) + [48];
  }

  lemma {:induction false} PairLetters(key: seq<byte>, length: seq<byte>, n: nat)
    requires Digits(|key|) == length
    ensures PrintPair(key, n) == length + [58] + key + [105] + Digits(n) + [101]
  {
    hide Digits;
  }

  /** "8:msg_typei" code "e", "5:piecei" piece "e", and "10:total_sizei" size "e". */
  lemma {:induction false} Letters(code: nat, piece: nat, size: nat)
    ensures PrintPair(MSG_TYPE, code) == [56] + [58] + [109, 115, 103, 95, 116, 121, 112, 101] + [105] + Digits(code) + [101]
    ensures PrintPair(PIECE, piece) == [53] + [58] + [112, 105, 101, 99, 101] + [105] + Digits(piece) + [101]
    ensures PrintPair(TOTAL_SIZE, size) ==
      [49, 48] + [58] + [116, 111, 116, 97, 108, 95, 115, 105, 122, 101] + [105] + Digits(size) + [101]
  {
    KeysDiffer();
    LengthLetters();
    PairLetters(MSG_TYPE, [56], code);
    PairLetters(PIECE, [53], piece);
    PairLetters(TOTAL_SIZE, [49, 48], size);
    hide Digits, PrintPair;
  }

  /** A message is the letter "d", these pairs in this order, the letter "e" and the
      payload; the types are numbered 0, 1 and 2. */
  lemma {:induction false} MessageLetters(m: MetadataModel.Metadata)
    ensures Print(m) ==
      [100] + PrintPair(MSG_TYPE, if m.msgType == Request then 0 else if m.msgType == Response then 1 else 2)
      + PrintPair(PIECE, m.piece)
      + (if m.totalSize.None? then [] else PrintPair(TOTAL_SIZE, m.totalSize.value)) + [101] + m.payload
  {
    var ps := Pairs(m);
    hide PrintPair;
    assert PrintPairs(ps, 0) == [100];
    assert PrintPairs(ps, 1) == [100] + PrintPair(MSG_TYPE, Code(m.msgType));
    assert PrintPairs(ps, 2) == PrintPairs(ps, 1) + PrintPair(PIECE, m.piece);
    if m.totalSize.Some? {
      assert PrintPairs(ps, 3) == PrintPairs(ps, 2) + PrintPair(TOTAL_SIZE, m.totalSize.value);
    } else {
      assert PrintPairs(ps, 2) + [] == PrintPairs(ps, 2);
    }
  }
}
