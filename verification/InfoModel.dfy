/** The info dictionary cut into pieces and put together again from pieces that
    arrive in any order. The ordered map of pieces is a list sorted by index. */
module InfoModel {
  import opened Basics
  import opened Metainfo
  import opened DiskModel

  type Pieces = seq<(nat, seq<byte>)>

  /** Append bytes to the piece at an index, which starts out empty. */
  function Extend(ps: Pieces, index: nat, bytes: seq<byte>): Pieces {
    if ps == [] || index < ps[0].0 then [(index, bytes)] + ps
    else if index == ps[0].0 then [(index, ps[0].1 + bytes)] + ps[1..]
    else [ps[0]] + Extend(ps[1..], index, bytes)
  }

  function TotalLength(ps: Pieces): nat {
    if ps == [] then 0 else |ps[0].1| + TotalLength(ps[1..])
  }

  /** All pieces in the order of their indices. */
  function Joined(ps: Pieces): seq<byte> {
    if ps == [] then [] else ps[0].1 + Joined(ps[1..])
  }

  datatype Outcome = Waiting | Unparsable | WrongHash | Ready(info: seq<byte>)

  /** One piece arrives together with the total length its sender claims. `hash`
      parses the dictionary and gives its hash. A wrong hash throws all pieces away. */
  function Arrive(ps: Pieces, total: nat, index: nat, bytes: seq<byte>,
                  hash: seq<byte> -> Option<Digest>, expected: Digest): (Pieces, Outcome)
  {
    var more := Extend(ps, index, bytes);
    if TotalLength(more) < total then
      (more, Waiting)
    else
      match hash(Joined(more))
      case None => (more, Unparsable)
      case Some(h) => if h == expected then (more, Ready(Joined(more))) else ([], WrongHash)
  }

  function NumChunks(info: seq<byte>): nat {
    DivCeil(|info|, BLOCK_LEN)
  }

  function Chunk(info: seq<byte>, p: nat): seq<byte>
    requires p * BLOCK_LEN <= |info|
  {
    info[p * BLOCK_LEN..Min(p * BLOCK_LEN + BLOCK_LEN, |info|)]
  }

  lemma {:induction false} ChunkInside(info: seq<byte>, p: nat)
    requires p < NumChunks(info)
    ensures p * BLOCK_LEN < |info| && 0 < |Chunk(info, p)| <= BLOCK_LEN
    ensures p + 1 == NumChunks(info) ==> p * BLOCK_LEN + |Chunk(info, p)| == |info|
    ensures p + 1 < NumChunks(info) ==> |Chunk(info, p)| == BLOCK_LEN
  {
  }

  /** The chunks of `info` from index `i` on whose indices are in `have`. */
  function Held(info: seq<byte>, have: set<nat>, i: nat): Pieces
    requires i <= NumChunks(info)
    decreases NumChunks(info) - i
  {
    if i == NumChunks(info) then [] else
      ChunkInside(info, i);
      (if i in have then [(i, Chunk(info, i))] else []) + Held(info, have, i + 1)
  }
}
