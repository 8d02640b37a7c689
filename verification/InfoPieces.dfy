/** Serving the info dictionary in pieces and collecting it from them. */
module InfoPieces {
  import opened Basics
  import opened Metainfo
  import opened DiskModel
  import opened InfoModel

  function UpTo(n: nat): set<nat> {
    if n == 0 then {} else UpTo(n - 1) + {n - 1}
  }

  lemma {:induction false} UpToAll(n: nat, p: nat)
    ensures p in UpTo(n) <==> p < n
  {
    if n > 0 {
      UpToAll(n - 1, p);
    }
  }

  /** The pieces served to others: the printed dictionary cut at the size recorded
      for it. Nothing is served if the printed form is shorter than that, where the
      cutting panics. */
  method ChunkInfo(info: seq<byte>, size: nat) returns (ps: Option<Pieces>)
    ensures ps.None? <==> size > |info|
    ensures ps.Some? ==> ps.value == Held(info[..size], UpTo(NumChunks(info[..size])), 0)
  {
    ghost var served := info[..Min(size, |info|)];
    ghost var all := UpTo(NumChunks(served));
    var pieces: Pieces := [];
    for p := 0 to DivCeil(size, BLOCK_LEN)
      invariant Min(p * BLOCK_LEN, size) <= |info|
      invariant size <= |info| ==> Held(served, all, 0) == pieces + Held(served, all, p)
    {
      var start := p * BLOCK_LEN;
      var end := Min(start + BLOCK_LEN, size);
      if end > |info| {
        return None;
      }
      if size <= |info| {
        ChunkInside(served, p);
        UpToAll(NumChunks(served), p);
        assert info[start..end] == Chunk(served, p);
        assert pieces + ([(p, Chunk(served, p))] + Held(served, all, p + 1)) == pieces + [(p, Chunk(served, p))] + Held(served, all, p + 1);
      }
      pieces := pieces + [(p, info[start..end])];
    }
    assert pieces + [] == pieces;
    return Some(pieces);
  }

  class InfoDownload {
    var pieces: Pieces

    constructor ()
      ensures pieces == []
    {
      pieces := [];
    }

    method DownloadedInfoPiece(total: nat, index: nat, bytes: seq<byte>,
                               hash: seq<byte> -> Option<Digest>, expected: Digest) returns (o: Outcome)
      modifies this
      ensures (pieces, o) == Arrive(old(pieces), total, index, bytes, hash, expected)
    {
      pieces := Extend(pieces, index, bytes);
      var n, i: nat := 0, |pieces|;
      while i > 0
        invariant i <= |pieces| && n == TotalLength(pieces[i..])
      {
        i := i - 1;
        assert pieces[i..][1..] == pieces[i + 1..];
        n := n + |pieces[i].1|;
      }
      assert pieces[0..] == pieces;
      if n < total {
        return Waiting;
      }
      var info := [];
      while i < |pieces|
        invariant i <= |pieces| && info + Joined(pieces[i..]) == Joined(pieces)
      {
        assert pieces[i..][1..] == pieces[i + 1..];
        assert info + (pieces[i].1 + Joined(pieces[i + 1..])) == info + pieces[i].1 + Joined(pieces[i + 1..]);
        info := info + pieces[i].1;
        i := i + 1;
      }
      assert info + [] == info;
      match hash(info)
      case None => o := Unparsable;
      case Some(h) =>
        if h != expected {
          pieces := [];
          return WrongHash;
        }
        o := Ready(info);
    }
  }

  // ---- what is held ------------------------------------------------------------------------

  lemma {:induction false} HeldBelow(info: seq<byte>, have: set<nat>, i: nat, p: nat)
    requires p < i <= NumChunks(info)
    ensures Held(info, have + {p}, i) == Held(info, have, i)
    decreases NumChunks(info) - i
  {
    if i < NumChunks(info) {
      HeldBelow(info, have, i + 1, p);
    }
  }

  lemma {:induction false} HeldFrom(info: seq<byte>, have: set<nat>, i: nat)
    requires i <= NumChunks(info)
    ensures var ps := Held(info, have, i); ps != [] ==> ps[0].0 >= i
    decreases NumChunks(info) - i
  {
    if i < NumChunks(info) {
      var rest := Held(info, have, i + 1);
      HeldFrom(info, have, i + 1);
      ChunkInside(info, i);
      if i in have {
        assert Held(info, have, i) == [(i, Chunk(info, i))] + rest;
      } else {
        assert Held(info, have, i) == [] + rest == rest;
      }
    }
  }

  lemma {:induction false} ExtendHeld(info: seq<byte>, have: set<nat>, i: nat, p: nat)
    requires i <= p < NumChunks(info) && p !in have && p * BLOCK_LEN <= |info|
    ensures Extend(Held(info, have, i), p, Chunk(info, p)) == Held(info, have + {p}, i)
    decreases NumChunks(info) - i
  {
    var rest := Held(info, have, i + 1);
    if i == p {
      HeldBelow(info, have, i + 1, p);
      HeldFrom(info, have, i + 1);
      assert Held(info, have, i) == [] + rest == rest;
    } else {
      ExtendHeld(info, have, i + 1, p);
      if i in have {
        var ps := [(i, Chunk(info, i))] + rest;
        assert ps[1..] == rest;
      } else {
        assert Held(info, have, i) == [] + rest == rest;
        assert Held(info, have + {p}, i) == [] + Held(info, have + {p}, i + 1) == Held(info, have + {p}, i + 1);
      }
    }
  }

  ghost predicate Full(info: seq<byte>, have: set<nat>, i: nat) {
    forall p: nat :: i <= p < NumChunks(info) ==> p in have
  }

  /** Chunks add up to the whole exactly if none is missing. */
  lemma {:induction false} LengthHeld(info: seq<byte>, have: set<nat>, i: nat)
    requires i <= NumChunks(info)
    ensures TotalLength(Held(info, have, i)) <= Max(|info| - i * BLOCK_LEN, 0)
    ensures TotalLength(Held(info, have, i)) == Max(|info| - i * BLOCK_LEN, 0) <==> Full(info, have, i)
    decreases NumChunks(info) - i
  {
    if i < NumChunks(info) {
      LengthHeld(info, have, i + 1);
      ChunkInside(info, i);
      var rest := Held(info, have, i + 1);
      if i in have {
        var ps := [(i, Chunk(info, i))] + rest;
        assert ps[1..] == rest;
        assert Full(info, have, i) <==> Full(info, have, i + 1);
      } else {
        assert Held(info, have, i) == [] + rest == rest;
        assert !Full(info, have, i);
      }
    }
  }

  lemma {:induction false} ChunkSplits(info: seq<byte>, a: nat, b: nat)
    requires a <= b <= |info|
    ensures info[a..b] + info[b..] == info[a..]
  {
  }

  lemma {:induction false} JoinHeld(info: seq<byte>, have: set<nat>, i: nat)
    requires i <= NumChunks(info) && Full(info, have, i)
    ensures Joined(Held(info, have, i)) == info[Min(i * BLOCK_LEN, |info|)..]
    decreases NumChunks(info) - i
  {
    if i < NumChunks(info) {
      JoinHeld(info, have, i + 1);
      ChunkInside(info, i);
      var rest, a, b := Held(info, have, i + 1), i * BLOCK_LEN, Min(i * BLOCK_LEN + BLOCK_LEN, |info|);
      assert (i + 1) * BLOCK_LEN == a + BLOCK_LEN;
      ChunkSplits(info, a, b);
      JoinFirst((i, Chunk(info, i)), rest);
    }
  }

  lemma {:induction false} JoinFirst(p: (nat, seq<byte>), rest: Pieces)
    ensures Joined([p] + rest) == p.1 + Joined(rest)
  {
    assert ([p] + rest)[1..] == rest;
  }

  // ---- any order --------------------------------------------------------------------------------

  /** Each index once, in some order. */
  ghost predicate Permutation(order: seq<nat>, n: nat) {
    && |order| == n
    && (forall i :: 0 <= i < n ==> order[i] < n)
    && (forall i, j :: 0 <= i < j < n ==> order[i] != order[j])
  }

  function First(order: seq<nat>, k: nat): set<nat>
    requires k <= |order|
  {
    if k == 0 then {} else First(order, k - 1) + {order[k - 1]}
  }

  /** The pieces held and the outcome after the first `k` chunks of an order, each
      sent with the total its sender claims. The first outcome but `Waiting` is the
      last: the torrent is promoted, or its loop ends with the error. */
  function Collect(info: seq<byte>, order: seq<nat>, k: nat, total: nat -> nat,
                   hash: seq<byte> -> Option<Digest>, expected: Digest): (Pieces, Outcome)
    requires k <= |order| && forall i :: 0 <= i < |order| ==> order[i] < NumChunks(info)
  {
    if k == 0 then ([], Waiting) else
      var (ps, o) := Collect(info, order, k - 1, total, hash, expected);
      if o != Waiting then (ps, o) else
        var p := order[k - 1];
        ChunkInside(info, p);
        Arrive(ps, total(p), p, Chunk(info, p), hash, expected)
  }

  lemma {:induction false} FirstAre(order: seq<nat>, k: nat, p: nat)
    requires k <= |order|
    ensures p in First(order, k) <==> exists i :: 0 <= i < k && order[i] == p
    ensures |First(order, k)| <= k
  {
    if k > 0 {
      FirstAre(order, k - 1, p);
    }
  }

  lemma {:induction false} FirstSize(order: seq<nat>, k: nat, n: nat)
    requires Permutation(order, n) && k <= n
    ensures |First(order, k)| == k
    ensures forall p :: p in First(order, k) ==> p < n
  {
    if k > 0 {
      FirstSize(order, k - 1, n);
      FirstAre(order, k - 1, order[k - 1]);
    }
  }

  lemma {:induction false} SmallerSet(a: set<nat>, n: nat)
    requires forall p :: p in a ==> p < n
    ensures |a| <= n
    ensures |a| == n <==> forall p: nat :: p < n ==> p in a
  {
    if n > 0 {
      var b := a - {n - 1};
      SmallerSet(b, n - 1);
      if n - 1 in a {
        assert a == b + {n - 1};
      } else {
        assert a == b;
      }
    }
  }

  lemma {:induction false} FullIff(info: seq<byte>, order: seq<nat>, k: nat)
    requires Permutation(order, NumChunks(info)) && k <= |order|
    ensures Full(info, First(order, k), 0) <==> k == |order|
  {
    var n := NumChunks(info);
    FirstSize(order, k, n);
    SmallerSet(First(order, k), n);
  }

  lemma {:induction false} CollectNext(info: seq<byte>, order: seq<nat>, k: nat, hash: seq<byte> -> Option<Digest>, expected: Digest)
    requires Permutation(order, NumChunks(info)) && 0 < k <= |order| && hash(info) == Some(expected)
    requires order[k - 1] * BLOCK_LEN <= |info|
    ensures Arrive(Held(info, First(order, k - 1), 0), |info|, order[k - 1], Chunk(info, order[k - 1]), hash, expected) ==
      (Held(info, First(order, k), 0), if k == |order| then Ready(info) else Waiting)
  {
    var p := order[k - 1];
    FirstAre(order, k - 1, p);
    ExtendHeld(info, First(order, k - 1), 0, p);
    LengthHeld(info, First(order, k), 0);
    FullIff(info, order, k);
    if k == |order| {
      JoinHeld(info, First(order, k), 0);
      assert info[0..] == info;
    }
  }

  /** With the true total, every chunk sent once and in any order: nothing is
      assembled before the last chunk, and the last one gives back exactly the
      bytes of the dictionary. */
  lemma {:induction false} AnyOrderRebuilds(info: seq<byte>, order: seq<nat>, k: nat, total: nat -> nat,
                                            hash: seq<byte> -> Option<Digest>, expected: Digest)
    requires Permutation(order, NumChunks(info)) && k <= |order| && hash(info) == Some(expected)
    requires forall p: nat :: p < NumChunks(info) ==> total(p) == |info|
    ensures Collect(info, order, k, total, hash, expected) ==
      (Held(info, First(order, k), 0), if 0 < k == |order| then Ready(info) else Waiting)
  {
    hide Arrive, Held, Full;
    if k == 0 {
      NothingHeld(info, 0);
    } else {
      AnyOrderRebuilds(info, order, k - 1, total, hash, expected);
      ChunkInside(info, order[k - 1]);
      CollectNext(info, order, k, hash, expected);
    }
  }

  lemma {:induction false} NothingHeld(info: seq<byte>, i: nat)
    requires i <= NumChunks(info)
    ensures Held(info, {}, i) == []
    decreases NumChunks(info) - i
  {
    if i < NumChunks(info) {
      NothingHeld(info, i + 1);
    }
  }

  lemma {:induction false} FirstOwnLength(info: seq<byte>, p: nat, hash: seq<byte> -> Option<Digest>, expected: Digest)
    requires p < NumChunks(info) && p * BLOCK_LEN <= |info| && hash(info) == Some(expected)
    ensures var o := Arrive([], |Chunk(info, p)|, p, Chunk(info, p), hash, expected).1;
      o != Waiting && (o == Ready(info) <==> |info| <= BLOCK_LEN)
  {
    ChunkInside(info, p);
    var ps := [(p, Chunk(info, p))];
    assert Extend([], p, Chunk(info, p)) == ps + [] == ps;
    assert ps[1..] == [];
    assert Joined(ps) == Chunk(info, p) + [] == Chunk(info, p);
    if |info| <= BLOCK_LEN {
      assert p == 0;
      assert Chunk(info, 0) == info;
    }
  }

  /** Senders that give the length of their chunk as the total make the receiver
      assemble after the first chunk, whichever it is, and that ends the collecting:
      the dictionary is rebuilt exactly if it fits one chunk. */
  lemma {:induction false} OwnLengthAsTotalIff(info: seq<byte>, order: seq<nat>, k: nat, total: nat -> nat,
                                               hash: seq<byte> -> Option<Digest>, expected: Digest)
    requires 0 < k <= |order| && (forall i :: 0 <= i < |order| ==> order[i] < NumChunks(info)) && hash(info) == Some(expected)
    requires forall p: nat :: p < NumChunks(info) && p * BLOCK_LEN <= |info| ==> total(p) == |Chunk(info, p)|
    ensures var o := Collect(info, order, k, total, hash, expected).1;
      o != Waiting && (o == Ready(info) <==> |info| <= BLOCK_LEN)
  {
    if k == 1 {
      var p := order[0];
      ChunkInside(info, p);
      FirstOwnLength(info, p, hash, expected);
      assert Collect(info, order, 0, total, hash, expected) == ([], Waiting);
    } else {
      OwnLengthAsTotalIff(info, order, k - 1, total, hash, expected);
    }
  }

  // ---- single arrivals ---------------------------------------------------------------------------

  lemma {:induction false} ExtendLength(ps: Pieces, index: nat, bytes: seq<byte>)
    ensures TotalLength(Extend(ps, index, bytes)) == TotalLength(ps) + |bytes|
  {
    var r := Extend(ps, index, bytes);
    if ps == [] || index < ps[0].0 {
      assert ([(index, bytes)] + ps)[1..] == ps;
    } else if index == ps[0].0 {
      assert r[1..] == ps[1..];
    } else {
      ExtendLength(ps[1..], index, bytes);
      assert r[1..] == Extend(ps[1..], index, bytes);
    }
  }

  /** Bytes that arrive for the same index again are put behind the first ones. */
  lemma {:induction false} SameIndexAppends(ps: Pieces, index: nat, a: seq<byte>, b: seq<byte>)
    ensures Extend(Extend(ps, index, a), index, b) == Extend(ps, index, a + b)
  {
    var r := Extend(ps, index, a);
    if ps == [] || index < ps[0].0 {
      assert r == [(index, a)] + ps && r[1..] == ps;
    } else if index == ps[0].0 {
      assert r == [(index, ps[0].1 + a)] + ps[1..] && r[1..] == ps[1..];
      assert ps[0].1 + a + b == ps[0].1 + (a + b);
    } else {
      SameIndexAppends(ps[1..], index, a, b);
      assert r == [ps[0]] + Extend(ps[1..], index, a) && r[1..] == Extend(ps[1..], index, a);
    }
  }

  /** Nothing is assembled before as many bytes are held as the sender claims. Then the
      dictionary is ready exactly if it hashes right; with a wrong hash all is thrown
      away, and what cannot be parsed is kept. */
  lemma {:induction false} ArriveIs(ps: Pieces, total: nat, index: nat, bytes: seq<byte>,
                                    hash: seq<byte> -> Option<Digest>, expected: Digest)
    ensures var (r, o) := Arrive(ps, total, index, bytes, hash, expected); var more := Extend(ps, index, bytes);
      && (o == Waiting <==> TotalLength(ps) + |bytes| < total)
      && (o.Ready? ==> hash(o.info) == Some(expected) && o.info == Joined(more))
      && (o == Unparsable <==> o != Waiting && hash(Joined(more)) == None)
      && (o == WrongHash <==> o != Waiting && hash(Joined(more)).Some? && hash(Joined(more)).value != expected)
      && r == if o == WrongHash then [] else more
  {
    ExtendLength(ps, index, bytes);
  }
}
