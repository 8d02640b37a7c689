/** The torrent task's own copy of the piece bookkeeping, changed in place by the
    messages it handles. */
module Torrent {
  import opened Basics
  import opened Metainfo
  import opened DiskModel
  import opened TorrentModel

  class Torrent {
    var have: seq<bool>
    var peerPieces: map<PeerId, seq<bool>>
    var diff: map<PeerId, seq<bool>>
    var req: seq<bool>
    var seeding: bool

    ghost function State(): TorrentState
      reads this
    {
      TorrentState(have, peerPieces, diff, req, seeding)
    }

    method CountOnes() returns (n: nat)
      ensures n == Ones(have, |have|)
    {
      n := 0;
      for i := 0 to |have|
        invariant n == Ones(have, i)
      {
        if have[i] {
          n := n + 1;
        }
      }
    }

    /** Start with the pieces found on disk; nothing is left to do if that is all
        of them. */
    constructor (bitfield: seq<bool>)
      ensures State() == TorrentState(bitfield, map[], map[], Unset(|bitfield|), Complete(bitfield))
    {
      have, peerPieces, diff, req, seeding := bitfield, map[], map[], Unset(|bitfield|), false;
      new;
      var n := CountOnes();
      if n >= |have| {
        seeding := true;
      }
    }

    method GenMissingPieces(id: PeerId)
      requires id in peerPieces ==> |peerPieces[id]| == |have|
      modifies this`diff
      ensures diff == if id in peerPieces then old(diff)[id := Missing(peerPieces[id], have)] else old(diff)
    {
      if id !in peerPieces {
        return;
      }
      var r := [];
      for i := 0 to |have|
        invariant |r| == i
        invariant forall j :: 0 <= j < i ==> r[j] == (peerPieces[id][j] && !have[j])
        invariant diff == old(diff)
      {
        r := r + [peerPieces[id][i] && !have[i]];
      }
      diff := diff[id := r];
      assert r == Missing(peerPieces[id], have);
    }

    method PeerHave(id: PeerId, piece: nat)
      requires piece < |have|
      modifies this
      ensures State() == TorrentModel.PeerHave(old(State()), id, piece)
    {
      var bits := if id in peerPieces then peerPieces[id] else [];
      peerPieces := peerPieces[id := Resize(bits, |have|)[piece := true]];
      if id in diff {
        diff := diff[id := Resize(diff[id], |have|)];
      } else {
        GenMissingPieces(id);
      }
    }

    method SetPeerBitfield(id: PeerId, bits: seq<bool>)
      modifies this
      ensures State() == TorrentModel.SetPeerBitfield(old(State()), id, bits)
    {
      peerPieces := peerPieces[id := Resize(bits, |have|)];
      GenMissingPieces(id);
    }

    method GetWantPieces(id: PeerId, wanted: nat) returns (r: Option<seq<nat>>)
      modifies this`req
      ensures id !in diff ==> r == None && req == old(req)
      ensures id in diff ==> r == Some(Want(diff[id], old(req), wanted, 0).0) && req == Want(diff[id], old(req), wanted, 0).1
    {
      if id !in diff {
        return None;
      }
      var bits, pieces, i := diff[id], [], 0;
      ghost var all := Want(bits, req, wanted, 0);
      assert [] + all.0 == all.0;
      while i < |bits|
        invariant i <= |bits|
        invariant wanted > 0 ==> |pieces| < wanted
        invariant all == (pieces + Want(bits, req, wanted - |pieces|, i).0, Want(bits, req, wanted - |pieces|, i).1)
      {
        if bits[i] && !Bit(req, i) {
          req := SafeSet(req, i, true);
          ghost var rest := Want(bits, req, wanted - |pieces| - 1, i + 1);
          assert pieces + ([i] + rest.0) == (pieces + [i]) + rest.0;
          pieces := pieces + [i];
          if |pieces| == wanted {
            return Some(pieces);
          }
        }
        i := i + 1;
      }
      assert pieces + [] == pieces;
      r := Some(pieces);
    }

    /** The request arm: the wanted pieces and the peer's bitfield for the disk. */
    method Request(id: PeerId, qnt: nat, pl: nat) returns (a: Answer)
      requires pl > 0
      modifies this`req
      ensures (State(), a) == RequestPieces(old(State()), id, PiecesWanted(qnt, pl))
    {
      var r := GetWantPieces(id, DivCeil(qnt * BLOCK_LEN, pl));
      if r == None {
        return Unknown;
      }
      a := if id in peerPieces then Pieces(r.value, peerPieces[id]) else Stops;
    }

    method ClearInDiffs(piece: nat)
      modifies this`diff
      ensures diff == Cleared(old(diff), piece)
    {
      var ids := diff.Keys;
      while ids != {}
        invariant ids <= old(diff).Keys == diff.Keys
        invariant forall id :: id in diff ==>
          diff[id] == if id in ids then old(diff)[id] else SafeSet(old(diff)[id], piece, false)
        decreases ids
      {
        var id :| id in ids;
        diff := diff[id := SafeSet(diff[id], piece, false)];
        ids := ids - {id};
      }
    }

    /** A piece has been validated; `finished` tells the disk, the tracker and the
        peers that it was the last one. */
    method DownloadedPiece(piece: nat) returns (finished: bool)
      modifies this
      ensures State() == MarkDownloaded(old(State()), piece)
      ensures finished == (Complete(have) || old(seeding))
    {
      have := SafeSet(have, piece, true);
      ClearInDiffs(piece);
      var n := CountOnes();
      if n < |have| && !seeding {
        return false;
      }
      seeding := true;
      diff, peerPieces := map[], map[];
      finished := true;
    }

    method CorruptedPiece(piece: nat)
      requires piece < |req|
      modifies this`req
      ensures State() == ResetCorrupted(old(State()), piece)
    {
      req := req[piece := false];
    }

    /** The piece for which a peer is of interest, if any: the first it has and we
        have not, or piece 0 as long as we have none. */
    method PeerHasPieceNotInLocal(id: PeerId) returns (r: Option<nat>)
      ensures r == if Ones(have, |have|) == 0 then Some(0) else if id in diff then FirstSet(diff[id], 0) else None
    {
      var n := CountOnes();
      if n == 0 {
        return Some(0);
      }
      if id !in diff {
        return None;
      }
      var i := 0;
      while i < |diff[id]|
        invariant i <= |diff[id]|
        invariant FirstSet(diff[id], 0) == FirstSet(diff[id], i)
      {
        if diff[id][i] {
          return Some(i);
        }
        i := i + 1;
      }
      r := None;
    }
  }
}
