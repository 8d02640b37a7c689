/** What the torrent hands out over whole runs: only pieces the peer announced
    and that are missing, and each piece once unless it was found corrupted. */
module TorrentRuns {
  import opened Basics
  import opened DiskModel
  import opened TorrentModel

  datatype Event =
    | HaveEvent(id: PeerId, piece: nat)
    | BitfieldEvent(id: PeerId, bits: seq<bool>)
    | RequestEvent(id: PeerId, wanted: nat)
    | DownloadedEvent(piece: nat)
    | CorruptedEvent(piece: nat)

  /** A run: the state, the pieces handed out so far in order, and whether the
      torrent has stopped (at an event it cannot handle, see `Panics`). */
  datatype Trace = Trace(s: TorrentState, handed: seq<nat>, stopped: bool)

  function Initial(have: seq<bool>): TorrentState {
    TorrentState(have, map[], map[], Unset(|have|), Ones(have, |have|) == |have|)
  }

  /** Setting a bit beyond the end of a bitfield panics. */
  predicate Panics(s: TorrentState, e: Event) {
    match e
    case HaveEvent(_, piece) => piece >= |s.have|
    case CorruptedEvent(piece) => piece >= |s.req|
    case _ => false
  }

  function HandedBy(s: TorrentState, e: Event): seq<nat> {
    if e.RequestEvent? && RequestPieces(s, e.id, e.wanted).1.Pieces? then
      RequestPieces(s, e.id, e.wanted).1.pieces
    else
      []
  }

  ghost function Step(s: TorrentState, e: Event): TorrentState
    requires !Panics(s, e)
  {
    match e
    case HaveEvent(id, piece) => PeerHave(s, id, piece)
    case BitfieldEvent(id, bits) => SetPeerBitfield(s, id, bits)
    case RequestEvent(id, wanted) => RequestPieces(s, id, wanted).0
    case DownloadedEvent(piece) => MarkDownloaded(s, piece)
    case CorruptedEvent(piece) => ResetCorrupted(s, piece)
  }

  ghost function Next(t: Trace, e: Event): Trace {
    if t.stopped || Panics(t.s, e) then
      t.(stopped := true)
    else if e.RequestEvent? && RequestPieces(t.s, e.id, e.wanted).1.Stops? then
      t.(stopped := true)
    else
      Trace(Step(t.s, e), t.handed + HandedBy(t.s, e), false)
  }

  ghost function Run(have: seq<bool>, es: seq<Event>, k: nat): Trace
    requires k <= |es|
  {
    if k == 0 then Trace(Initial(have), [], false) else Next(Run(have, es, k - 1), es[k - 1])
  }

  // ---- the history of events -------------------------------------------------------------

  /** What a peer last announced about a piece: its latest bitfield and the single
      pieces after that. */
  predicate Announced(es: seq<Event>, k: nat, id: PeerId, p: nat)
    requires k <= |es|
  {
    k > 0 &&
    match es[k - 1]
    case HaveEvent(i, q) => (i == id && q == p) || Announced(es, k - 1, id, p)
    case BitfieldEvent(i, bits) => if i == id then Bit(bits, p) else Announced(es, k - 1, id, p)
    case _ => Announced(es, k - 1, id, p)
  }

  // ---- the differences ---------------------------------------------------------------------

  /** A difference holds only pieces the remote has and we have not. */
  ghost predicate Below(d: seq<bool>, remote: seq<bool>, have: seq<bool>) {
    forall p :: Bit(d, p) ==> Bit(remote, p) && !Bit(have, p)
  }

  ghost predicate Sound(s: TorrentState) {
    forall id :: id in s.diff ==> id in s.peerPieces && Below(s.diff[id], s.peerPieces[id], s.have)
  }

  ghost predicate FromAnnouncements(s: TorrentState, es: seq<Event>, k: nat)
    requires k <= |es|
  {
    forall id, p :: id in s.peerPieces && Bit(s.peerPieces[id], p) ==> Announced(es, k, id, p)
  }

  lemma {:induction false} DownloadedKeepsSound(s: TorrentState, piece: nat)
    requires Sound(s)
    ensures Sound(MarkDownloaded(s, piece))
  {
    var r := MarkDownloaded(s, piece);
    forall id | id in r.diff ensures id in r.peerPieces && Below(r.diff[id], r.peerPieces[id], r.have) {
      forall p | Bit(r.diff[id], p) ensures Bit(r.peerPieces[id], p) && !Bit(r.have, p) {
        SafeSetBits(s.diff[id], piece, false, p);
        SafeSetBits(s.have, piece, true, p);
        assert Bit(s.diff[id], p);
      }
    }
  }

  lemma {:induction false} PeerHaveKeepsSound(s: TorrentState, id: PeerId, piece: nat)
    requires Sound(s) && piece < |s.have|
    ensures Sound(PeerHave(s, id, piece))
  {
    var r := PeerHave(s, id, piece);
    forall p | Bit(r.diff[id], p) ensures Bit(r.peerPieces[id], p) && !Bit(r.have, p) {
      assert id in s.diff ==> Bit(s.diff[id], p);
    }
    assert Below(r.diff[id], r.peerPieces[id], r.have);
  }

  lemma {:induction false} StepKeepsSound(s: TorrentState, e: Event)
    requires Sound(s) && !Panics(s, e)
    ensures Sound(Step(s, e))
  {
    match e
    case HaveEvent(id, piece) => PeerHaveKeepsSound(s, id, piece);
    case BitfieldEvent(id, bits) =>
      var r := SetPeerBitfield(s, id, bits);
      assert Below(r.diff[id], r.peerPieces[id], r.have);
    case DownloadedEvent(piece) => DownloadedKeepsSound(s, piece);
    case _ =>
  }

  lemma {:induction false} StepKeepsAnnouncements(s: TorrentState, es: seq<Event>, k: nat)
    requires 0 < k <= |es| && FromAnnouncements(s, es, k - 1) && !Panics(s, es[k - 1])
    ensures FromAnnouncements(Step(s, es[k - 1]), es, k)
  {
    var r := Step(s, es[k - 1]);
    forall id, p | id in r.peerPieces && Bit(r.peerPieces[id], p) ensures Announced(es, k, id, p) {
      match es[k - 1]
      case HaveEvent(i, q) =>
        if !(i == id && q == p) {
          assert id in s.peerPieces && Bit(s.peerPieces[id], p);
        }
      case BitfieldEvent(i, bits) =>
        if i != id {
          assert id in s.peerPieces && Bit(s.peerPieces[id], p);
        }
      case _ => assert id in s.peerPieces && Bit(s.peerPieces[id], p);
    }
  }

  /** In every state of every run, each difference lies within what the peer
      announced and outside what is downloaded. */
  lemma {:induction false} RunIsSound(have: seq<bool>, es: seq<Event>, k: nat)
    requires k <= |es|
    ensures Sound(Run(have, es, k).s)
    ensures !Run(have, es, k).stopped ==> FromAnnouncements(Run(have, es, k).s, es, k)
  {
    if k > 0 {
      RunIsSound(have, es, k - 1);
      var t, e := Run(have, es, k - 1), es[k - 1];
      if !t.stopped && !Panics(t.s, e) {
        StepKeepsSound(t.s, e);
        StepKeepsAnnouncements(t.s, es, k);
      }
    }
  }

  /** A request never stops the torrent, and every piece it is answered with was
      announced by that very peer and is missing here. */
  lemma {:induction false} RequestsAreSound(have: seq<bool>, es: seq<Event>, k: nat, id: PeerId, wanted: nat)
    requires k <= |es| && !Run(have, es, k).stopped
    ensures var s := Run(have, es, k).s; var a := RequestPieces(s, id, wanted).1;
      && !a.Stops?
      && (a.Pieces? ==>
          && Ascending(a.pieces)
          && (wanted >= 1 ==> |a.pieces| <= wanted)
          && forall p :: p in a.pieces ==>
            Announced(es, k, id, p) && Bit(a.bits, p) && !Bit(s.have, p) && !Bit(s.req, p))
  {
    RunIsSound(have, es, k);
    var s := Run(have, es, k).s;
    if id in s.diff {
      WantIsFirstEligible(s.diff[id], s.req, wanted, 0);
      var pieces := Want(s.diff[id], s.req, wanted, 0).0;
      assert Below(s.diff[id], s.peerPieces[id], s.have);
      forall p | p in pieces ensures Announced(es, k, id, p) && Bit(s.peerPieces[id], p) && !Bit(s.have, p) && !Bit(s.req, p) {
        assert Bit(s.diff[id], p);
      }
    }
  }

  predicate Downloaded(es: seq<Event>, k: nat, p: nat)
    requires k <= |es|
  {
    k > 0 && (es[k - 1] == DownloadedEvent(p) || Downloaded(es, k - 1, p))
  }

  lemma {:induction false} RunStep(have: seq<bool>, es: seq<Event>, k: nat)
    requires 0 < k <= |es| && !Run(have, es, k).stopped
    ensures var before := Run(have, es, k - 1);
      !before.stopped && !Panics(before.s, es[k - 1]) && Run(have, es, k).s == Step(before.s, es[k - 1])
  {
  }

  lemma {:induction false} StepHaves(s: TorrentState, e: Event, p: nat)
    requires !Panics(s, e)
    ensures Bit(Step(s, e).have, p) <==> Bit(s.have, p) || e == DownloadedEvent(p)
  {
    if e.DownloadedEvent? {
      SafeSetBits(s.have, e.piece, true, p);
    }
  }

  /** The torrent counts as here exactly the pieces found at the start or reported
      downloaded since. */
  lemma {:induction false} HaveIsDownloaded(have: seq<bool>, es: seq<Event>, k: nat, p: nat)
    requires k <= |es| && !Run(have, es, k).stopped
    ensures Bit(Run(have, es, k).s.have, p) <==> Bit(have, p) || Downloaded(es, k, p)
  {
    hide Step, Panics;
    if k > 0 {
      RunStep(have, es, k);
      HaveIsDownloaded(have, es, k - 1, p);
      StepHaves(Run(have, es, k - 1).s, es[k - 1], p);
    }
  }

  // ---- what is known of the peers --------------------------------------------------------------

  /** The disk only reports pieces of the torrent. */
  predicate DiskInRange(es: seq<Event>, k: nat, n: nat)
    requires k <= |es|
  {
    k == 0 || (DiskInRange(es, k - 1, n) && (es[k - 1].DownloadedEvent? || es[k - 1].CorruptedEvent? ==> es[k - 1].piece < n))
  }

  lemma {:induction false} StepKeepsLengths(s: TorrentState, e: Event)
    requires !Panics(s, e) && (e.DownloadedEvent? ==> e.piece < |s.have|)
    ensures |Step(s, e).have| == |s.have| && |Step(s, e).req| >= |s.req|
  {
    if e.RequestEvent? && e.id in s.diff {
      WantIsFirstEligible(s.diff[e.id], s.req, e.wanted, 0);
    }
  }

  lemma {:induction false} RunKeepsLengths(have: seq<bool>, es: seq<Event>, k: nat)
    requires k <= |es| && DiskInRange(es, k, |have|)
    ensures |Run(have, es, k).s.have| == |have| && |Run(have, es, k).s.req| >= |have|
  {
    hide Step;
    if k > 0 {
      RunKeepsLengths(have, es, k - 1);
      var t, e := Run(have, es, k - 1), es[k - 1];
      if !t.stopped && !Panics(t.s, e) {
        StepKeepsLengths(t.s, e);
      }
    }
  }

  /** With this piece the torrent is seeding, and forgets what its peers have. */
  ghost predicate Seeds(s: TorrentState, piece: nat) {
    Complete(SafeSet(s.have, piece, true)) || s.seeding
  }

  /** The stored bitfield of the peer is exactly what it announced of the torrent. */
  ghost predicate Knows(s: TorrentState, es: seq<Event>, k: nat, id: PeerId)
    requires k <= |es|
  {
    forall p: nat :: (id in s.peerPieces && Bit(s.peerPieces[id], p)) <==> (p < |s.have| && Announced(es, k, id, p))
  }

  /** No peer is forgotten, and no piece added. */
  ghost predicate Remembers(s: TorrentState, e: Event) {
    e.DownloadedEvent? ==> e.piece < |s.have| && !Seeds(s, e.piece)
  }

  lemma {:induction false} SameIsKnown(s: TorrentState, r: TorrentState, es: seq<Event>, k: nat, id: PeerId)
    requires 0 < k <= |es| && Knows(s, es, k - 1, id) && |r.have| == |s.have|
    requires id in r.peerPieces <==> id in s.peerPieces
    requires id in s.peerPieces ==> r.peerPieces[id] == s.peerPieces[id]
    requires !(es[k - 1].HaveEvent? && es[k - 1].id == id) && !(es[k - 1].BitfieldEvent? && es[k - 1].id == id)
    ensures Knows(r, es, k, id)
  {
    forall p: nat ensures Announced(es, k, id, p) == Announced(es, k - 1, id, p) {
    }
  }

  lemma {:induction false} HaveIsKnown(s: TorrentState, es: seq<Event>, k: nat, id: PeerId, piece: nat)
    requires 0 < k <= |es| && Knows(s, es, k - 1, id) && es[k - 1] == HaveEvent(id, piece) && piece < |s.have|
    ensures Knows(PeerHave(s, id, piece), es, k, id)
  {
    var r := PeerHave(s, id, piece);
    forall p: nat ensures (id in r.peerPieces && Bit(r.peerPieces[id], p)) <==> (p < |r.have| && Announced(es, k, id, p)) {
      assert (id in s.peerPieces && Bit(s.peerPieces[id], p)) <==> (p < |s.have| && Announced(es, k - 1, id, p));
    }
  }

  /** Whatever was known before. */
  lemma {:induction false} BitfieldIsKnown(s: TorrentState, es: seq<Event>, k: nat, id: PeerId, bits: seq<bool>)
    requires 0 < k <= |es| && es[k - 1] == BitfieldEvent(id, bits)
    ensures Knows(SetPeerBitfield(s, id, bits), es, k, id)
  {
  }

  lemma {:induction false} StepKeepsKnowing(s: TorrentState, es: seq<Event>, k: nat, id: PeerId)
    requires 0 < k <= |es| && Knows(s, es, k - 1, id) && !Panics(s, es[k - 1]) && Remembers(s, es[k - 1])
    ensures Knows(Step(s, es[k - 1]), es, k, id)
  {
    hide Knows;
    match es[k - 1]
    case HaveEvent(i, p) =>
      if i == id {
        HaveIsKnown(s, es, k, id, p);
      } else {
        SameIsKnown(s, PeerHave(s, i, p), es, k, id);
      }
    case BitfieldEvent(i, bits) =>
      if i == id {
        BitfieldIsKnown(s, es, k, id, bits);
      } else {
        SameIsKnown(s, SetPeerBitfield(s, i, bits), es, k, id);
      }
    case DownloadedEvent(p) => SameIsKnown(s, MarkDownloaded(s, p), es, k, id);
    case _ => SameIsKnown(s, Step(s, es[k - 1]), es, k, id);
  }

  lemma {:induction false} StillRemembers(s: TorrentState, e: Event)
    requires !Panics(s, e) && !Step(s, e).seeding && (e.DownloadedEvent? ==> e.piece < |s.have|)
    ensures !s.seeding && Remembers(s, e)
  {
  }

  lemma {:induction false} NothingKnown(have: seq<bool>, es: seq<Event>, id: PeerId)
    ensures Knows(Initial(have), es, 0, id)
  {
  }

  /** As long as the torrent is not seeding, the bitfield stored for a peer is exactly
      what it announced: its latest bitfield and every `Have` after that, for the
      pieces of the torrent. */
  lemma {:induction false} KnownIsAnnounced(have: seq<bool>, es: seq<Event>, k: nat, id: PeerId)
    requires k <= |es| && DiskInRange(es, k, |have|) && !Run(have, es, k).stopped && !Run(have, es, k).s.seeding
    ensures |Run(have, es, k).s.have| == |have| && Knows(Run(have, es, k).s, es, k, id)
  {
    hide Step, Panics, Knows;
    RunKeepsLengths(have, es, k);
    if k == 0 {
      NothingKnown(have, es, id);
    } else {
      RunStep(have, es, k);
      RunKeepsLengths(have, es, k - 1);
      StillRemembers(Run(have, es, k - 1).s, es[k - 1]);
      KnownIsAnnounced(have, es, k - 1, id);
      StepKeepsKnowing(Run(have, es, k - 1).s, es, k, id);
    }
  }

  // ---- what a peer can still give ---------------------------------------------------------------

  /** The difference of a peer is everything stored for it that is missing here. */
  ghost predicate Exact(s: TorrentState, id: PeerId) {
    && id in s.diff && id in s.peerPieces
    && forall p :: Bit(s.diff[id], p) <==> Bit(s.peerPieces[id], p) && !Bit(s.have, p)
  }

  lemma {:induction false} BitfieldIsExact(s: TorrentState, id: PeerId, bits: seq<bool>)
    ensures Exact(SetPeerBitfield(s, id, bits), id)
  {
  }

  /** A later `Have` is left out of the difference: the peer is then asked for
      everything it could give exactly if the piece was in it already or is here. */
  lemma {:induction false} HaveStaysExactIff(s: TorrentState, id: PeerId, piece: nat)
    requires piece < |s.have| && Exact(s, id)
    ensures Exact(PeerHave(s, id, piece), id) <==> Bit(s.diff[id], piece) || Bit(s.have, piece)
  {
    var r := PeerHave(s, id, piece);
    assert Bit(r.peerPieces[id], piece) && Bit(r.diff[id], piece) == Bit(s.diff[id], piece);
    if Bit(s.diff[id], piece) || Bit(s.have, piece) {
      forall p ensures Bit(r.diff[id], p) <==> Bit(r.peerPieces[id], p) && !Bit(r.have, p) {
        assert Bit(s.diff[id], p) <==> Bit(s.peerPieces[id], p) && !Bit(s.have, p);
      }
    }
  }

  lemma {:induction false} DownloadStaysExactIff(s: TorrentState, id: PeerId, piece: nat)
    requires Exact(s, id)
    ensures Exact(MarkDownloaded(s, piece), id) <==> !Seeds(s, piece)
  {
    var r := MarkDownloaded(s, piece);
    if !Seeds(s, piece) {
      forall p ensures Bit(r.diff[id], p) <==> Bit(r.peerPieces[id], p) && !Bit(r.have, p) {
        SafeSetBits(s.diff[id], piece, false, p);
        SafeSetBits(s.have, piece, true, p);
        assert Bit(s.diff[id], p) <==> Bit(s.peerPieces[id], p) && !Bit(s.have, p);
      }
    }
  }

  /** The difference of the peer is spoilt: it announces a piece that is neither in
      its difference nor here, or the torrent starts seeding. */
  ghost predicate Spoils(s: TorrentState, id: PeerId, e: Event)
    requires id in s.diff
  {
    match e
    case HaveEvent(i, p) => i == id && !Bit(s.diff[id], p) && !Bit(s.have, p)
    case DownloadedEvent(p) => Seeds(s, p)
    case _ => false
  }

  lemma {:induction false} SameStaysExact(s: TorrentState, r: TorrentState, id: PeerId)
    requires Exact(s, id) && r.have == s.have && id in r.diff && id in r.peerPieces
    requires r.diff[id] == s.diff[id] && r.peerPieces[id] == s.peerPieces[id]
    ensures Exact(r, id)
  {
  }

  lemma {:induction false} StepStaysExactIff(s: TorrentState, id: PeerId, e: Event)
    requires Exact(s, id) && !Panics(s, e)
    ensures Exact(Step(s, e), id) <==> !Spoils(s, id, e)
  {
    match e
    case HaveEvent(i, p) =>
      if i == id {
        HaveStaysExactIff(s, id, p);
      } else {
        SameStaysExact(s, Step(s, e), id);
      }
    case BitfieldEvent(i, bits) =>
      if i == id {
        BitfieldIsExact(s, id, bits);
      } else {
        SameStaysExact(s, Step(s, e), id);
      }
    case DownloadedEvent(p) => DownloadStaysExactIff(s, id, p);
    case _ => SameStaysExact(s, Step(s, e), id);
  }

  /** The difference of the peer is everything it announced that is missing here. */
  ghost predicate CanGive(have: seq<bool>, es: seq<Event>, k: nat, id: PeerId)
    requires k <= |es|
  {
    var s := Run(have, es, k).s;
    id in s.diff && forall p: nat ::
      Bit(s.diff[id], p) <==> (p < |have| && Announced(es, k, id, p) && !Bit(s.have, p))
  }

  /** In all states from `i` to `k`. */
  ghost predicate CanGiveSince(have: seq<bool>, es: seq<Event>, id: PeerId, i: nat, k: nat)
    requires i <= k <= |es|
  {
    CanGive(have, es, k, id) && (i == k || CanGiveSince(have, es, id, i, k - 1))
  }

  ghost predicate SpoiltSince(have: seq<bool>, es: seq<Event>, id: PeerId, i: nat, k: nat)
    requires i <= k <= |es|
  {
    i < k && (SpoiltSince(have, es, id, i, k - 1) ||
      var s := Run(have, es, k - 1).s; id in s.diff && Spoils(s, id, es[k - 1]))
  }

  /** What is known of the peer is what it announced, and its difference follows. */
  ghost predicate Tracks(have: seq<bool>, es: seq<Event>, k: nat, id: PeerId)
    requires k <= |es|
  {
    var s := Run(have, es, k).s;
    |s.have| == |have| && Knows(s, es, k, id) && Exact(s, id)
  }

  lemma {:induction false} TrackedCanGive(have: seq<bool>, es: seq<Event>, k: nat, id: PeerId)
    requires k <= |es| && |Run(have, es, k).s.have| == |have| && Knows(Run(have, es, k).s, es, k, id)
    requires id in Run(have, es, k).s.peerPieces
    ensures CanGive(have, es, k, id) <==> Exact(Run(have, es, k).s, id)
  {
    hide Run;
    var s := Run(have, es, k).s;
    assert forall p: nat :: Bit(s.peerPieces[id], p) <==> (p < |s.have| && Announced(es, k, id, p));
  }

  lemma {:induction false} BitfieldTracks(have: seq<bool>, es: seq<Event>, id: PeerId, i: nat)
    requires 0 < i <= |es| && es[i - 1].BitfieldEvent? && es[i - 1].id == id
    requires !Run(have, es, i).stopped && DiskInRange(es, i, |have|)
    ensures Tracks(have, es, i, id)
  {
    RunKeepsLengths(have, es, i);
    BitfieldIsExact(Run(have, es, i - 1).s, id, es[i - 1].bits);
    BitfieldIsKnown(Run(have, es, i - 1).s, es, i, id, es[i - 1].bits);
  }

  lemma {:induction false} StepKeepsPeer(s: TorrentState, id: PeerId, e: Event)
    requires Exact(s, id) && !Panics(s, e) && (e.DownloadedEvent? ==> !Seeds(s, e.piece))
    ensures id in Step(s, e).peerPieces
  {
  }

  lemma {:induction false} SpoiltIsForgotten(s: TorrentState, id: PeerId, e: Event)
    requires Exact(s, id) && e.DownloadedEvent? && Seeds(s, e.piece)
    ensures id !in Step(s, e).diff && Spoils(s, id, e)
  {
  }

  lemma {:induction false} TrackedStep(have: seq<bool>, es: seq<Event>, k: nat, id: PeerId)
    requires 0 < k <= |es| && !Run(have, es, k).stopped && DiskInRange(es, k, |have|) && Tracks(have, es, k - 1, id)
    ensures var s := Run(have, es, k - 1).s;
      && id in s.diff
      && (CanGive(have, es, k, id) <==> !Spoils(s, id, es[k - 1]))
      && (!Spoils(s, id, es[k - 1]) ==> Tracks(have, es, k, id))
  {
    hide Step, Panics, Knows, Run;
    var s, e := Run(have, es, k - 1).s, es[k - 1];
    RunStep(have, es, k);
    RunKeepsLengths(have, es, k);
    if e.DownloadedEvent? && Seeds(s, e.piece) {
      SpoiltIsForgotten(s, id, e);
    } else {
      StepKeepsKnowing(s, es, k, id);
      StepKeepsPeer(s, id, e);
      StepStaysExactIff(s, id, e);
      TrackedCanGive(have, es, k, id);
    }
  }

  lemma {:induction false} TracksSince(have: seq<bool>, es: seq<Event>, id: PeerId, i: nat, k: nat)
    requires 0 < i <= k <= |es| && es[i - 1].BitfieldEvent? && es[i - 1].id == id
    requires !Run(have, es, k).stopped && DiskInRange(es, k, |have|)
    ensures CanGiveSince(have, es, id, i, k) <==> !SpoiltSince(have, es, id, i, k)
    ensures !SpoiltSince(have, es, id, i, k) ==> Tracks(have, es, k, id)
    decreases k
  {
    hide Run, Spoils, CanGive, Tracks;
    if i == k {
      BitfieldTracks(have, es, id, i);
      TracksCanGive(have, es, i, id);
    } else {
      RunStep(have, es, k);
      TracksSince(have, es, id, i, k - 1);
      if !SpoiltSince(have, es, id, i, k - 1) {
        TrackedStep(have, es, k, id);
      }
    }
  }

  lemma {:induction false} TracksCanGive(have: seq<bool>, es: seq<Event>, k: nat, id: PeerId)
    requires k <= |es| && Tracks(have, es, k, id)
    ensures CanGive(have, es, k, id)
  {
    TrackedCanGive(have, es, k, id);
  }

  /** Once a peer has sent its bitfield, its difference stays everything it announced
      and we miss, exactly until it announces a piece that is neither in the
      difference nor here, or the download is complete. */
  lemma {:induction false} CanGiveSinceBitfieldIff(have: seq<bool>, es: seq<Event>, id: PeerId, i: nat, k: nat)
    requires 0 < i <= k <= |es| && es[i - 1].BitfieldEvent? && es[i - 1].id == id
    requires !Run(have, es, k).stopped && DiskInRange(es, k, |have|)
    ensures CanGiveSince(have, es, id, i, k) <==> !SpoiltSince(have, es, id, i, k)
  {
    TracksSince(have, es, id, i, k);
  }

  lemma {:induction false} CanGiveNow(have: seq<bool>, es: seq<Event>, id: PeerId, i: nat, k: nat)
    requires i <= k <= |es| && CanGiveSince(have, es, id, i, k)
    ensures CanGive(have, es, k, id)
  {
  }

  /** While that is so, a peer asked for enough is handed every piece it announced
      that is missing here and not marked, and nothing else. */
  lemma {:induction false} AskedForEverything(have: seq<bool>, es: seq<Event>, k: nat, id: PeerId, wanted: nat, p: nat)
    requires k <= |es| && !Run(have, es, k).stopped && CanGive(have, es, k, id)
    requires var a := RequestPieces(Run(have, es, k).s, id, wanted).1; a.Pieces? ==> wanted == 0 || |a.pieces| < wanted
    ensures var s := Run(have, es, k).s; var a := RequestPieces(s, id, wanted).1;
      a.Pieces? && (p in a.pieces <==> (p < |have| && Announced(es, k, id, p) && !Bit(s.have, p) && !Bit(s.req, p)))
  {
    RequestsAreSound(have, es, k, id, wanted);
    var s := Run(have, es, k).s;
    hide Run, Announced;
    WantIsFirstEligible(s.diff[id], s.req, wanted, 0);
    assert Bit(s.diff[id], p) <==> (p < |have| && Announced(es, k, id, p) && !Bit(s.have, p));
  }

  // ---- pieces are handed out once ----------------------------------------------------------

  lemma {:induction false} CountAscending(s: seq<nat>, p: nat)
    requires Ascending(s)
    ensures Count(s, p) == if p in s then 1 else 0
  {
    if s != [] {
      var n := |s| - 1;
      CountAscending(s[..n], p);
      assert s == s[..n] + [s[n]];
    }
  }

  lemma {:induction false} CountConcat<T>(a: seq<T>, b: seq<T>, x: T)
    ensures Count(a + b, x) == Count(a, x) + Count(b, x)
  {
    if b == [] {
      assert a + b == a;
    } else {
      var n := |b| - 1;
      CountConcat(a, b[..n], x);
      assert (a + b)[..|a + b| - 1] == a + b[..n];
    }
  }

  function Mark(s: TorrentState, p: nat): nat {
    if Bit(s.req, p) then 1 else 0
  }

  lemma {:induction false} StepHandsOut(s: TorrentState, e: Event, p: nat)
    requires !Panics(s, e)
    ensures Mark(s, p) + Count(HandedBy(s, e), p) <= Mark(Step(s, e), p) + if e == CorruptedEvent(p) then 1 else 0
  {
    if e.RequestEvent? && e.id in s.diff {
      WantIsFirstEligible(s.diff[e.id], s.req, e.wanted, 0);
      CountAscending(Want(s.diff[e.id], s.req, e.wanted, 0).0, p);
    }
  }

  function Corruptions(es: seq<Event>, k: nat, p: nat): nat
    requires k <= |es|
  {
    if k == 0 then 0 else Corruptions(es, k - 1, p) + if es[k - 1] == CorruptedEvent(p) then 1 else 0
  }

  lemma {:induction false} NextHandsOut(t: Trace, e: Event, p: nat)
    ensures Count(Next(t, e).handed, p) + Mark(t.s, p) <=
      Count(t.handed, p) + Mark(Next(t, e).s, p) + if e == CorruptedEvent(p) then 1 else 0
  {
    if !t.stopped && !Panics(t.s, e) {
      StepHandsOut(t.s, e, p);
      CountConcat(t.handed, HandedBy(t.s, e), p);
    }
  }

  /** A piece is handed out at most once more than it was reported corrupted: in
      a run without corruption no piece goes to two peers. */
  lemma {:induction false} HandedOutOnce(have: seq<bool>, es: seq<Event>, k: nat, p: nat)
    requires k <= |es|
    ensures var t := Run(have, es, k);
      Count(t.handed, p) <= Corruptions(es, k, p) + Mark(t.s, p)
  {
    if k > 0 {
      var t := Run(have, es, k - 1);
      HandedOutOnce(have, es, k - 1, p);
      NextHandsOut(t, es[k - 1], p);
      assert Run(have, es, k) == Next(t, es[k - 1]);
    }
  }

  /** The piece went out to some peer after it was last reported corrupted. */
  ghost predicate Lent(have: seq<bool>, es: seq<Event>, k: nat, p: nat)
    requires k <= |es|
  {
    k > 0 && (p in HandedBy(Run(have, es, k - 1).s, es[k - 1]) || (es[k - 1] != CorruptedEvent(p) && Lent(have, es, k - 1, p)))
  }

  lemma {:induction false} StepMarks(s: TorrentState, e: Event, p: nat)
    requires !Panics(s, e) && Sound(s)
    ensures Bit(Step(s, e).req, p) <==> p in HandedBy(s, e) || (e != CorruptedEvent(p) && Bit(s.req, p))
  {
    if e.RequestEvent? && e.id in s.diff {
      WantIsFirstEligible(s.diff[e.id], s.req, e.wanted, 0);
    }
  }

  /** A piece is kept from being handed out exactly while it is lent. */
  lemma {:induction false} MarkedIffLent(have: seq<bool>, es: seq<Event>, k: nat, p: nat)
    requires k <= |es| && !Run(have, es, k).stopped
    ensures Bit(Run(have, es, k).s.req, p) <==> Lent(have, es, k, p)
  {
    if k > 0 {
      RunStep(have, es, k);
      RunIsSound(have, es, k - 1);
      hide Step, Run, HandedBy, Sound;
      MarkedIffLent(have, es, k - 1, p);
      StepMarks(Run(have, es, k - 1).s, es[k - 1], p);
    }
  }

  // ---- the end of the download ---------------------------------------------------------------------

  lemma {:induction false} StepSeeds(s: TorrentState, e: Event)
    requires !Panics(s, e) && (e.DownloadedEvent? ==> e.piece < |s.have|)
    requires s.seeding <==> Complete(s.have)
    ensures Step(s, e).seeding <==> Complete(Step(s, e).have)
    ensures Step(s, e).seeding && e.DownloadedEvent? ==> Step(s, e).diff == map[] && Step(s, e).peerPieces == map[]
  {
  }

  /** The torrent seeds exactly while all its pieces are here. */
  lemma {:induction false} SeedsIffComplete(have: seq<bool>, es: seq<Event>, k: nat)
    requires k <= |es| && DiskInRange(es, k, |have|)
    ensures Run(have, es, k).s.seeding <==> Complete(Run(have, es, k).s.have)
  {
    if k > 0 {
      SeedsIffComplete(have, es, k - 1);
      RunKeepsLengths(have, es, k - 1);
      var t, e := Run(have, es, k - 1), es[k - 1];
      hide Step, Panics, Complete;
      if !t.stopped && !Panics(t.s, e) {
        StepSeeds(t.s, e);
      }
    }
  }

  // ---- when the torrent stops -------------------------------------------------------------------

  /** Some event so far named a piece beyond the end of the bitfield it is for. */
  ghost predicate PanickedBy(have: seq<bool>, es: seq<Event>, k: nat)
    requires k <= |es|
  {
    k > 0 && (PanickedBy(have, es, k - 1) || Panics(Run(have, es, k - 1).s, es[k - 1]))
  }

  /** A piece beyond the end is the only thing that stops the torrent; in particular
      the bitfield a request needs is always there. */
  lemma {:induction false} StoppedIff(have: seq<bool>, es: seq<Event>, k: nat)
    requires k <= |es|
    ensures Run(have, es, k).stopped <==> PanickedBy(have, es, k)
  {
    hide Step, Panics;
    if k > 0 {
      StoppedIff(have, es, k - 1);
      var t, e := Run(have, es, k - 1), es[k - 1];
      if e.RequestEvent? && !t.stopped {
        RequestsAreSound(have, es, k - 1, e.id, e.wanted);
      }
    }
  }

  predicate HaveBeyond(es: seq<Event>, k: nat, n: nat)
    requires k <= |es|
  {
    k > 0 && (HaveBeyond(es, k - 1, n) || (es[k - 1].HaveEvent? && es[k - 1].piece >= n))
  }

  /** While the disk reports pieces of the torrent only, the torrent stops exactly if
      some peer sent a `Have` for a piece beyond the end. */
  lemma {:induction false} StoppedByHaveIff(have: seq<bool>, es: seq<Event>, k: nat)
    requires k <= |es| && DiskInRange(es, k, |have|)
    ensures Run(have, es, k).stopped <==> HaveBeyond(es, k, |have|)
  {
    hide Run;
    StoppedIff(have, es, k);
    if k > 0 {
      StoppedIff(have, es, k - 1);
      StoppedByHaveIff(have, es, k - 1);
      RunKeepsLengths(have, es, k - 1);
    }
  }
}
