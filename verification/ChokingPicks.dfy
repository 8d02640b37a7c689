/** Who gets a slot: the fastest interested peers the regular ones, some interested
    peer without one the optimistic one; and who is told what. */
module ChokingPicks {
  import opened Basics
  import opened TorrentModel
  import opened ChokingModel

  // ---- regular slots -----------------------------------------------------------------------

  lemma {:induction false} EnoughCandidates(wants: seq<bool>, connected: seq<PeerCtx>, interested: set<PeerCtx>, k: nat)
    requires |wants| == |connected| && k <= |wants|
    requires forall i :: 0 <= i < |wants| ==> wants[i] == (connected[i] in interested)
    ensures Candidates(wants, true, k) == InterestedAmong(connected, interested, k)
  {
    if k > 0 {
      EnoughCandidates(wants, connected, interested, k - 1);
    }
  }

  /** How many of the first `k` connections are interested. */
  function InterestedAmong(connected: seq<PeerCtx>, interested: set<PeerCtx>, k: nat): nat
    requires k <= |connected|
  {
    if k == 0 then 0 else InterestedAmong(connected, interested, k - 1) + if connected[k - 1] in interested then 1 else 0
  }

  /** With as many interested peers as slots, or all of them interested, the best are
      interested and nobody interested outside is faster than one of them; they come
      in order of rate. */
  lemma {:induction false} BestAreFastest(connected: seq<PeerCtx>, rate: PeerCtx -> nat, interested: set<PeerCtx>)
    requires InterestedAmong(connected, interested, |connected|) >= Min(3, |connected|)
    ensures var best := BestDownloaders(connected, rate, interested);
      && |best| == Min(3, |connected|)
      && (forall p :: p in best ==> p in interested)
      && (forall i, j :: 0 <= i < j < |best| ==> rate(best[i]) >= rate(best[j]))
      && (forall p, q :: p in best && q in connected && q in interested && q !in best ==> rate(q) <= rate(p))
  {
    var rates, wants := Rates(connected, rate), Wants(connected, interested);
    var r, best := SortedByRate(rates, wants, true, false), BestDownloaders(connected, rate, interested);
    EnoughCandidates(wants, connected, interested, |connected|);
    SortedByRateIff(rates, wants, true, false);
    SortedPositions(rates, wants, true, false);
    SortedLength(rates, wants);
    assert forall j :: 0 <= j < |r| ==> best[j] == connected[r[j]] && rates[r[j]] == rate(best[j]);
    SelectedAreFastest(connected, rate, interested, rates, wants, r, best);
  }

  lemma {:induction false} SortedLength(rates: seq<nat>, wants: seq<bool>)
    requires |rates| == |wants|
    ensures |SortedByRate(rates, wants, true, false)| == Min(3, |rates|)
  {
  }

  lemma {:induction false} SelectedAreFastest(connected: seq<PeerCtx>, rate: PeerCtx -> nat, interested: set<PeerCtx>,
                                              rates: seq<nat>, wants: seq<bool>, r: seq<nat>, best: seq<PeerCtx>)
    requires |rates| == |wants| == |connected| && |best| == |r| && Selection(rates, wants, true, false, r)
    requires forall i :: 0 <= i < |connected| ==> wants[i] == (connected[i] in interested) && rates[i] == rate(connected[i])
    requires forall j :: 0 <= j < |r| ==> r[j] < |connected| && best[j] == connected[r[j]]
    ensures forall p :: p in best ==> p in interested
    ensures forall i, j :: 0 <= i < j < |best| ==> rate(best[i]) >= rate(best[j])
    ensures forall p, q :: p in best && q in connected && q in interested && q !in best ==> rate(q) <= rate(p)
  {
    forall p, q | p in best && q in connected && q in interested && q !in best ensures rate(q) <= rate(p) {
      var j :| 0 <= j < |best| && best[j] == p;
      var i :| 0 <= i < |connected| && connected[i] == q;
      assert i !in r by {
        forall m | 0 <= m < |r| ensures r[m] != i {
          assert best[m] in best;
        }
      }
      assert ChokingModel.Before(false, (rates[r[j]], r[j]), (rates[i], i));
    }
  }

  /** Exactly these commands are sent in a regular round. */
  lemma {:induction false} RoundCommandsIff(s: Slots, best: seq<PeerCtx>, choking: set<PeerCtx>, p: PeerCtx)
    ensures var cmds := UnchokeCommands(s, best, choking);
      && (Choke(p) in cmds <==> p in s.unchoked && p.id !in Ids(best))
      && (Unchoke(p) in cmds <==> p in best && p in choking)
  {
    ChokesIff(s.unchoked, Ids(best), |s.unchoked|, p);
    UnchokesIff(best, choking, |best|, p);
    assert s.unchoked[..|s.unchoked|] == s.unchoked && best[..|best|] == best;
  }

  lemma {:induction false} ChokesIff(ps: seq<PeerCtx>, keep: set<PeerId>, k: nat, p: PeerCtx)
    requires k <= |ps|
    ensures Choke(p) in Chokes(ps, keep, k) <==> p in ps[..k] && p.id !in keep
    ensures Unchoke(p) !in Chokes(ps, keep, k)
  {
    if k > 0 {
      ChokesIff(ps, keep, k - 1, p);
      assert ps[..k] == ps[..k - 1] + [ps[k - 1]];
    }
  }

  lemma {:induction false} UnchokesIff(ps: seq<PeerCtx>, choking: set<PeerCtx>, k: nat, p: PeerCtx)
    requires k <= |ps|
    ensures Unchoke(p) in Unchokes(ps, choking, k) <==> p in ps[..k] && p in choking
    ensures Choke(p) !in Unchokes(ps, choking, k)
  {
    if k > 0 {
      UnchokesIff(ps, choking, k - 1, p);
      assert ps[..k] == ps[..k - 1] + [ps[k - 1]];
    }
  }

  // ---- the optimistic slot ---------------------------------------------------------------------

  /** The connection could take the optimistic slot. */
  ghost predicate CanBePicked(s: Slots, interested: set<PeerCtx>, p: PeerCtx) {
    p in s.connected && p in interested && p.id !in Ids(s.unchoked)
  }

  lemma {:induction false} WaitingIff(connected: seq<PeerCtx>, taken: set<PeerId>, interested: set<PeerCtx>, k: nat, p: PeerCtx)
    requires k <= |connected|
    ensures p in Waiting(connected, taken, interested, k) <==> p in connected[..k] && p in interested && p.id !in taken
  {
    if k > 0 {
      WaitingIff(connected, taken, interested, k - 1, p);
      assert connected[..k] == connected[..k - 1] + [connected[k - 1]];
    }
  }

  /** Those waiting are interested, and no slot is held under their id. */
  lemma {:induction false} WaitersHoldNoSlot(s: Slots, interested: set<PeerCtx>, p: PeerCtx)
    ensures p in Waiting(s.connected, SlotIds(s.unchoked, s.opt), interested, |s.connected|) <==>
      p in s.connected && p in interested && p.id !in Ids(s.unchoked) && (s.opt.Some? ==> s.opt.value.id != p.id)
  {
    assert s.connected[..|s.connected|] == s.connected;
    WaitingIff(s.connected, SlotIds(s.unchoked, s.opt), interested, |s.connected|, p);
  }

  /** The optimistic slot goes to an interested peer without a regular slot if there is
      one, and to nobody otherwise. */
  lemma {:induction false} OptimisticPicksIff(s: Slots, interested: set<PeerCtx>, pick: nat)
    ensures var o := OptimisticUnchoke(s, interested, pick).0.opt;
      && (o.Some? <==> exists p :: CanBePicked(s, interested, p))
      && (o.Some? ==> CanBePicked(s, interested, o.value))
  {
    var waiting := Waiting(s.connected, SlotIds(s.unchoked, None), interested, |s.connected|);
    assert s.connected[..|s.connected|] == s.connected;
    forall p ensures p in waiting <==> CanBePicked(s, interested, p) {
      WaitingIff(s.connected, SlotIds(s.unchoked, None), interested, |s.connected|, p);
    }
    if waiting != [] {
      assert waiting[pick % |waiting|] in waiting;
      assert waiting[0] in waiting;
    }
  }

  /** Each of them can be the one. */
  lemma {:induction false} AnyoneCanBePicked(s: Slots, interested: set<PeerCtx>, p: PeerCtx) returns (pick: nat)
    requires CanBePicked(s, interested, p)
    ensures OptimisticUnchoke(s, interested, pick).0.opt == Some(p)
  {
    var waiting := Waiting(s.connected, SlotIds(s.unchoked, None), interested, |s.connected|);
    assert s.connected[..|s.connected|] == s.connected;
    WaitingIff(s.connected, SlotIds(s.unchoked, None), interested, |s.connected|, p);
    pick :| 0 <= pick < |waiting| && waiting[pick] == p;
    SmallRemainder(pick, |waiting|);
  }

  lemma {:induction false} SmallRemainder(a: nat, b: nat)
    requires a < b
    ensures a % b == a
  {
  }

  // ---- connections that end -------------------------------------------------------------------------

  /** A failed address is in no list any more; nobody else leaves a list or a slot. */
  lemma {:induction false} ErrorRemovesIff(s: Slots, addr: nat, p: PeerCtx)
    ensures var r := PeerError(s, addr);
      && (p in r.connected <==> p in s.connected && p.addr != addr)
      && (p in r.unchoked <==> p in s.unchoked && p.addr != addr)
      && (r.opt == Some(p) <==> s.opt == Some(p) && p.addr != addr)
      && r.told == s.told
  {
    assert s.connected[..|s.connected|] == s.connected && s.unchoked[..|s.unchoked|] == s.unchoked;
  }
}
