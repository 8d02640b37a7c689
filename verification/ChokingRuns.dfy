/** Over any interleaving of the choking rounds, connections and errors: who has
    been told that it may download, and exactly when that is accounted for by the
    slots. Peers are looked up by id, so two connections with one id matter. */
module ChokingRuns {
  import opened Basics
  import opened TorrentModel
  import opened ChokingModel

  /** The rates, the interest and the flags are read from the connections. */
  datatype Event =
    | UnchokeEvent(rate: PeerCtx -> nat, interested: set<PeerCtx>, choking: set<PeerCtx>)
    | OptimisticEvent(interested: set<PeerCtx>, pick: nat)
    | ErrorEvent(addr: nat)
    | ConnectEvent(id: PeerId, addr: nat)

  /** One step; `n` is the number a new connection gets. */
  function Step(s: Slots, e: Event, n: nat): Slots {
    match e
    case UnchokeEvent(rate, interested, choking) => UnchokeBest(s, BestDownloaders(s.connected, rate, interested), choking)
    case OptimisticEvent(interested, pick) => OptimisticUnchoke(s, interested, pick).0
    case ErrorEvent(addr) => PeerError(s, addr)
    case ConnectEvent(id, addr) => PeerConnected(s, PeerCtx(n, id, addr))
  }

  // ---- the effect of the commands ------------------------------------------------------------

  lemma {:induction false} ToldConcat(told: set<PeerCtx>, a: seq<Command>, b: seq<Command>, k: nat)
    requires k <= |b|
    ensures Told(told, a + b, |a| + k) == Told(Told(told, a, |a|), b, k)
  {
    if k == 0 {
      ToldPrefix(told, a, b, |a|);
    } else {
      ToldConcat(told, a, b, k - 1);
    }
  }

  lemma {:induction false} ToldPrefix(told: set<PeerCtx>, a: seq<Command>, b: seq<Command>, k: nat)
    requires k <= |a|
    ensures Told(told, a + b, k) == Told(told, a, k)
  {
    if k > 0 {
      ToldPrefix(told, a, b, k - 1);
    }
  }

  function FirstOf(ps: seq<PeerCtx>, k: nat): set<PeerCtx>
    requires k <= |ps|
  {
    set i | 0 <= i < k :: ps[i]
  }

  function All(ps: seq<PeerCtx>): set<PeerCtx> {
    set p | p in ps
  }

  /** Those among some peers whose id is not kept. */
  function Dropped(ps: set<PeerCtx>, keep: set<PeerId>): set<PeerCtx> {
    set p | p in ps && p.id !in keep
  }

  lemma {:induction false} ChokesTold(told: set<PeerCtx>, ps: seq<PeerCtx>, keep: set<PeerId>, k: nat)
    requires k <= |ps|
    ensures Told(told, Chokes(ps, keep, k), |Chokes(ps, keep, k)|) == told - Dropped(FirstOf(ps, k), keep)
  {
    if k > 0 {
      ChokesTold(told, ps, keep, k - 1);
      assert FirstOf(ps, k) == FirstOf(ps, k - 1) + {ps[k - 1]};
      var before := Chokes(ps, keep, k - 1);
      if ps[k - 1].id !in keep {
        ToldConcat(told, before, [Choke(ps[k - 1])], 1);
      } else {
        assert before + [] == before;
      }
    }
  }

  lemma {:induction false} UnchokesTold(told: set<PeerCtx>, ps: seq<PeerCtx>, choking: set<PeerCtx>, k: nat)
    requires k <= |ps|
    ensures Told(told, Unchokes(ps, choking, k), |Unchokes(ps, choking, k)|) == told + FirstOf(ps, k) * choking
  {
    if k > 0 {
      UnchokesTold(told, ps, choking, k - 1);
      assert FirstOf(ps, k) == FirstOf(ps, k - 1) + {ps[k - 1]};
      var before := Unchokes(ps, choking, k - 1);
      if ps[k - 1] in choking {
        ToldConcat(told, before, [Unchoke(ps[k - 1])], 1);
      } else {
        assert before + [] == before;
      }
    }
  }

  lemma {:induction false} FirstOfAll(ps: seq<PeerCtx>)
    ensures FirstOf(ps, |ps|) == All(ps)
  {
    assert forall i :: 0 <= i < |ps| ==> ps[i] in ps;
  }

  /** After a round, exactly these have been told to unchoke: those told before,
      except the unchoked ones whose id is not among the best, and the best whose
      flag says choked. */
  lemma {:induction false} UnchokeTold(s: Slots, best: seq<PeerCtx>, choking: set<PeerCtx>)
    ensures UnchokeBest(s, best, choking).told ==
      s.told - Dropped(All(s.unchoked), Ids(best)) + All(best) * choking
  {
    var a, b := Chokes(s.unchoked, Ids(best), |s.unchoked|), Unchokes(best, choking, |best|);
    ToldConcat(s.told, a, b, |b|);
    ChokesTold(s.told, s.unchoked, Ids(best), |s.unchoked|);
    UnchokesTold(Told(s.told, a, |a|), best, choking, |best|);
    FirstOfAll(s.unchoked);
    FirstOfAll(best);
  }

  lemma {:induction false} ReleasedTold(s: Slots)
    ensures Told(s.told, Released(s), |Released(s)|) ==
      if s.opt.Some? && s.opt.value.id !in Ids(s.unchoked) then s.told - {s.opt.value} else s.told
  {
    if s.opt.Some? && s.opt.value.id !in Ids(s.unchoked) {
      assert Told(s.told, Released(s), 0) == s.told;
    }
  }

  /** After an optimistic round: those told before, except the old optimistic peer
      if it was released, and the new one, whose id had no regular slot. */
  lemma {:induction false} OptimisticTold(s: Slots, interested: set<PeerCtx>, pick: nat)
    ensures var r := OptimisticUnchoke(s, interested, pick).0;
      && r.connected == s.connected && r.unchoked == s.unchoked
      && r.told == (if s.opt.Some? && s.opt.value.id !in Ids(s.unchoked) then s.told - {s.opt.value} else s.told)
        + (if r.opt.Some? then {r.opt.value} else {})
      && (r.opt.Some? ==> r.opt.value in s.connected && r.opt.value.id !in Ids(s.unchoked))
  {
    var waiting := Waiting(s.connected, SlotIds(s.unchoked, None), interested, |s.connected|);
    WaitingAreConnected(s.connected, SlotIds(s.unchoked, None), interested, |s.connected|);
    ReleasedTold(s);
    if waiting != [] {
      var p := waiting[pick % |waiting|];
      assert p in waiting;
      ToldConcat(s.told, Released(s), [Unchoke(p)], 1);
    }
  }

  lemma {:induction false} WaitingAreConnected(connected: seq<PeerCtx>, taken: set<PeerId>, interested: set<PeerCtx>, k: nat)
    requires k <= |connected|
    ensures forall p :: p in Waiting(connected, taken, interested, k) ==> p in connected && p.id !in taken && p in interested
  {
    if k > 0 {
      WaitingAreConnected(connected, taken, interested, k - 1);
    }
  }

  // ---- slots --------------------------------------------------------------------------------------

  /** Slots are held by connections, at most three of them regular ones. */
  ghost predicate Seated(s: Slots) {
    && |s.unchoked| <= 3
    && (forall p :: p in s.unchoked ==> p in s.connected)
    && (s.opt.Some? ==> s.opt.value in s.connected)
  }

  /** Every connection last told to unchoke holds a slot. */
  ghost predicate Accounted(s: Slots) {
    forall p :: p in s.connected && p in s.told ==> p in s.unchoked || s.opt == Some(p)
  }

  lemma {:induction false} ErrorKeeps(s: Slots, addr: nat)
    ensures Seated(s) ==> Seated(PeerError(s, addr))
    ensures Accounted(s) ==> Accounted(PeerError(s, addr))
  {
    assert s.connected[..|s.connected|] == s.connected && s.unchoked[..|s.unchoked|] == s.unchoked;
  }

  lemma {:induction false} StepKeepsSeats(s: Slots, e: Event, n: nat)
    requires Seated(s)
    ensures Seated(Step(s, e, n))
  {
    match e
    case UnchokeEvent(rate, interested, choking) =>
    case OptimisticEvent(interested, pick) => OptimisticTold(s, interested, pick);
    case ErrorEvent(addr) => ErrorKeeps(s, addr);
    case ConnectEvent(id, addr) =>
  }

  /** Connections are numbered by the event that made them. */
  ghost function Run(es: seq<Event>, k: nat): (s: Slots)
    requires k <= |es|
    ensures Seated(s)
  {
    if k == 0 then Slots([], [], None, {}) else
      StepKeepsSeats(Run(es, k - 1), es[k - 1], k - 1);
      Step(Run(es, k - 1), es[k - 1], k - 1)
  }

  // ---- exactly when rounds keep the account ---------------------------------------------------------

  /** No connection told to unchoke loses its only slot while another connection
      with the same id is among the best. */
  ghost predicate NoTwinTakesOver(s: Slots, best: seq<PeerCtx>) {
    forall p :: p in s.unchoked && p in s.told && p !in best && s.opt != Some(p) ==> p.id !in Ids(best)
  }

  /** A regular round keeps the account if and only if no regular slot passes from
      one connection to another with the same id: the one that loses it is then
      not choked, because peers are compared by id. */
  lemma {:induction false} UnchokeAccountedIff(s: Slots, best: seq<PeerCtx>, choking: set<PeerCtx>)
    requires Seated(s) && Accounted(s) && forall p :: p in best ==> p in s.connected
    ensures Accounted(UnchokeBest(s, best, choking)) <==> NoTwinTakesOver(s, best)
  {
    var r := UnchokeBest(s, best, choking);
    UnchokeTold(s, best, choking);
    if NoTwinTakesOver(s, best) {
      forall p | p in r.connected && p in r.told ensures p in r.unchoked || r.opt == Some(p) {
        assert p in All(best) || (p in s.told && p !in Dropped(All(s.unchoked), Ids(best)));
      }
    }
    if Accounted(r) {
      forall p | p in s.unchoked && p in s.told && p !in best && s.opt != Some(p) ensures p.id !in Ids(best) {
        assert p.id in Ids(best) ==> p in r.told;
      }
    }
  }

  /** The old optimistic peer, if it was told to unchoke and has no regular slot of
      its own, shares its id with no holder of a regular slot. */
  ghost predicate NoTwinStays(s: Slots) {
    s.opt.Some? && s.opt.value in s.told && s.opt.value !in s.unchoked ==> s.opt.value.id !in Ids(s.unchoked)
  }

  /** An optimistic round keeps the account if and only if the old optimistic peer
      is not spared because another connection with its id has a regular slot. */
  lemma {:induction false} OptimisticAccountedIff(s: Slots, interested: set<PeerCtx>, pick: nat)
    requires Seated(s) && Accounted(s)
    ensures Accounted(OptimisticUnchoke(s, interested, pick).0) <==> NoTwinStays(s)
  {
    var r := OptimisticUnchoke(s, interested, pick).0;
    OptimisticTold(s, interested, pick);
    if Accounted(r) && s.opt.Some? && s.opt.value in s.told && s.opt.value !in s.unchoked {
      var o := s.opt.value;
      assert o.id in Ids(s.unchoked) ==> o in r.told;
    }
  }

  /** The condition of the round, if the event is one. */
  ghost predicate Clean(s: Slots, e: Event) {
    match e
    case UnchokeEvent(rate, interested, _) => NoTwinTakesOver(s, BestDownloaders(s.connected, rate, interested))
    case OptimisticEvent(_, _) => NoTwinStays(s)
    case _ => true
  }

  lemma {:induction false} StepAccountedIff(s: Slots, e: Event, n: nat)
    requires Seated(s) && Accounted(s)
    ensures Accounted(Step(s, e, n)) <==> Clean(s, e)
  {
    match e
    case UnchokeEvent(rate, interested, choking) =>
      UnchokeAccountedIff(s, BestDownloaders(s.connected, rate, interested), choking);
    case OptimisticEvent(interested, pick) => OptimisticAccountedIff(s, interested, pick);
    case ErrorEvent(addr) => ErrorKeeps(s, addr);
    case ConnectEvent(id, addr) =>
  }

  // ---- whole runs -----------------------------------------------------------------------------------

  /** The account is right in the first `k` states after the start. */
  ghost predicate AlwaysAccounted(es: seq<Event>, k: nat)
    requires k <= |es|
  {
    k == 0 || (AlwaysAccounted(es, k - 1) && Accounted(Run(es, k)))
  }

  ghost predicate AllClean(es: seq<Event>, k: nat)
    requires k <= |es|
  {
    k == 0 || (AllClean(es, k - 1) && Clean(Run(es, k - 1), es[k - 1]))
  }

  lemma {:induction false} AccountedAtStart(es: seq<Event>)
    ensures Accounted(Run(es, 0))
  {
  }

  /** In every state of a run every connection last told to unchoke holds a slot if
      and only if every round of the run is clean. */
  lemma {:induction false} AlwaysAccountedIff(es: seq<Event>, k: nat)
    requires k <= |es|
    ensures AlwaysAccounted(es, k) <==> AllClean(es, k)
    ensures AllClean(es, k) ==> Accounted(Run(es, k))
  {
    hide Step, Clean, Accounted, Seated;
    if k == 0 {
      AccountedAtStart(es);
    } else {
      AlwaysAccountedIff(es, k - 1);
      if AllClean(es, k - 1) {
        StepAccountedIff(Run(es, k - 1), es[k - 1], k - 1);
      }
    }
  }

  lemma {:induction false} UnaccountedIsUnclean(es: seq<Event>, k: nat)
    requires k <= |es| && !Accounted(Run(es, k))
    ensures !AllClean(es, k)
  {
    AlwaysAccountedIff(es, k);
  }

  lemma {:induction false} PeersAreFew(ps: seq<PeerCtx>)
    ensures |All(ps)| <= |ps|
  {
    if ps != [] {
      var n := |ps| - 1;
      PeersAreFew(ps[..n]);
      assert ps == ps[..n] + [ps[n]];
      assert All(ps) == All(ps[..n]) + {ps[n]};
    }
  }

  lemma {:induction false} SubsetIsSmaller(a: set<PeerCtx>, b: set<PeerCtx>)
    requires a <= b
    ensures |a| <= |b|
  {
    assert b == a + (b - a);
  }

  /** After every run with clean rounds at most four connections have been told
      that they may download. */
  lemma {:induction false} AtMostFourUnchoked(es: seq<Event>, k: nat)
    requires k <= |es| && AllClean(es, k)
    ensures var s := Run(es, k); Accounted(s) && |s.told * All(s.connected)| <= 4
  {
    AlwaysAccountedIff(es, k);
    var s := Run(es, k);
    var held := All(s.unchoked) + if s.opt.Some? then {s.opt.value} else {};
    PeersAreFew(s.unchoked);
    SubsetIsSmaller(s.told * All(s.connected), held);
  }

  /** Ids tell connections apart. */
  ghost predicate DistinctIds(ps: seq<PeerCtx>) {
    forall p, q :: p in ps && q in ps && p.id == q.id ==> p == q
  }

  ghost predicate AlwaysDistinct(es: seq<Event>, k: nat)
    requires k <= |es|
  {
    DistinctIds(Run(es, k).connected) && (k > 0 ==> AlwaysDistinct(es, k - 1))
  }

  lemma {:induction false} DistinctIsClean(s: Slots, e: Event)
    requires Seated(s) && DistinctIds(s.connected)
    ensures Clean(s, e)
  {
  }

  /** If no two connections ever carry the same id, all rounds are clean: then every
      connection last told to unchoke holds a slot, and there are at most four. */
  lemma {:induction false} DistinctIdsAreAccounted(es: seq<Event>, k: nat)
    requires k <= |es| && AlwaysDistinct(es, k)
    ensures AllClean(es, k)
    ensures var s := Run(es, k); Accounted(s) && |s.told * All(s.connected)| <= 4
  {
    hide Step, Clean, Accounted, Seated, DistinctIds;
    if k > 0 {
      DistinctIdsAreAccounted(es, k - 1);
      DistinctIsClean(Run(es, k - 1), es[k - 1]);
    }
    AtMostFourUnchoked(es, k);
  }

  // ---- the converse -----------------------------------------------------------------------------------

  ghost predicate SlotsAreTold(s: Slots) {
    (forall p :: p in s.unchoked ==> p in s.told) && (s.opt.Some? ==> s.opt.value in s.told)
  }

  /** The converse can fail: after a round everybody in a slot has been told to
      unchoke exactly if the best peers not told before have an up-to-date flag
      saying that we choke them, and the optimistic peer did not just lose a
      regular slot it held at the same time. */
  lemma {:induction false} SlotsAreToldIff(s: Slots, best: seq<PeerCtx>, choking: set<PeerCtx>)
    ensures SlotsAreTold(UnchokeBest(s, best, choking)) <==>
      && (forall p :: p in best ==> p in s.told || p in choking)
      && (s.opt.Some? && s.opt.value !in best ==>
        s.opt.value in s.told && (s.opt.value in s.unchoked ==> s.opt.value.id in Ids(best)))
  {
    var r := UnchokeBest(s, best, choking);
    UnchokeTold(s, best, choking);
    assert forall p :: p in best ==> p.id in Ids(best);
    if SlotsAreTold(r) {
      forall p | p in best ensures p in s.told || p in choking {
        assert p in r.told;
      }
    }
  }
}
