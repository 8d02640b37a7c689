/** Runs with two connections from one remote that break the account of the slots:
    peers are compared by id, so the twin that loses its slot to the other is never
    choked. */
module ChokingTwins {
  import opened Basics
  import opened TorrentModel
  import opened ChokingModel
  import opened ChokingRuns

  /** Who takes part: a remote with two connections, three other remotes, and the
      rates of two rounds. In the first the one twin is the fastest, in the second
      the other; `b` and `c` follow in both. */
  datatype Cast = Cast(twin: PeerId, b: PeerId, c: PeerId, d: PeerId, first: PeerCtx -> nat, second: PeerCtx -> nat)
  {
    function A1(): PeerCtx { PeerCtx(0, twin, 1) }
    function A2(): PeerCtx { PeerCtx(1, twin, 2) }
    function B(): PeerCtx { PeerCtx(2, b, 3) }
    function C(): PeerCtx { PeerCtx(3, c, 4) }
    function D(): PeerCtx { PeerCtx(4, d, 5) }

    function Five(): seq<PeerCtx> {
      [A1(), A2(), B(), C(), D()]
    }

    predicate FourIds() {
      twin != b && twin != c && twin != d && b != c && b != d && c != d
    }

    ghost predicate Rated() {
      && first(A1()) > first(B()) > first(C()) > first(A2()) && first(C()) > first(D())
      && second(A2()) > second(B()) > second(C()) > second(A1()) && second(C()) > second(D())
    }

    function Round1(): Event {
      UnchokeEvent(first, All(Five()), All(Five()))
    }

    function Round2(): Event {
      UnchokeEvent(second, All(Five()), {A2(), D()})
    }

    function Round3(): Event {
      OptimisticEvent(All(Five()), 0)
    }

    /** Everybody connects and is interested; two regular rounds and an optimistic
        one follow. */
    function Events(): seq<Event> {
      [ConnectEvent(twin, 1), ConnectEvent(twin, 2), ConnectEvent(b, 3), ConnectEvent(c, 4), ConnectEvent(d, 5),
       Round1(), Round2(), Round3()]
    }

    function S5(): Slots { Slots(Five(), [], None, {}) }
    function S6(): Slots { Slots(Five(), [A1(), B(), C()], None, {A1(), B(), C()}) }
    function S7(): Slots { Slots(Five(), [A2(), B(), C()], None, {A1(), A2(), B(), C()}) }
    function S8(): Slots { Slots(Five(), [A2(), B(), C()], Some(D()), {A1(), A2(), B(), C(), D()}) }
  }

  lemma {:induction false} NextConnects(es: seq<Event>, k: nat, before: seq<PeerCtx>, id: PeerId, addr: nat)
    requires k < |es| && Run(es, k) == Slots(before, [], None, {}) && es[k] == ConnectEvent(id, addr)
    ensures Run(es, k + 1) == Slots(before + [PeerCtx(k, id, addr)], [], None, {})
  {
  }

  lemma {:induction false} FiveConnect(x: Cast)
    ensures Run(x.Events(), 5) == x.S5()
  {
    var es := x.Events();
    assert Run(es, 0) == Slots([], [], None, {});
    hide Run;
    NextConnects(es, 0, [], x.twin, 1);
    NextConnects(es, 1, [x.A1()], x.twin, 2);
    NextConnects(es, 2, [x.A1(), x.A2()], x.b, 3);
    NextConnects(es, 3, [x.A1(), x.A2(), x.B()], x.c, 4);
    NextConnects(es, 4, [x.A1(), x.A2(), x.B(), x.C()], x.d, 5);
    assert [x.A1(), x.A2(), x.B(), x.C()] + [x.D()] == x.Five();
  }

  // ---- who is best -------------------------------------------------------------------------------

  lemma {:induction false} TopNext(rates: seq<nat>, wants: seq<bool>, k: nat, s: seq<Entry>)
    requires |rates| == |wants| && k < |rates| && wants[k] && Top(rates, wants, true, false, 3, k) == s
    ensures |s| <= 3 && Top(rates, wants, true, false, 3, k + 1) == Offer(false, 3, s, (rates[k], k))
  {
  }

  lemma {:induction false} OfferTwo(one: Entry, two: Entry)
    ensures Offer(false, 3, [], one) == [one]
    ensures Offer(false, 3, [one], two) == if two.0 > one.0 then [two, one] else [one, two]
  {
    assert [one][..0] == [];
    assert Insert(false, [], two) == [two];
  }

  lemma {:induction false} FirstTwo(rates: seq<nat>, wants: seq<bool>, fast: nat)
    requires |rates| == |wants| == 5 && (forall i :: 0 <= i < 5 ==> wants[i])
    requires fast < 2 && rates[fast] > rates[1 - fast]
    ensures Top(rates, wants, true, false, 3, 2) == [(rates[fast], fast), (rates[1 - fast], 1 - fast)]
  {
    assert Top(rates, wants, true, false, 3, 0) == [];
    hide Top, Offer;
    TopNext(rates, wants, 0, []);
    OfferTwo((rates[0], 0), (rates[1], 1));
    TopNext(rates, wants, 1, [(rates[0], 0)]);
  }

  lemma {:induction false} OfferThree(one: Entry, none: Entry, b: Entry, c: Entry, d: Entry)
    requires one.0 > b.0 > c.0 > none.0 && c.0 > d.0
    ensures Offer(false, 3, [one, none], b) == [one, b, none]
    ensures Offer(false, 3, [one, b, none], c) == [one, b, c]
    ensures Offer(false, 3, [one, b, c], d) == [one, b, c]
  {
    assert [one, none][..1] == [one];
    assert Insert(false, [one], b) == [one, b];
    assert [one, b, none][..2] == [one, b];
  }

  lemma {:induction false} TopOfFive(rates: seq<nat>, wants: seq<bool>, fast: nat)
    requires |rates| == |wants| == 5 && (forall i :: 0 <= i < 5 ==> wants[i])
    requires fast < 2 && rates[fast] > rates[2] > rates[3] > rates[1 - fast] && rates[3] > rates[4]
    ensures SortedByRate(rates, wants, true, false) == [fast, 2, 3]
  {
    var one: Entry, none: Entry := (rates[fast], fast), (rates[1 - fast], 1 - fast);
    var b: Entry, c: Entry := (rates[2], 2), (rates[3], 3);
    hide Top, Offer;
    FirstTwo(rates, wants, fast);
    OfferThree(one, none, b, c, (rates[4], 4));
    TopNext(rates, wants, 2, [one, none]);
    TopNext(rates, wants, 3, [one, b, none]);
    TopNext(rates, wants, 4, [one, b, c]);
  }

  lemma {:induction false} BestOfFive(x: Cast, rate: PeerCtx -> nat, fast: nat)
    requires fast < 2
    requires rate(x.Five()[fast]) > rate(x.B()) > rate(x.C()) > rate(x.Five()[1 - fast]) && rate(x.C()) > rate(x.D())
    ensures BestDownloaders(x.Five(), rate, All(x.Five())) == [x.Five()[fast], x.B(), x.C()]
  {
    var rates, wants := Rates(x.Five(), rate), Wants(x.Five(), All(x.Five()));
    assert forall i :: 0 <= i < 5 ==> wants[i] && rates[i] == rate(x.Five()[i]);
    hide Rates, Wants, SortedByRate;
    TopOfFive(rates, wants, fast);
  }

  // ---- the rounds ----------------------------------------------------------------------------------

  lemma {:induction false} FirstRound(x: Cast)
    ensures UnchokeBest(x.S5(), [x.A1(), x.B(), x.C()], All(x.Five())) == x.S6()
  {
    UnchokeTold(x.S5(), [x.A1(), x.B(), x.C()], All(x.Five()));
    assert All([x.A1(), x.B(), x.C()]) == {x.A1(), x.B(), x.C()};
    assert {x.A1(), x.B(), x.C()} * All(x.Five()) == {x.A1(), x.B(), x.C()} by {
      assert x.A1() in x.Five() && x.B() in x.Five() && x.C() in x.Five();
    }
    assert Dropped(All(x.S5().unchoked), Ids([x.A1(), x.B(), x.C()])) == {};
  }

  lemma {:induction false} SecondRound(x: Cast)
    requires x.FourIds()
    ensures UnchokeBest(x.S6(), [x.A2(), x.B(), x.C()], {x.A2(), x.D()}) == x.S7()
  {
    var best := [x.A2(), x.B(), x.C()];
    UnchokeTold(x.S6(), best, {x.A2(), x.D()});
    assert All(best) == {x.A2(), x.B(), x.C()};
    assert best[0] in best && best[1] in best && best[2] in best;
    assert All(x.S6().unchoked) == {x.A1(), x.B(), x.C()};
    assert Dropped({x.A1(), x.B(), x.C()}, Ids(best)) == {};
  }

  lemma {:induction false} OnlyOneWaits(x: Cast)
    requires x.FourIds()
    ensures Waiting(x.Five(), Ids([x.A2(), x.B(), x.C()]), All(x.Five()), 5) == [x.D()]
  {
    var five, best := x.Five(), [x.A2(), x.B(), x.C()];
    var taken := Ids(best);
    assert best[0] in best && best[1] in best && best[2] in best;
    assert x.A2().id in taken && x.A1().id in taken && x.B().id in taken && x.C().id in taken;
    assert five[4] in five && x.D().id !in taken;
    assert Waiting(five, taken, All(five), 0) == [];
    assert Waiting(five, taken, All(five), 1) == [];
    assert Waiting(five, taken, All(five), 2) == [];
    assert Waiting(five, taken, All(five), 3) == [];
    assert Waiting(five, taken, All(five), 4) == [];
  }

  lemma {:induction false} LastRound(x: Cast)
    requires x.FourIds()
    ensures OptimisticUnchoke(x.S7(), All(x.Five()), 0).0 == x.S8()
  {
    OnlyOneWaits(x);
    assert SlotIds(x.S7().unchoked, None) == Ids([x.A2(), x.B(), x.C()]);
    OptimisticTold(x.S7(), All(x.Five()), 0);
  }

  lemma {:induction false} RunNext(es: seq<Event>, k: nat, s: Slots, e: Event, r: Slots)
    requires k < |es| && Run(es, k) == s && es[k] == e && Step(s, e, k) == r
    ensures Run(es, k + 1) == r
  {
  }

  lemma {:induction false} FirstStep(x: Cast)
    requires x.Rated()
    ensures Step(x.S5(), x.Round1(), 5) == x.S6()
  {
    BestOfFive(x, x.first, 0);
    FirstRound(x);
  }

  lemma {:induction false} SecondStep(x: Cast)
    requires x.FourIds() && x.Rated()
    ensures Step(x.S6(), x.Round2(), 6) == x.S7()
  {
    BestOfFive(x, x.second, 1);
    SecondRound(x);
  }

  lemma {:induction false} RunTo7(x: Cast)
    requires x.FourIds() && x.Rated()
    ensures Run(x.Events(), 7) == x.S7()
  {
    hide Step, Run;
    FiveConnect(x);
    FirstStep(x);
    RunNext(x.Events(), 5, x.S5(), x.Round1(), x.S6());
    SecondStep(x);
    RunNext(x.Events(), 6, x.S6(), x.Round2(), x.S7());
  }

  lemma {:induction false} RunTo8(x: Cast)
    requires x.FourIds() && x.Rated()
    ensures Run(x.Events(), 8) == x.S8()
  {
    RunTo7(x);
    LastRound(x);
    hide Run;
    RunNext(x.Events(), 7, x.S7(), x.Round3(), x.S8());
  }

  lemma {:induction false} FiveTold(x: Cast)
    ensures x.S8().told * All(x.S8().connected) == {x.A1(), x.A2(), x.B(), x.C(), x.D()}
  {
    var five := x.Five();
    assert five[0] in five && five[1] in five && five[2] in five && five[3] in five && five[4] in five;
  }

  lemma {:induction false} TwinUnaccounted(x: Cast)
    ensures !Accounted(x.S7())
  {
    assert x.Five()[0] in x.Five() && x.A1() in x.S7().told && x.A1() !in x.S7().unchoked;
  }

  /** Two connections with one id and three other peers: after these runs all five
      have been told that they may download, although there are only four slots. */
  lemma {:induction false} TwinsMakeFive(x: Cast)
    requires x.FourIds() && x.Rated()
    ensures var s := Run(x.Events(), 8);
      s.told * All(s.connected) == {x.A1(), x.A2(), x.B(), x.C(), x.D()} && |s.told * All(s.connected)| == 5
    ensures !AllClean(x.Events(), 7)
  {
    hide Run, Step, Accounted, AllClean;
    RunTo8(x);
    FiveTold(x);
    RunTo7(x);
    TwinUnaccounted(x);
    UnaccountedIsUnclean(x.Events(), 7);
  }
}
