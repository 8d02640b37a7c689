/** Which peers the torrent uploads to: the top three by rate, kept in a small
    sorted buffer, and the unchoke slots. */
module ChokingModel {
  import opened Basics
  import opened TorrentModel

  // ---- the sorted buffer ----------------------------------------------------------------

  /** A rate and the position of the peer it was read from. */
  type Entry = (nat, nat)

  predicate Better(asc: bool, x: Entry, y: Entry) {
    if asc then x.0 < y.0 else x.0 > y.0
  }

  /** The order of the result: by rate, and earlier peers first at equal rates. */
  predicate Before(asc: bool, x: Entry, y: Entry) {
    Better(asc, x, y) || (x.0 == y.0 && x.1 < y.1)
  }

  /** `x` moves up past every entry it is strictly better than. */
  function Insert(asc: bool, s: seq<Entry>, x: Entry): (r: seq<Entry>)
    ensures |r| == |s| + 1
  {
    if s == [] || !Better(asc, x, s[|s| - 1]) then
      s + [x]
    else
      Insert(asc, s[..|s| - 1], x) + [s[|s| - 1]]
  }

  /** Keep at most `n` entries: while there is room a new entry is inserted, then
      it replaces the last one if it is strictly better. */
  function Offer(asc: bool, n: nat, s: seq<Entry>, x: Entry): (r: seq<Entry>)
    requires 0 < n && |s| <= n
    ensures |r| == if |s| < n then |s| + 1 else n
  {
    if |s| < n then Insert(asc, s, x)
    else if Better(asc, x, s[n - 1]) then Insert(asc, s[..n - 1], x)
    else s
  }

  /** The buffer after the first `k` peers; `skip` ignores the uninterested. */
  function Top(rates: seq<nat>, interested: seq<bool>, skip: bool, asc: bool, n: nat, k: nat): (r: seq<Entry>)
    requires |rates| == |interested| && k <= |rates| && 0 < n
    ensures |r| == Min(n, Candidates(interested, skip, k))
  {
    if k == 0 then
      []
    else if skip && !interested[k - 1] then
      Top(rates, interested, skip, asc, n, k - 1)
    else
      Offer(asc, n, Top(rates, interested, skip, asc, n, k - 1), (rates[k - 1], k - 1))
  }

  function Candidates(interested: seq<bool>, skip: bool, k: nat): (c: nat)
    requires k <= |interested|
    ensures c <= k
  {
    if k == 0 then 0 else
      Candidates(interested, skip, k - 1) + if skip && !interested[k - 1] then 0 else 1
  }

  function Positions(s: seq<Entry>): (r: seq<nat>)
    ensures |r| == |s|
  {
    seq(|s|, i requires 0 <= i < |s| => s[i].1)
  }

  /** The positions of the peers returned: the buffer starts out zeroed, so slots
      that were never filled name peer 0. */
  function SortedByRate(rates: seq<nat>, interested: seq<bool>, skip: bool, asc: bool): (r: seq<nat>)
    requires |rates| == |interested|
    ensures |r| == Min(3, |rates|)
  {
    if rates == [] then [] else
      var n := Min(3, |rates|);
      var top := Top(rates, interested, skip, asc, n, |rates|);
      Positions(top) + seq(n - |top|, _ => 0)
  }

  // ---- what the buffer holds ---------------------------------------------------------------

  ghost predicate Ordered(asc: bool, s: seq<Entry>) {
    forall i, j :: 0 <= i < j < |s| ==> Before(asc, s[i], s[j])
  }

  lemma {:induction false} InsertAt(asc: bool, s: seq<Entry>, x: Entry, pos: nat)
    requires pos <= |s| && (pos > 0 ==> !Better(asc, x, s[pos - 1]))
    requires forall i :: pos <= i < |s| ==> Better(asc, x, s[i])
    ensures Insert(asc, s, x) == s[..pos] + [x] + s[pos..]
  {
    if pos < |s| {
      var front := s[..|s| - 1];
      InsertAt(asc, front, x, pos);
      assert front[..pos] == s[..pos];
      assert front[pos..] + [s[|s| - 1]] == s[pos..];
    } else {
      assert s[..pos] == s && s[pos..] == [];
    }
  }

  lemma {:induction false} InsertKeepsOrder(asc: bool, s: seq<Entry>, x: Entry)
    requires Ordered(asc, s) && forall e :: e in s ==> e.1 < x.1
    ensures Ordered(asc, Insert(asc, s, x))
    ensures forall e :: e in Insert(asc, s, x) <==> e in s || e == x
  {
    if s != [] {
      var front, last := s[..|s| - 1], s[|s| - 1];
      assert s == front + [last];
      if Better(asc, x, last) {
        InsertKeepsOrder(asc, front, x);
        var r := Insert(asc, front, x);
        forall i | 0 <= i < |r| ensures Before(asc, r[i], last) {
          assert r[i] in r;
        }
      } else {
        forall i | 0 <= i < |s| ensures Before(asc, s[i], x) {
          assert s[i] in s;
        }
      }
    }
  }

  predicate Eligible(interested: seq<bool>, skip: bool, i: nat) {
    i < |interested| && (skip ==> interested[i])
  }

  /** The entries are the best of the first `k` eligible peers: in order, each with
      its own rate, and every eligible peer left out comes after all of them. */
  ghost predicate Best(rates: seq<nat>, interested: seq<bool>, skip: bool, asc: bool, n: nat, k: nat, s: seq<Entry>)
    requires |rates| == |interested|
  {
    && Ordered(asc, s)
    && (forall e :: e in s ==> e.1 < k && Eligible(interested, skip, e.1) && e.0 == rates[e.1])
    && (forall i :: 0 <= i < k && Eligible(interested, skip, i) ==>
      (rates[i], i) in s || (|s| == n && forall e :: e in s ==> Before(asc, e, (rates[i], i))))
  }

  /** The entry pushed out comes after everything that stays, and so does whatever
      was left out before. */
  lemma {:induction false} ReplaceKeepsBest(rates: seq<nat>, interested: seq<bool>, skip: bool, asc: bool, n: nat, k: nat, s: seq<Entry>)
    requires |rates| == |interested| && k < |rates| && 0 < n == |s|
    requires Best(rates, interested, skip, asc, n, k, s) && Eligible(interested, skip, k)
    requires Better(asc, (rates[k], k), s[n - 1])
    ensures Best(rates, interested, skip, asc, n, k + 1, Insert(asc, s[..n - 1], (rates[k], k)))
  {
    var x, kept, last := (rates[k], k), s[..n - 1], s[n - 1];
    assert s == kept + [last] && last in s;
    InsertKeepsOrder(asc, kept, x);
    var r := Insert(asc, kept, x);
    assert forall e :: e in r ==> Before(asc, e, last);
    forall i | 0 <= i < k + 1 && Eligible(interested, skip, i) && (rates[i], i) !in r
      ensures forall e :: e in r ==> Before(asc, e, (rates[i], i))
    {
      assert i < k;
      assert (rates[i], i) == last || Before(asc, last, (rates[i], i));
    }
  }

  lemma {:induction false} OfferKeepsBest(rates: seq<nat>, interested: seq<bool>, skip: bool, asc: bool, n: nat, k: nat, s: seq<Entry>)
    requires |rates| == |interested| && k < |rates| && 0 < n && |s| <= n
    requires Best(rates, interested, skip, asc, n, k, s) && Eligible(interested, skip, k)
    ensures Best(rates, interested, skip, asc, n, k + 1, Offer(asc, n, s, (rates[k], k)))
  {
    var x := (rates[k], k);
    if |s| < n {
      InsertKeepsOrder(asc, s, x);
    } else if Better(asc, x, s[n - 1]) {
      ReplaceKeepsBest(rates, interested, skip, asc, n, k, s);
    } else {
      forall e | e in s ensures Before(asc, e, x) {
        assert e == s[n - 1] || Before(asc, e, s[n - 1]);
      }
    }
  }

  lemma {:induction false} SkipKeepsBest(rates: seq<nat>, interested: seq<bool>, skip: bool, asc: bool, n: nat, k: nat, s: seq<Entry>)
    requires |rates| == |interested| && k < |rates|
    requires Best(rates, interested, skip, asc, n, k, s) && !Eligible(interested, skip, k)
    ensures Best(rates, interested, skip, asc, n, k + 1, s)
  {
  }

  lemma {:induction false} NothingIsBest(rates: seq<nat>, interested: seq<bool>, skip: bool, asc: bool, n: nat)
    requires |rates| == |interested|
    ensures Best(rates, interested, skip, asc, n, 0, [])
  {
  }

  /** The buffer always holds the best candidates seen so far. */
  lemma {:induction false} TopIsBest(rates: seq<nat>, interested: seq<bool>, skip: bool, asc: bool, n: nat, k: nat)
    requires |rates| == |interested| && k <= |rates| && 0 < n
    ensures Best(rates, interested, skip, asc, n, k, Top(rates, interested, skip, asc, n, k))
  {
    hide Best, Insert;
    if k == 0 {
      NothingIsBest(rates, interested, skip, asc, n);
    } else {
      var s := Top(rates, interested, skip, asc, n, k - 1);
      TopIsBest(rates, interested, skip, asc, n, k - 1);
      if skip && !interested[k - 1] {
        SkipKeepsBest(rates, interested, skip, asc, n, k - 1, s);
      } else {
        OfferKeepsBest(rates, interested, skip, asc, n, k - 1, s);
      }
    }
  }

  /** What a selection of peers should be: distinct eligible positions in order of
      rate, earlier ones first at equal rates, and nobody better left out. */
  ghost predicate Selection(rates: seq<nat>, interested: seq<bool>, skip: bool, asc: bool, r: seq<nat>)
    requires |rates| == |interested|
  {
    && (forall j :: 0 <= j < |r| ==> r[j] < |rates| && Eligible(interested, skip, r[j]))
    && (forall i, j :: 0 <= i < j < |r| ==> Before(asc, (rates[r[i]], r[i]), (rates[r[j]], r[j])))
    && (forall i, j :: 0 <= i < |rates| && Eligible(interested, skip, i) && i !in r && 0 <= j < |r| ==>
      Before(asc, (rates[r[j]], r[j]), (rates[i], i)))
  }

  /** The result is a proper selection exactly if there are as many eligible peers
      as places; otherwise it repeats peer 0 or names it although it is not eligible. */
  lemma {:induction false} SortedByRateIff(rates: seq<nat>, interested: seq<bool>, skip: bool, asc: bool)
    requires |rates| == |interested|
    ensures Selection(rates, interested, skip, asc, SortedByRate(rates, interested, skip, asc))
      <==> Candidates(interested, skip, |rates|) >= Min(3, |rates|)
  {
    if rates != [] {
      var n := Min(3, |rates|);
      var top := Top(rates, interested, skip, asc, n, |rates|);
      var r := SortedByRate(rates, interested, skip, asc);
      TopIsBest(rates, interested, skip, asc, n, |rates|);
      if |top| < n {
        PaddingIsWrong(rates, interested, skip, asc, top, r);
      } else {
        assert r == Positions(top);
        FullIsSelection(rates, interested, skip, asc, n, top);
      }
    }
  }

  lemma {:induction false} FullIsSelection(rates: seq<nat>, interested: seq<bool>, skip: bool, asc: bool, n: nat, top: seq<Entry>)
    requires |rates| == |interested| && Best(rates, interested, skip, asc, n, |rates|, top)
    ensures Selection(rates, interested, skip, asc, Positions(top))
  {
    var r := Positions(top);
    forall j | 0 <= j < |r| ensures r[j] < |rates| && Eligible(interested, skip, r[j]) && top[j] == (rates[r[j]], r[j]) {
      assert top[j] in top;
    }
    forall i, j | 0 <= i < |rates| && Eligible(interested, skip, i) && i !in r && 0 <= j < |r|
      ensures Before(asc, (rates[r[j]], r[j]), (rates[i], i))
    {
      forall m | 0 <= m < |top| ensures top[m] != (rates[i], i) {
        assert r[m] in r;
      }
      assert top[j] in top;
    }
  }

  lemma {:induction false} PaddingIsWrong(rates: seq<nat>, interested: seq<bool>, skip: bool, asc: bool, top: seq<Entry>, r: seq<nat>)
    requires |rates| == |interested| && 0 < |rates| && |top| < Min(3, |rates|)
    requires Best(rates, interested, skip, asc, Min(3, |rates|), |rates|, top)
    requires r == Positions(top) + seq(Min(3, |rates|) - |top|, _ => 0)
    ensures !Selection(rates, interested, skip, asc, r)
  {
    assert r[|top|] == 0;
    if Eligible(interested, skip, 0) {
      assert (rates[0], 0) in top;
      var m :| 0 <= m < |top| && top[m] == (rates[0], 0);
      assert r[m] == 0;
      assert !Before(asc, (rates[r[m]], r[m]), (rates[r[|top|]], r[|top|]));
    }
  }

  lemma {:induction false} SortedPositions(rates: seq<nat>, interested: seq<bool>, skip: bool, asc: bool)
    requires |rates| == |interested|
    ensures var r := SortedByRate(rates, interested, skip, asc); forall i :: 0 <= i < |r| ==> r[i] < |rates|
  {
    if rates != [] {
      var n := Min(3, |rates|);
      var top := Top(rates, interested, skip, asc, n, |rates|);
      TopIsBest(rates, interested, skip, asc, n, |rates|);
      forall j | 0 <= j < |top| ensures top[j].1 < |rates| {
        assert top[j] in top;
      }
    }
  }

  // ---- unchoke slots ---------------------------------------------------------------------

  /** A connection: its number, the id the remote gave in its handshake, and its
      address. Two connections can carry the same id. */
  datatype PeerCtx = PeerCtx(conn: nat, id: PeerId, addr: nat)

  datatype Command = Choke(peer: PeerCtx) | Unchoke(peer: PeerCtx)

  /** `told` holds the connections whose last command from the torrent was to
      unchoke. */
  datatype Slots = Slots(connected: seq<PeerCtx>, unchoked: seq<PeerCtx>, opt: Option<PeerCtx>, told: set<PeerCtx>)

  function Ids(ps: seq<PeerCtx>): set<PeerId> {
    set p | p in ps :: p.id
  }

  /** The connections told to unchoke after the first `k` of some commands. */
  function Told(told: set<PeerCtx>, cmds: seq<Command>, k: nat): set<PeerCtx>
    requires k <= |cmds|
  {
    if k == 0 then told else
      match cmds[k - 1]
      case Choke(p) => Told(told, cmds, k - 1) - {p}
      case Unchoke(p) => Told(told, cmds, k - 1) + {p}
  }

  function At(ps: seq<PeerCtx>, positions: seq<nat>): (r: seq<PeerCtx>)
    requires forall i :: 0 <= i < |positions| ==> positions[i] < |ps|
    ensures |r| == |positions|
    ensures forall p :: p in r ==> p in ps
  {
    seq(|positions|, i requires 0 <= i < |positions| => ps[positions[i]])
  }

  /** The peers that get the regular slots: the fastest interested ones. */
  function BestDownloaders(connected: seq<PeerCtx>, rate: PeerCtx -> nat, interested: set<PeerCtx>): (best: seq<PeerCtx>)
    ensures |best| <= 3 && forall p :: p in best ==> p in connected
  {
    var rates, wants := Rates(connected, rate), Wants(connected, interested);
    SortedPositions(rates, wants, true, false);
    At(connected, SortedByRate(rates, wants, true, false))
  }

  function Rates(connected: seq<PeerCtx>, rate: PeerCtx -> nat): (r: seq<nat>)
    ensures |r| == |connected|
  {
    seq(|connected|, i requires 0 <= i < |connected| => rate(connected[i]))
  }

  function Wants(connected: seq<PeerCtx>, interested: set<PeerCtx>): (r: seq<bool>)
    ensures |r| == |connected|
  {
    seq(|connected|, i requires 0 <= i < |connected| => connected[i] in interested)
  }

  /** Choke commands for those among the first `k` peers whose id is not kept. */
  function Chokes(ps: seq<PeerCtx>, keep: set<PeerId>, k: nat): seq<Command>
    requires k <= |ps|
  {
    if k == 0 then [] else Chokes(ps, keep, k - 1) + if ps[k - 1].id in keep then [] else [Choke(ps[k - 1])]
  }

  /** Unchoke commands for those among the first `k` peers whose flag says that we
      choke them. */
  function Unchokes(ps: seq<PeerCtx>, choking: set<PeerCtx>, k: nat): seq<Command>
    requires k <= |ps|
  {
    if k == 0 then [] else
      Unchokes(ps, choking, k - 1) + if ps[k - 1] in choking then [Unchoke(ps[k - 1])] else []
  }

  function UnchokeCommands(s: Slots, best: seq<PeerCtx>, choking: set<PeerCtx>): seq<Command> {
    Chokes(s.unchoked, Ids(best), |s.unchoked|) + Unchokes(best, choking, |best|)
  }

  function UnchokeBest(s: Slots, best: seq<PeerCtx>, choking: set<PeerCtx>): Slots {
    var cmds := UnchokeCommands(s, best, choking);
    s.(unchoked := best, told := Told(s.told, cmds, |cmds|))
  }

  /** Interested peers among the first `k` connected ones whose id has no slot yet. */
  function Waiting(connected: seq<PeerCtx>, taken: set<PeerId>, interested: set<PeerCtx>, k: nat): seq<PeerCtx>
    requires k <= |connected|
  {
    if k == 0 then [] else
      var p := connected[k - 1];
      Waiting(connected, taken, interested, k - 1) + if p.id in taken || p !in interested then [] else [p]
  }

  function SlotIds(unchoked: seq<PeerCtx>, opt: Option<PeerCtx>): set<PeerId> {
    Ids(unchoked) + if opt.Some? then {opt.value.id} else {}
  }

  function Released(s: Slots): seq<Command> {
    if s.opt.Some? && s.opt.value.id !in Ids(s.unchoked) then [Choke(s.opt.value)] else []
  }

  /** The old optimistic peer is choked unless its id has a regular slot; one of
      the peers waiting takes its place. */
  function OptimisticUnchoke(s: Slots, interested: set<PeerCtx>, pick: nat): (Slots, seq<Command>) {
    var waiting := Waiting(s.connected, SlotIds(s.unchoked, None), interested, |s.connected|);
    if waiting == [] then
      (s.(opt := None, told := Told(s.told, Released(s), |Released(s)|)), Released(s))
    else
      var p := waiting[pick % |waiting|];
      var cmds := Released(s) + [Unchoke(p)];
      (s.(opt := Some(p), told := Told(s.told, cmds, |cmds|)), cmds)
  }

  function NotAt(ps: seq<PeerCtx>, addr: nat, k: nat): (r: seq<PeerCtx>)
    requires k <= |ps|
    ensures |r| <= k
    ensures forall p :: p in r <==> p in ps[..k] && p.addr != addr
  {
    if k == 0 then [] else
      assert ps[..k] == ps[..k - 1] + [ps[k - 1]];
      NotAt(ps, addr, k - 1) + if ps[k - 1].addr == addr then [] else [ps[k - 1]]
  }

  function PeerError(s: Slots, addr: nat): Slots {
    s.(connected := NotAt(s.connected, addr, |s.connected|),
       unchoked := NotAt(s.unchoked, addr, |s.unchoked|),
       opt := if s.opt.Some? && s.opt.value.addr == addr then None else s.opt)
  }

  /** A new connection has been told nothing yet. */
  function PeerConnected(s: Slots, p: PeerCtx): Slots {
    s.(connected := s.connected + [p], told := s.told - {p})
  }
}
