/** Ranking the connected peers in a fixed buffer, and the torrent's unchoke slots
    changed in place. */
module Choking {
  import opened Basics
  import opened ChokingModel

  /** Move the entry at `last` up to its place among the entries before it. */
  method BubbleUp(buffer: array<Entry>, last: nat, asc: bool)
    requires last < buffer.Length
    modifies buffer
    ensures buffer[..last + 1] == Insert(asc, old(buffer[..last]), old(buffer[last]))
    ensures forall j :: last < j < buffer.Length ==> buffer[j] == old(buffer[j])
  {
    ghost var s, x := buffer[..last], buffer[last];
    var pos := last;
    while pos > 0 && Better(asc, buffer[pos], buffer[pos - 1])
      invariant pos <= last
      invariant buffer[pos] == x
      invariant forall i :: 0 <= i < pos ==> buffer[i] == s[i]
      invariant forall i :: pos < i <= last ==> buffer[i] == s[i - 1]
      invariant forall j :: last < j < buffer.Length ==> buffer[j] == old(buffer[j])
      invariant forall i :: pos <= i < last ==> Better(asc, x, s[i])
    {
      buffer[pos], buffer[pos - 1] := buffer[pos - 1], buffer[pos];
      pos := pos - 1;
    }
    InsertAt(asc, s, x, pos);
    assert buffer[..last + 1] == s[..pos] + [x] + s[pos..];
  }

  /** Put a new entry into the first `len` of `n` places, or in place of the last
      one if they are full and it is better. */
  method Place(buffer: array<Entry>, len: nat, n: nat, x: Entry, asc: bool) returns (l: nat)
    requires len <= n <= buffer.Length && 0 < n
    modifies buffer
    ensures l <= n && buffer[..l] == Offer(asc, n, old(buffer[..len]), x)
    ensures forall j :: l <= j < buffer.Length ==> buffer[j] == old(buffer[j])
  {
    ghost var s := buffer[..len];
    l := len;
    if len < n {
      buffer[len] := x;
      assert buffer[..len] == s;
      BubbleUp(buffer, len, asc);
      l := len + 1;
    } else if Better(asc, x, buffer[n - 1]) {
      buffer[n - 1] := x;
      assert buffer[..n - 1] == s[..n - 1];
      BubbleUp(buffer, n - 1, asc);
    }
  }

  /** Positions of the first three peers by rate. */
  method SortPeersByRate(rates: seq<nat>, interested: seq<bool>, skip: bool, asc: bool) returns (best: seq<nat>)
    requires |rates| == |interested|
    ensures best == SortedByRate(rates, interested, skip, asc)
  {
    if rates == [] {
      return [];
    }
    var n := Min(3, |rates|);
    var buffer := new Entry[3](_ => (0, 0));
    var len: nat := 0;
    for i := 0 to |rates|
      invariant len <= n
      invariant buffer[..len] == Top(rates, interested, skip, asc, n, i)
      invariant forall j :: len <= j < 3 ==> buffer[j] == (0, 0)
    {
      if skip && !interested[i] {
        continue;
      }
      len := Place(buffer, len, n, (rates[i], i), asc);
    }
    best := [];
    for j := 0 to n
      invariant best == Positions(buffer[..j])
    {
      best := best + [buffer[j].1];
    }
    assert best == Positions(buffer[..len]) + seq(n - len, _ => 0);
  }

  class Choker {
    var connected: seq<PeerCtx>
    var unchoked: seq<PeerCtx>
    var opt: Option<PeerCtx>
    ghost var told: set<PeerCtx>

    ghost function State(): Slots
      reads this
    {
      Slots(connected, unchoked, opt, told)
    }

    /** Give the regular slots to the best interested downloaders. The rates, the
        interest of each connected peer and the flags saying whom we choke are
        read from the peers. */
    method Unchoke(rate: PeerCtx -> nat, interested: set<PeerCtx>, choking: set<PeerCtx>) returns (cmds: seq<Command>)
      modifies this
      ensures var best := BestDownloaders(old(connected), rate, interested);
        && cmds == UnchokeCommands(old(State()), best, choking)
        && State() == UnchokeBest(old(State()), best, choking)
    {
      var rates, wants := Rates(connected, rate), Wants(connected, interested);
      SortedPositions(rates, wants, true, false);
      var positions := SortPeersByRate(rates, wants, true, false);
      var best := At(connected, positions);
      cmds := [];
      for i := 0 to |unchoked|
        invariant cmds == Chokes(unchoked, Ids(best), i)
      {
        if unchoked[i].id !in Ids(best) {
          cmds := cmds + [Choke(unchoked[i])];
        }
      }
      ghost var chokes := cmds;
      for i := 0 to |best|
        invariant cmds == chokes + Unchokes(best, choking, i)
      {
        if best[i] in choking {
          cmds := cmds + [Command.Unchoke(best[i])];
        }
      }
      unchoked := best;
      told := Told(told, cmds, |cmds|);
    }

    method ChokedInterestedPeers(interested: set<PeerCtx>) returns (waiting: seq<PeerCtx>)
      ensures waiting == Waiting(connected, SlotIds(unchoked, opt), interested, |connected|)
    {
      waiting := [];
      for i := 0 to |connected|
        invariant waiting == Waiting(connected, SlotIds(unchoked, opt), interested, i)
      {
        var p := connected[i];
        if p.id in Ids(unchoked) || (opt.Some? && opt.value.id == p.id) {
          continue;
        }
        if p in interested {
          waiting := waiting + [p];
        }
      }
    }

    /** `pick` is the random choice among the peers waiting. */
    method OptimisticUnchoke(interested: set<PeerCtx>, pick: nat) returns (cmds: seq<Command>)
      modifies this
      ensures (State(), cmds) == ChokingModel.OptimisticUnchoke(old(State()), interested, pick)
    {
      cmds := [];
      if opt.Some? {
        if opt.value.id !in Ids(unchoked) {
          cmds := [Choke(opt.value)];
        }
        opt := None;
      }
      var waiting := ChokedInterestedPeers(interested);
      if waiting != [] {
        var p := waiting[pick % |waiting|];
        cmds := cmds + [Command.Unchoke(p)];
        opt := Some(p);
      }
      told := Told(told, cmds, |cmds|);
    }

    method PeerError(addr: nat)
      modifies this
      ensures State() == ChokingModel.PeerError(old(State()), addr)
    {
      connected := NotAt(connected, addr, |connected|);
      unchoked := NotAt(unchoked, addr, |unchoked|);
      if opt.Some? && opt.value.addr == addr {
        opt := None;
      }
    }

    method PeerConnected(p: PeerCtx)
      modifies this
      ensures State() == ChokingModel.PeerConnected(old(State()), p)
    {
      connected := connected + [p];
      told := told - {p};
    }
  }
}
