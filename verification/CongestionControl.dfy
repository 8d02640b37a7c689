/** The window control as the program keeps it: fields stored into, and a queue of
    delay samples pushed at the back and popped at the front. */
module CongestionControl {
  import opened Basics
  import opened CongestionModel

  class Controller {
    var window: nat
    var rtt: nat
    var rttVar: nat
    var timeout: nat
    var lastUpdate: nat
    var lastDecay: nat
    var baseDelay: nat
    var history: seq<Sample>

    ghost function State(): Control
      reads this
    {
      Control(window, rtt, rttVar, timeout, lastUpdate, lastDecay, baseDelay, history)
    }

    constructor (now: nat)
      ensures State() == Fresh(now)
    {
      window, rtt, rttVar, timeout := FIRST_WINDOW, 100_000, 0, MIN_TIMEOUT;
      lastUpdate, lastDecay, baseDelay, history := now, now, U32_MAX, [];
    }

    method UpdateBaseDelay(diff: nat, now: nat)
      modifies this`history, this`baseDelay
      ensures State() == Measure(old(State()), diff, now)
    {
      history := history + [(now, diff)];
      ghost var all := history;
      while history != [] && Old(history[0], now)
        invariant Recent(history, now) == Recent(all, now)
        decreases |history|
      {
        history := history[1..];
      }
      var least, i := U32_MAX, |history|;
      while i > 0
        invariant 0 <= i <= |history|
        invariant least == Least(history[i..])
      {
        i := i - 1;
        assert history[i..][1..] == history[i + 1..];
        least := Min(history[i].1, least);
      }
      assert history[0..] == history;
      baseDelay := least;
    }

    method UpdateRtt(packet: nat, diff: nat, now: nat)
      modifies this
      ensures State() == CongestionModel.UpdateRtt(old(State()), packet, diff, now)
    {
      if packet == 0 {
        return;
      }
      UpdateBaseDelay(diff, now);
      var newVar := NewVar(rtt as real, rttVar as real, packet as real);
      var newRtt := NewRtt(rtt as real, packet as real);
      rtt, rttVar := ToU32(newRtt), ToU32(newVar);
      timeout := ToU32(MaxReal(newRtt + newVar * 4.0, 500_000.0));
    }

    method UpdateWindow(outstanding: nat, diff: nat, now: nat)
      modifies this
      ensures State() == CongestionModel.UpdateWindow(old(State()), outstanding, diff, now)
    {
      UpdateBaseDelay(diff, now);
      if Elapsed(lastUpdate, now) < rtt {
        return;
      }
      window := NewWindow(window, outstanding, diff - baseDelay);
      lastUpdate := now;
      ApplyWindowDecay(now);
    }

    method ApplyWindowDecay(now: nat)
      modifies this`window, this`lastDecay
      ensures State() == Decay(old(State()), now)
    {
      if Elapsed(lastDecay, now) >= DECAY_AFTER {
        PacketLoss(now);
      }
    }

    method PacketLoss(now: nat)
      modifies this`window, this`lastDecay
      ensures State() == CongestionModel.PacketLoss(old(State()), now)
    {
      window := ToU32(MaxReal(window as real * 0.5, 1500.0));
      lastDecay := now;
    }
  }
}
