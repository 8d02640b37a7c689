/** The delay-based window control of the datagram transport. Times are
    microseconds; every method takes the reading of the clock; arithmetic that the
    program does in floating point is over reals here, cut back to 32 bits at the
    places where the program does so. */
module CongestionModel {
  import opened Basics

  const TARGET: real := 100_000.0
  const MIN_TIMEOUT: nat := 500_000
  const MIN_WINDOW: nat := 1500
  const MAX_INCREASE: nat := 3000
  const DECAY_AFTER: nat := 500_000
  const DELAY_WINDOW: nat := 120_000_000
  const U32_MAX: nat := 0xFFFF_FFFF
  const FIRST_WINDOW: nat := 65_536

  /** A clock reading and the delay measured then. */
  type Sample = (nat, nat)

  datatype Control = Control(
    window: nat,
    rtt: nat,
    rttVar: nat,
    timeout: nat,
    lastUpdate: nat,
    lastDecay: nat,
    baseDelay: nat,
    history: seq<Sample>)

  function Fresh(now: nat): Control {
    Control(FIRST_WINDOW, 100_000, 0, MIN_TIMEOUT, now, now, U32_MAX, [])
  }

  /** Conversion of a real to 32 bits: rounded down, kept within range. */
  function ToU32(x: real): (n: nat)
    ensures n <= U32_MAX
  {
    if x < 0.0 then 0 else if x >= 4_294_967_295.0 then U32_MAX else x.Floor
  }

  function MaxReal(a: real, b: real): real {
    if a >= b then a else b
  }

  // ---- base delay ---------------------------------------------------------------------

  predicate Old(s: Sample, now: nat) {
    now - s.0 > DELAY_WINDOW
  }

  /** Old samples are dropped from the front until one is recent. */
  function Recent(h: seq<Sample>, now: nat): seq<Sample> {
    if h != [] && Old(h[0], now) then Recent(h[1..], now) else h
  }

  function Least(h: seq<Sample>): nat {
    if h == [] then U32_MAX else Min(h[0].1, Least(h[1..]))
  }

  function Measure(c: Control, diff: nat, now: nat): Control {
    var h := Recent(c.history + [(now, diff)], now);
    c.(history := h, baseDelay := Least(h))
  }

  // ---- round trip time ------------------------------------------------------------------

  function Abs(x: real): real {
    if x < 0.0 then -x else x
  }

  function NewVar(rtt: real, rttVar: real, packet: real): real {
    rttVar + (Abs(rtt - packet) - rttVar) / 4.0
  }

  function NewRtt(rtt: real, packet: real): real {
    rtt + (packet - rtt) / 8.0
  }

  function UpdateRtt(c: Control, packet: nat, diff: nat, now: nat): Control {
    if packet == 0 then c else
      var rtt := NewRtt(c.rtt as real, packet as real);
      var rttVar := NewVar(c.rtt as real, c.rttVar as real, packet as real);
      Measure(c, diff, now).(rtt := ToU32(rtt), rttVar := ToU32(rttVar),
        timeout := ToU32(MaxReal(rtt + rttVar * 4.0, 500_000.0)))
  }

  // ---- window -----------------------------------------------------------------------------

  function Gain(window: nat, outstanding: nat, delay: int): real {
    var delayFactor := (TARGET - delay as real) / TARGET;
    var windowFactor := outstanding as real / MaxReal(window as real, 1.0);
    3000.0 * delayFactor * windowFactor
  }

  function Elapsed(since: nat, now: nat): nat {
    Max(now - since, 0)
  }

  function PacketLoss(c: Control, now: nat): Control {
    c.(window := ToU32(MaxReal(c.window as real * 0.5, 1500.0)), lastDecay := now)
  }

  function Decay(c: Control, now: nat): Control {
    if Elapsed(c.lastDecay, now) >= DECAY_AFTER then PacketLoss(c, now) else c
  }

  function NewWindow(window: nat, outstanding: nat, delay: int): nat {
    ToU32(MaxReal(window as real + Gain(window, outstanding, delay), 1500.0))
  }

  /** At most one update of the window per round trip; the delay is always recorded. */
  function UpdateWindow(c: Control, outstanding: nat, diff: nat, now: nat): Control {
    var m := Measure(c, diff, now);
    if Elapsed(m.lastUpdate, now) < m.rtt then
      m
    else
      Decay(m.(window := NewWindow(m.window, outstanding, diff - m.baseDelay), lastUpdate := now), now)
  }
}
