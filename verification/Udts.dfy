/** The UDT congestion controller (src/reliability/congestion_controller/udt.rs), with
    floats taken as reals and unsigned subtraction checked, as in a debug build. */
module Udts {
  import opened Basics
  import opened Medians

  const SYN: nat := 10
  const MIN_CWND: nat := 2
  const MAX_CWND: nat := 512
  const DEFAULT_TRANSFER_RATE: real := 0.0036
  const DEFAULT_BYTE_INTERVAL: real := 1.0 / DEFAULT_TRANSFER_RATE
  const INTERVAL_SIZE: nat := 33
  const MAX_SND: real := 500.0

  // ---- the send interval ----

  /** How far `snd` is on its way to the cap: one at 500. */
  function Closeness(snd: real): real {
    (snd + 1.0) * (snd + 1.0) / (501.0 * 501.0)
  }

  function CapMinSnd(snd: real): real {
    if snd > MAX_SND then MAX_SND else snd
  }

  function Stretched(snd: real, closeness: real): real {
    snd * (1.02 - 0.02 * closeness)
  }

  function Shrunk(snd: real, closeness: real): real {
    snd * (0.99 + 0.01 * closeness)
  }

  function Increased(snd: real): real {
    CapMinSnd(Stretched(snd, Closeness(snd)))
  }

  function Decreased(snd: real): real {
    Shrunk(snd, Closeness(snd))
  }

  /** What an honest peer reports: see `UDT.OnSendAck`. */
  type Rate = r: real | r > 0.0 witness 1.0

  predicate IsInterval(snd: real) {
    0.0 < snd <= MAX_SND
  }

  lemma ProductLess(x: real, y: real, z: real)
    requires x > 0.0
    ensures y < z ==> x * y < x * z
    ensures y <= z ==> x * y <= x * z
  {
  }

  lemma FactorBounds(snd: real, c: real)
    requires snd > 0.0 && 0.0 < c <= 1.0
    ensures snd <= Stretched(snd, c) && (c < 1.0 ==> snd < Stretched(snd, c))
    ensures 0.99 * snd < Shrunk(snd, c) <= snd && (c < 1.0 ==> Shrunk(snd, c) < snd)
  {
    ProductLess(snd, 1.0, 1.02 - 0.02 * c);
    ProductLess(snd, 0.99, 0.99 + 0.01 * c);
    ProductLess(snd, 0.99 + 0.01 * c, 1.0);
  }

  lemma ClosenessBounds(snd: real)
    requires IsInterval(snd)
    ensures 0.0 < Closeness(snd) <= 1.0
    ensures snd < MAX_SND ==> Closeness(snd) < 1.0
  {
    var x := snd + 1.0;
    ProductLess(x, 0.0, x);
    ProductLess(x, x, 501.0);
    ProductLess(501.0, x, 501.0);
  }

  /** Increasing never lowers the interval, and below the cap it raises it without
      reaching the cap: the cap itself never bites here. */
  lemma IncreaseRaises(snd: real)
    requires IsInterval(snd)
    ensures snd <= Increased(snd) <= MAX_SND
    ensures Increased(snd) == Stretched(snd, Closeness(snd))
    ensures snd < MAX_SND ==> snd < Increased(snd) < MAX_SND
    ensures snd == MAX_SND ==> Increased(snd) == MAX_SND
  {
    ClosenessBounds(snd);
    FactorBounds(snd, Closeness(snd));
    GapShrinks(snd);
  }

  /** What is left to 500 after an increase, as a product. */
  lemma GapShrinks(snd: real)
    requires IsInterval(snd)
    ensures snd == MAX_SND ==> Stretched(snd, Closeness(snd)) == MAX_SND
    ensures snd < MAX_SND ==> Stretched(snd, Closeness(snd)) < MAX_SND
  {
    var c := Closeness(snd);
    var gap := MAX_SND - snd;
    var s := 501.0 * 501.0;
    var x := snd + 1.0;
    assert x * x == s - gap * (1002.0 - gap);
    assert c * s == x * x;
    assert (1.0 - c) * s == gap * (1002.0 - gap);
    GapFactor(snd, gap, c, s);
  }

  lemma GapFactor(snd: real, gap: real, c: real, s: real)
    requires IsInterval(snd) && gap == MAX_SND - snd && s == 501.0 * 501.0
    requires (1.0 - c) * s == gap * (1002.0 - gap)
    ensures gap == 0.0 ==> Stretched(snd, c) == MAX_SND
    ensures gap > 0.0 ==> Stretched(snd, c) < MAX_SND
  {
    var d := 1.0 - c;
    if gap > 0.0 {
      assert d * s <= gap * 1002.0 by {
        ProductLess(gap, 1002.0 - gap, 1002.0);
      }
      assert d <= gap / 250.0;
      ProductLess(snd, 0.02 * d, 0.02 * (gap / 250.0));
      ProductLess(gap, snd, 500.0);
      assert snd * (0.02 * (gap / 250.0)) == gap * snd * (0.02 / 250.0);
    }
  }

  /** Decreasing never raises the interval, lowers it below the cap, and takes off less
      than a hundredth. At the cap it changes nothing. */
  lemma DecreaseLowers(snd: real)
    requires IsInterval(snd)
    ensures 0.99 * snd < Decreased(snd) <= snd
    ensures snd < MAX_SND ==> Decreased(snd) < snd
    ensures snd == MAX_SND ==> Decreased(snd) == MAX_SND
  {
    ClosenessBounds(snd);
    FactorBounds(snd, Closeness(snd));
  }

  /** What an event does to the interval. */
  datatype Pace = Keep | Increase | Decrease | Restart(rate: Rate)

  function Adjust(snd: real, p: Pace): real {
    match p
    case Keep => snd
    case Increase => Increased(snd)
    case Decrease => Decreased(snd)
    case Restart(rate) => CapMinSnd(1.0 / rate)
  }

  lemma Reciprocal(x: real, y: real)
    requires y > 0.0 && x * y == 1.0
    ensures x > 0.0 && (x >= MAX_SND <==> y <= 0.002)
  {
    ProductLess(y, x, 0.0);
    ProductLess(y, x, MAX_SND);
    ProductLess(y, MAX_SND, x);
  }

  /** Leaving slow start puts the interval at the cap exactly when the peer's rate is at
      most one five-hundredth. */
  lemma RestartInterval(rate: Rate)
    ensures IsInterval(CapMinSnd(1.0 / rate))
    ensures CapMinSnd(1.0 / rate) == 500.0 <==> rate <= 0.002
  {
    Reciprocal(1.0 / rate, rate);
  }

  /** No adjustment leaves (0, 500], and only a restart gets to or away from the cap. */
  lemma AdjustBounds(snd: real, p: Pace)
    requires IsInterval(snd)
    ensures IsInterval(Adjust(snd, p))
    ensures !p.Restart? ==> (Adjust(snd, p) == MAX_SND <==> snd == MAX_SND)
  {
    match p
    case Keep =>
    case Increase => IncreaseRaises(snd);
    case Decrease => DecreaseLowers(snd);
    case Restart(rate) => RestartInterval(rate);
  }

  // ---- the controller as a value ----

  datatype Control = Control(
    mtu: nat,
    cwnd: nat,
    nextSeq: nat,
    arrivalRate: Option<Rate>,
    pings: seq<nat>,
    lastRttOnIncrease: nat,
    block: nat,
    lossThisBlock: bool,
    slowStart: bool)

  function EndSlowStart(c: Control): (Control, Pace)
    requires c.arrivalRate.Some?
  {
    (c.(slowStart := false), Restart(c.arrivalRate.value))
  }

  /** A packet resent, or reported missing. */
  function Lost(c: Control): (Control, Pace) {
    if c.slowStart && c.arrivalRate.Some? then
      EndSlowStart(c)
    else if !c.lossThisBlock then
      (c.(lossThisBlock := true), Increase)
    else
      (c, Keep)
  }

  function SlowStartWindow(c: Control, totalBytesAcked: nat): (Control, Pace)
    requires c.mtu > 0
  {
    var cwnd := totalBytesAcked / c.mtu;
    if cwnd < MIN_CWND then
      (c.(cwnd := MIN_CWND), Keep)
    else if cwnd > MAX_CWND then
      var c' := c.(cwnd := MAX_CWND);
      if c.arrivalRate.Some? then EndSlowStart(c') else (c', Keep)
    else
      (c.(cwnd := cwnd), Keep)
  }

  predicate NeverFall(pings: seq<nat>) {
    forall i :: 0 < i < |pings| ==> pings[i - 1] <= pings[i]
  }

  function Rise(pings: seq<nat>): int
    requires pings != []
  {
    pings[|pings| - 1] as int - pings[0]
  }

  function Total(pings: seq<nat>): nat {
    if pings == [] then 0 else Total(pings[..|pings| - 1]) + pings[|pings| - 1]
  }

  /** The last round trips, of which only as many as an interval are kept. */
  function Remember(pings: seq<nat>, rtt: nat): seq<nat> {
    var all := pings + [rtt];
    if |all| > INTERVAL_SIZE then all[1..] else all
  }

  /** The end of an interval, where the rise of the round trips is compared with a tenth
      of their average. The steps are summed one by one, and a step down underflows. */
  function EndInterval(c: Control, pings: seq<nat>, rtt: nat, seqNumber: nat): Result<(Control, Pace)>
    requires |pings| == INTERVAL_SIZE
  {
    var c' := c.(pings := [], lossThisBlock := false, block := seqNumber);
    if !NeverFall(pings) then
      Err(Panic)
    else if Rise(pings) > Total(pings) / INTERVAL_SIZE / 10 then
      Ok((c', Increase))
    else
      Ok((c'.(lastRttOnIncrease := rtt), Decrease))
  }

  function Syn(c: Control, rtt: nat, seqNumber: nat, continuous: bool): Result<(Control, Pace)> {
    if !continuous then
      Ok((c.(block := c.nextSeq, pings := []), Keep))
    else
      var pings := Remember(c.pings, rtt);
      if seqNumber >= c.block + INTERVAL_SIZE && |pings| == INTERVAL_SIZE then
        EndInterval(c, pings, rtt, seqNumber)
      else
        Ok((c.(pings := pings), Keep))
  }

  function Acked(c: Control, rtt: nat, rate: Option<Rate>, totalBytesAcked: nat, seqNumber: nat, continuous: bool): Result<(Control, Pace)>
    requires c.mtu > 0
  {
    var c' := if rate.Some? then c.(arrivalRate := rate) else c;
    if c.slowStart then
      Ok(SlowStartWindow(c'.(block := seqNumber, lastRttOnIncrease := rtt), totalBytesAcked))
    else
      Syn(c', rtt, seqNumber, continuous)
  }

  datatype Event =
    | Ack(rtt: nat, rate: Option<Rate>, totalBytesAcked: nat, seqNumber: nat, continuous: bool)
    | Loss
    | TakeSeq

  function StepControl(c: Control, e: Event): Result<(Control, Pace)>
    requires c.mtu > 0
  {
    match e
    case Ack(rtt, rate, total, seqNumber, continuous) => Acked(c, rtt, rate, total, seqNumber, continuous)
    case Loss => Ok(Lost(c))
    case TakeSeq => Ok((c.(nextSeq := c.nextSeq + 1), Keep))
  }

  predicate ControlInv(c: Control) {
    && c.mtu > 0
    && MIN_CWND <= c.cwnd <= MAX_CWND
    && c.arrivalRate.Some?
    && |c.pings| <= INTERVAL_SIZE
  }

  lemma SynInv(c: Control, rtt: nat, seqNumber: nat, continuous: bool)
    requires ControlInv(c) && Syn(c, rtt, seqNumber, continuous).Ok?
    ensures var (c', p) := Syn(c, rtt, seqNumber, continuous).value;
            && ControlInv(c') && c'.mtu == c.mtu && c'.cwnd == c.cwnd && c'.slowStart == c.slowStart && !p.Restart?
  {
  }

  lemma StepControlInv(c: Control, e: Event)
    requires ControlInv(c) && StepControl(c, e).Ok?
    ensures var (c', p) := StepControl(c, e).value;
            && ControlInv(c') && c'.mtu == c.mtu
            && (c'.slowStart ==> c.slowStart && p == Keep)
            && (!c.slowStart ==> c'.cwnd == c.cwnd && !p.Restart?)
  {
    if e.Ack? && !c.slowStart {
      SynInv(if e.rate.Some? then c.(arrivalRate := e.rate) else c, e.rtt, e.seqNumber, e.continuous);
    }
  }

  // ---- whole runs ----

  datatype State = State(control: Control, snd: real)

  function NewState(mtu: nat): State {
    State(Control(mtu, MIN_CWND, 0, Some(DEFAULT_TRANSFER_RATE), [], 1000, 0, false, true), DEFAULT_BYTE_INTERVAL)
  }

  function Step(s: State, e: Event): Result<State>
    requires s.control.mtu > 0
  {
    match StepControl(s.control, e)
    case Err(error) => Err(error)
    case Ok((c, p)) => Ok(State(c, Adjust(s.snd, p)))
  }

  predicate Inv(s: State) {
    && ControlInv(s.control)
    && IsInterval(s.snd)
    && (s.control.slowStart ==> s.snd == DEFAULT_BYTE_INTERVAL)
  }

  lemma StepKeepsInv(s: State, e: Event)
    requires Inv(s) && Step(s, e).Ok?
    ensures Inv(Step(s, e).value)
  {
    StepControlInv(s.control, e);
    AdjustBounds(s.snd, StepControl(s.control, e).value.1);
  }

  /** A whole run; a panic ends it. */
  ghost predicate Reaches(s: State, es: seq<Event>, s': State) {
    if es == [] then
      s' == s
    else
      exists before ::
        && Reaches(s, es[..|es| - 1], before)
        && before.control.mtu > 0
        && Step(before, es[|es| - 1]) == Ok(s')
  }

  /** In every run the send interval stays in (0, 500] and the window in 2..512, and during
      slow start the interval is the default. */
  lemma {:induction false} EveryRunKeepsBounds(mtu: nat, es: seq<Event>, s: State)
    requires mtu > 0 && Reaches(NewState(mtu), es, s)
    ensures Inv(s)
  {
    if es != [] {
      var n := |es| - 1;
      var before :| Reaches(NewState(mtu), es[..n], before) && before.control.mtu > 0 && Step(before, es[n]) == Ok(s);
      EveryRunKeepsBounds(mtu, es[..n], before);
      StepKeepsInv(before, es[n]);
    }
  }

  /** Slow start once left is never entered again, the window stays as it was, and the
      interval is at its cap for the rest of the run or never reaches it. */
  lemma {:induction false} SlowStartIsLeftForGood(s: State, es: seq<Event>, s': State)
    requires Inv(s) && !s.control.slowStart && Reaches(s, es, s')
    ensures Inv(s') && !s'.control.slowStart && s'.control.cwnd == s.control.cwnd
    ensures s'.snd == MAX_SND <==> s.snd == MAX_SND
  {
    if es != [] {
      var n := |es| - 1;
      var before :| Reaches(s, es[..n], before) && before.control.mtu > 0 && Step(before, es[n]) == Ok(s');
      SlowStartIsLeftForGood(s, es[..n], before);
      StepControlInv(before.control, es[n]);
      AdjustBounds(before.snd, StepControl(before.control, es[n]).value.1);
    }
  }

  /** So one report decides it: if an event ends slow start, then whatever comes after, the
      interval stays at 500 exactly when the rate last reported was at most one
      five-hundredth. */
  lemma OneReportDecides(s: State, e: Event, es: seq<Event>, s': State)
    requires Inv(s) && s.control.slowStart && Step(s, e).Ok? && !Step(s, e).value.control.slowStart
    requires Reaches(Step(s, e).value, es, s')
    ensures s'.snd == 500.0 <==> Step(s, e).value.control.arrivalRate.value <= 0.002
  {
    var (c, p) := StepControl(s.control, e).value;
    assert p == Restart(c.arrivalRate.value);
    RestartInterval(c.arrivalRate.value);
    StepKeepsInv(s, e);
    SlowStartIsLeftForGood(Step(s, e).value, es, s');
  }

  // ---- in which direction ----

  /** The round trips of the interval that ends with this acknowledgement. */
  function LastInterval(c: Control, rtt: nat): seq<nat>
    requires 32 <= |c.pings| <= 33
  {
    c.pings[|c.pings| - 32..] + [rtt]
  }

  /** Slow start is over, and this acknowledgement completes an interval: 33 round trips,
      of packets at least 33 after the last block. */
  predicate EndsInterval(s: State, seqNumber: nat) {
    !s.control.slowStart && 32 <= |s.control.pings| <= 33 && s.control.block + 33 <= seqNumber
  }

  /** The interval between sends grows if the round trips have risen by more than a tenth of
      their average, rounded down twice, and shrinks otherwise; at 500 it stays. A round
      trip that is shorter than the one before ends the connection. */
  lemma IntervalFollowsRoundTrips(s: State, rtt: nat, rate: Option<Rate>, total: nat, seqNumber: nat)
    requires Inv(s) && EndsInterval(s, seqNumber)
    ensures var pings, r := LastInterval(s.control, rtt), Step(s, Ack(rtt, rate, total, seqNumber, true));
            if exists i :: 0 < i < 33 && pings[i] < pings[i - 1] then
              r == Err(Panic)
            else
              && r.Ok?
              && (pings[32] - pings[0] > Total(pings) / 33 / 10 ==>
                    s.snd <= r.value.snd && (s.snd < 500.0 ==> s.snd < r.value.snd)
                    && r.value.control.lastRttOnIncrease == s.control.lastRttOnIncrease)
              && (pings[32] - pings[0] <= Total(pings) / 33 / 10 ==>
                    r.value.snd <= s.snd && (s.snd < 500.0 ==> r.value.snd < s.snd)
                    && r.value.control.lastRttOnIncrease == rtt)
              && r.value.control.pings == [] && !r.value.control.lossThisBlock && r.value.control.block == seqNumber
  {
    hide Increased, Decreased, Total;
    var pings := LastInterval(s.control, rtt);
    assert Remember(s.control.pings, rtt) == pings by {
      RememberLast(s.control, rtt);
    }
    IncreaseRaises(s.snd);
    DecreaseLowers(s.snd);
    assert !NeverFall(pings) <==> exists i :: 0 < i < 33 && pings[i] < pings[i - 1];
  }

  lemma RememberLast(c: Control, rtt: nat)
    requires 32 <= |c.pings| <= 33
    ensures Remember(c.pings, rtt) == LastInterval(c, rtt)
  {
  }

  lemma {:induction false} TotalOfEqual(pings: seq<nat>, rtt: nat)
    requires forall i :: 0 <= i < |pings| ==> pings[i] == rtt
    ensures Total(pings) == |pings| * rtt
  {
    if pings != [] {
      var n := |pings| - 1;
      TotalOfEqual(pings[..n], rtt);
      assert (n + 1) * rtt == n * rtt + rtt;
    }
  }

  /** With a constant round trip sending gets faster: the slope is zero, and never more than
      a tenth of the average. */
  lemma FlatIntervalSpeedsUp(s: State, rtt: nat, rate: Option<Rate>, total: nat, seqNumber: nat)
    requires Inv(s) && EndsInterval(s, seqNumber)
    requires forall i :: 0 <= i < |s.control.pings| ==> s.control.pings[i] == rtt
    ensures var r := Step(s, Ack(rtt, rate, total, seqNumber, true));
            r.Ok? && r.value.snd <= s.snd && (s.snd < 500.0 ==> r.value.snd < s.snd)
  {
    hide Step;
    IntervalFollowsRoundTrips(s, rtt, rate, total, seqNumber);
  }

  /** Before an interval is complete an acknowledgement is only remembered, and one of a
      packet sent while there was bandwidth to spare starts a new interval. */
  lemma IntervalGoesOn(s: State, rtt: nat, rate: Option<Rate>, total: nat, seqNumber: nat, continuous: bool)
    requires Inv(s) && !s.control.slowStart
    requires continuous ==> |s.control.pings| < 32 || seqNumber < s.control.block + 33
    ensures var r := Step(s, Ack(rtt, rate, total, seqNumber, continuous));
            && r.Ok? && r.value.snd == s.snd
            && r.value.control.block == (if continuous then s.control.block else s.control.nextSeq)
            && r.value.control.lossThisBlock == s.control.lossThisBlock
            && (!continuous ==> r.value.control.pings == [])
            && (continuous && |s.control.pings| < 33 ==> r.value.control.pings == s.control.pings + [rtt])
            && (continuous && |s.control.pings| == 33 ==> r.value.control.pings == s.control.pings[1..] + [rtt])
  {
  }

  /** A loss slows sending down, once in a block; the second one changes nothing. In slow
      start it ends it, at the interval the last reported rate asks for. */
  lemma LossSlowsDownOnce(s: State)
    requires Inv(s)
    ensures var s' := Step(s, Loss).value;
            && Step(s, Loss).Ok?
            && (s.control.slowStart ==>
                  !s'.control.slowStart
                  && (s.control.arrivalRate.value >= 0.002 ==> s'.snd * s.control.arrivalRate.value == 1.0))
            && (!s.control.slowStart && !s.control.lossThisBlock ==>
                  s.snd <= s'.snd && (s.snd < 500.0 ==> s.snd < s'.snd) && s'.control == s.control.(lossThisBlock := true))
            && (!s.control.slowStart && s.control.lossThisBlock ==> s' == s)
  {
    if s.control.slowStart {
      Reciprocal(1.0 / s.control.arrivalRate.value, s.control.arrivalRate.value);
    } else if !s.control.lossThisBlock {
      IncreaseRaises(s.snd);
    }
  }

  /** In slow start the window is the number of packets' worth of bytes acknowledged, at
      least 2 and at most 512; with more than 512 slow start is over. */
  lemma SlowStartFollowsBytes(s: State, rtt: nat, rate: Option<Rate>, total: nat, seqNumber: nat, continuous: bool)
    requires Inv(s) && s.control.slowStart
    ensures var r, packets := Step(s, Ack(rtt, rate, total, seqNumber, continuous)), total / s.control.mtu;
            && r.Ok?
            && r.value.control.cwnd == (if packets < 2 then 2 else if packets > 512 then 512 else packets)
            && (r.value.control.slowStart <==> packets <= 512)
            && r.value.control.block == seqNumber && r.value.control.lastRttOnIncrease == rtt
            && r.value.control.arrivalRate == (if rate.Some? then rate else s.control.arrivalRate)
  {
  }

  /** What a new controller starts from. */
  lemma StartOfUdt(mtu: nat)
    ensures var s := NewState(mtu);
            && s.control.cwnd == 2 && s.control.slowStart && s.control.arrivalRate == Some(0.0036) && s.control.pings == []
            && s.control.lastRttOnIncrease == 1000 && s.snd * 0.0036 == 1.0
  {
  }

  /** An increase multiplies by 1.02, less a fiftieth of how close the interval is to 500,
      and a decrease by 0.99, plus a hundredth of it. */
  lemma Factors(snd: real)
    requires IsInterval(snd)
    ensures var share := (snd + 1.0) * (snd + 1.0) / 251001.0;
            && Increased(snd) == snd * (1.02 - 0.02 * share)
            && Decreased(snd) == snd * (0.99 + 0.01 * share)
  {
    hide Closeness, CapMinSnd;
    ClosenessIs(snd);
    IncreaseRaises(snd);
  }

  lemma ClosenessIs(snd: real)
    ensures Closeness(snd) == (snd + 1.0) * (snd + 1.0) / 251001.0
  {
    assert 501.0 * 501.0 == 251001.0;
  }

  // ---- the slope ----

  const U64: nat := 0x1_0000_0000_0000_0000

  /** The sum of the steps with every subtraction and addition wrapping, as in a release build. */
  function WrappedSlope(pings: seq<nat>): nat {
    if |pings| < 2 then
      0
    else
      var n := |pings| - 1;
      (WrappedSlope(pings[..n]) + (pings[n] - pings[n - 1]) % U64) % U64
  }

  /** Wrapping or not, the steps telescope: a release build compares the last round trip
      with the first alone. A fall in between cancels out; only a last round trip below the
      first wraps, and then reads as a huge rise. */
  lemma {:induction false} WrappedSlopeTelescopes(pings: seq<nat>)
    requires pings != [] && forall i :: 0 <= i < |pings| ==> pings[i] < U64
    ensures WrappedSlope(pings) == if Rise(pings) >= 0 then Rise(pings) else Rise(pings) + U64
  {
    if |pings| > 1 {
      var n := |pings| - 1;
      WrappedSlopeTelescopes(pings[..n]);
      WrapOnce(WrappedSlope(pings[..n]), pings[0], pings[n - 1], pings[n]);
    }
  }

  lemma WrapOnce(slope: nat, first: nat, before: nat, last: nat)
    requires first < U64 && before < U64 && last < U64
    requires slope == if before >= first then before - first else before - first + U64
    ensures (slope + (last - before) % U64) % U64 == if last >= first then last - first else last - first + U64
  {
    assert (last - before) % U64 == if last >= before then last - before else last - before + U64;
  }

  /** The checked sum fails exactly when some round trip is shorter than the one before. */
  method SumSlope(pings: seq<nat>) returns (r: Result<(int, nat)>)
    requires pings != []
    ensures r == if NeverFall(pings) then Ok((Rise(pings), Total(pings))) else Err(Panic)
  {
    var slopeSum: int, total := 0, pings[0];
    for i := 1 to |pings|
      invariant NeverFall(pings[..i])
      invariant slopeSum == Rise(pings[..i]) && total == Total(pings[..i])
    {
      if pings[i] < pings[i - 1] {
        return Err(Panic);
      }
      assert pings[..i + 1][..i] == pings[..i];
      slopeSum := slopeSum + (pings[i] - pings[i - 1]);
      total := total + pings[i];
    }
    assert pings[..|pings|] == pings;
    return Ok((slopeSum, total));
  }

  // ---- arrivals ----

  /** The ring of arrival rates. */
  datatype Arrivals = Arrivals(history: seq<real>, index: nat, last: nat)

  function NoArrivals(): Arrivals {
    Arrivals(seq(PACKET_ARRIVAL_HISTORY_SIZE, _ => 0.0), 0, 0)
  }

  function Arrived(a: Arrivals, now: nat, size: nat, continuous: bool): Arrivals
    requires |a.history| == PACKET_ARRIVAL_HISTORY_SIZE
  {
    if now <= a.last then
      a
    else if continuous then
      Arrivals(a.history[a.index % PACKET_ARRIVAL_HISTORY_SIZE := size as real / (now - a.last) as real], a.index + 1, now)
    else
      a.(last := now)
  }

  /** Every slot written so far holds a positive rate. */
  predicate Filled(a: Arrivals) {
    && |a.history| == PACKET_ARRIVAL_HISTORY_SIZE
    && forall i :: 0 <= i < PACKET_ARRIVAL_HISTORY_SIZE && i < a.index ==> a.history[i] > 0.0
  }

  lemma ArrivedFilled(a: Arrivals, now: nat, size: nat, continuous: bool)
    requires Filled(a) && size > 0
    ensures Filled(Arrived(a, now, size, continuous))
  {
    if now > a.last {
      var rate := size as real / (now - a.last) as real;
      assert rate > 0.0;
    }
  }

  /** A datagram sent while the bandwidth was used up leaves its rate, bytes over the time
      since the last datagram, in the next of 64 slots; any other only restarts the clock. */
  lemma ArrivedIs(a: Arrivals, now: nat, size: nat, continuous: bool)
    requires |a.history| == PACKET_ARRIVAL_HISTORY_SIZE && now > a.last
    ensures var (a', i) := (Arrived(a, now, size, continuous), a.index % 64);
            && a'.last == now && |a'.history| == 64
            && (continuous ==> a'.index == a.index + 1 && a'.history[i] * (now - a.last) as real == size as real)
            && (!continuous ==> a'.index == a.index && a'.history == a.history)
            && forall k :: 0 <= k < 64 && k != i ==> a'.history[k] == a.history[k]
  {
    Quotient(size as real, (now - a.last) as real);
  }

  lemma Quotient(x: real, y: real)
    requires y > 0.0
    ensures x / y * y == x
  {
  }

  datatype Arrival = Arrival(now: nat, size: nat, continuous: bool)

  function ArriveAll(arrivals: seq<Arrival>): (a: Arrivals)
    ensures |a.history| == PACKET_ARRIVAL_HISTORY_SIZE
  {
    if arrivals == [] then
      NoArrivals()
    else
      var last := arrivals[|arrivals| - 1];
      Arrived(ArriveAll(arrivals[..|arrivals| - 1]), last.now, last.size, last.continuous)
  }

  lemma {:induction false} EveryRunFills(arrivals: seq<Arrival>)
    requires forall i :: 0 <= i < |arrivals| ==> arrivals[i].size > 0
    ensures Filled(ArriveAll(arrivals))
  {
    if arrivals != [] {
      var last := arrivals[|arrivals| - 1];
      EveryRunFills(arrivals[..|arrivals| - 1]);
      ArrivedFilled(ArriveAll(arrivals[..|arrivals| - 1]), last.now, last.size, last.continuous);
    }
  }

  /** Once the ring has gone round, a peer that receives no empty datagrams always has a
      positive rate to report. */
  lemma FullHistoryHasRate(a: Arrivals)
    requires |a.history| == PACKET_ARRIVAL_HISTORY_SIZE
    ensures Filled(a) && a.index >= PACKET_ARRIVAL_HISTORY_SIZE ==>
              forall median, rate :: median in a.history && IsRateFor(a.history, median, rate) ==> rate.Some?
  {
    if Filled(a) && a.index >= PACKET_ARRIVAL_HISTORY_SIZE {
      assert forall x <- a.history :: x > 0.0;
    }
  }

  // ---- the controller ----

  class UDT {
    var cwnd: nat
    const mtuSizeExcludingHeader: nat
    var nextSeq: nat
    var arrivalRate: Option<Rate>
    var snd: real
    var bytesCanSendThisTick: int
    var packetArrivalHistoryIndex: nat
    const packetArrivalHistory: array<real>
    var pingsLastInterval: seq<nat>
    var lastPacketArrivalTime: nat
    var lastRttOnIncreaseSendRate: nat
    var oldestUnsentAck: nat
    var nextCongestionControlBlock: nat
    var hadPacketLossThisBlock: bool
    var isInSlowStart: bool

    ghost function View(): Control
      reads this
    {
      Control(mtuSizeExcludingHeader, cwnd, nextSeq, arrivalRate, pingsLastInterval, lastRttOnIncreaseSendRate,
              nextCongestionControlBlock, hadPacketLossThisBlock, isInSlowStart)
    }

    ghost function Snapshot(): State
      reads this
    {
      State(View(), snd)
    }

    ghost function History(): Arrivals
      reads this, packetArrivalHistory
    {
      Arrivals(packetArrivalHistory[..], packetArrivalHistoryIndex, lastPacketArrivalTime)
    }

    ghost predicate Valid()
      reads this, packetArrivalHistory
    {
      Inv(Snapshot()) && packetArrivalHistory.Length == PACKET_ARRIVAL_HISTORY_SIZE
    }

    constructor (mtu: nat)
      requires mtu > 0
      ensures Valid() && Snapshot() == NewState(mtu) && History() == NoArrivals() && fresh(packetArrivalHistory)
    {
      cwnd, mtuSizeExcludingHeader, nextSeq, arrivalRate := MIN_CWND, mtu, 0, Some(DEFAULT_TRANSFER_RATE);
      snd, bytesCanSendThisTick, packetArrivalHistoryIndex := DEFAULT_BYTE_INTERVAL, 0, 0;
      packetArrivalHistory := new real[PACKET_ARRIVAL_HISTORY_SIZE](_ => 0.0);
      pingsLastInterval, lastPacketArrivalTime, lastRttOnIncreaseSendRate := [], 0, 1000;
      oldestUnsentAck, nextCongestionControlBlock := 0, 0;
      hadPacketLossThisBlock, isInSlowStart := false, true;
      new;
      assert packetArrivalHistory[..] == NoArrivals().history;
    }

    predicate ShouldSendAck(now: nat, timeSinceLastUpdate: nat)
      reads this
      requires oldestUnsentAck <= now
      ensures ShouldSendAck(now, timeSinceLastUpdate) <==> oldestUnsentAck + 10 <= now || now + timeSinceLastUpdate < oldestUnsentAck + 10
    {
      now - oldestUnsentAck >= SYN || now + timeSinceLastUpdate < oldestUnsentAck + SYN
    }

    method GetSeqAndIncrement() returns (current: nat)
      requires Valid()
      modifies this`nextSeq
      ensures Valid() && current == old(nextSeq) && nextSeq == current + 1 && Ok(Snapshot()) == Step(old(Snapshot()), TakeSeq)
    {
      current := nextSeq;
      nextSeq := nextSeq + 1;
    }

    /** Once slow start is over the bandwidth is always zero. */
    method GetTransmissionBandwidth(timeSinceLastUpdate: nat, continuous: bool) returns (bandwidth: nat)
      requires Valid()
      modifies this`bytesCanSendThisTick
      ensures Valid()
      ensures bandwidth == if isInSlowStart then cwnd * mtuSizeExcludingHeader else 0
    {
      if isInSlowStart {
        return cwnd * mtuSizeExcludingHeader;
      }
      if bytesCanSendThisTick < 0 {
        bytesCanSendThisTick := 0;
      }
      var time := if !continuous && timeSinceLastUpdate > 100 then 100 else timeSinceLastUpdate;
      ProductNonNegative(time, snd);
      bytesCanSendThisTick := bytesCanSendThisTick + time * (1.0 / snd).Floor;
      if bytesCanSendThisTick < 0 {
        assert false;
      }
      return 0;
    }

    method GetRto() returns (rto: nat)
      ensures lastRttOnIncreaseSendRate < 50 ==> rto == 100
      ensures lastRttOnIncreaseSendRate > 5000 ==> rto == 10000
      ensures 50 <= lastRttOnIncreaseSendRate <= 5000 ==> rto == 2 * lastRttOnIncreaseSendRate
    {
      rto := lastRttOnIncreaseSendRate * 2;
      rto := if rto < 100 then 100 else if rto > 10000 then 10000 else rto;
    }

    /** `on_resend` and `on_recv_nak`, which do the same. */
    method OnLoss()
      requires Valid()
      modifies this`snd, this`isInSlowStart, this`hadPacketLossThisBlock
      ensures Valid() && Ok(Snapshot()) == Step(old(Snapshot()), Loss)
    {
      StepKeepsInv(Snapshot(), Loss);
      if isInSlowStart && arrivalRate.Some? {
        LeaveSlowStart();
      } else if !hadPacketLossThisBlock {
        IncreaseTimeBetweenSends();
        hadPacketLossThisBlock := true;
      }
    }

    method LeaveSlowStart()
      requires arrivalRate.Some?
      modifies this`snd, this`isInSlowStart
      ensures (View(), snd) == (EndSlowStart(old(View())).0, Adjust(old(snd), EndSlowStart(old(View())).1))
    {
      isInSlowStart := false;
      snd := 1.0 / arrivalRate.value;
      CapSnd();
    }

    method CapSnd()
      modifies this`snd
      ensures snd == CapMinSnd(old(snd))
    {
      if snd > 500.0 {
        snd := 500.0;
      }
    }

    method IncreaseTimeBetweenSends()
      modifies this`snd
      ensures snd == Increased(old(snd))
    {
      var increment := 0.02 * Closeness(snd);
      snd := snd * (1.02 - increment);
      CapSnd();
    }

    method DecreaseTimeBetweenSends()
      modifies this`snd
      ensures snd == Decreased(old(snd))
    {
      var increment := 0.01 * Closeness(snd);
      snd := snd * (0.99 + increment);
    }

    method UpdateWindowSizeSlowStart(totalBytesAcked: nat)
      requires mtuSizeExcludingHeader > 0
      modifies this`cwnd, this`snd, this`isInSlowStart
      ensures var (c, p) := SlowStartWindow(old(View()), totalBytesAcked);
              View() == c && snd == Adjust(old(snd), p)
    {
      cwnd := totalBytesAcked / mtuSizeExcludingHeader;
      if cwnd < MIN_CWND {
        cwnd := MIN_CWND;
      } else if cwnd > MAX_CWND {
        cwnd := MAX_CWND;
        if arrivalRate.Some? {
          LeaveSlowStart();
        }
      }
    }

    method UpdateWindowSizeSyn(rtt: nat, seqNumber: nat, continuous: bool) returns (r: Result<()>)
      modifies this`pingsLastInterval, this`snd, this`lastRttOnIncreaseSendRate, this`nextCongestionControlBlock, this`hadPacketLossThisBlock
      ensures match Syn(old(View()), rtt, seqNumber, continuous)
              case Ok((c, p)) => r.Ok? && View() == c && snd == Adjust(old(snd), p)
              case Err(error) => r == Err(error)
    {
      hide Increased, Decreased, Total, NeverFall;
      if !continuous {
        nextCongestionControlBlock := nextSeq;
        pingsLastInterval := [];
        return Ok(());
      }
      pingsLastInterval := pingsLastInterval + [rtt];
      if |pingsLastInterval| > INTERVAL_SIZE {
        pingsLastInterval := pingsLastInterval[1..];
      }
      if seqNumber > nextCongestionControlBlock && seqNumber - nextCongestionControlBlock >= INTERVAL_SIZE
         && |pingsLastInterval| == INTERVAL_SIZE {
        var slope := SumSlope(pingsLastInterval);
        if slope.Err? {
          return Err(slope.error);
        }
        var (slopeSum, total) := slope.value;
        if slopeSum > total / INTERVAL_SIZE / 10 {
          IncreaseTimeBetweenSends();
        } else {
          lastRttOnIncreaseSendRate := rtt;
          DecreaseTimeBetweenSends();
        }
        pingsLastInterval := [];
        hadPacketLossThisBlock := false;
        nextCongestionControlBlock := seqNumber;
      }
      return Ok(());
    }

    /** A panic ends the connection, so its state no longer matters. */
    method OnRecvAck(now: nat, rtt: nat, rate: Option<Rate>, totalBytesAcked: nat, seqNumber: nat, continuous: bool) returns (r: Result<()>)
      requires Valid()
      modifies this
      ensures match Step(old(Snapshot()), Ack(rtt, rate, totalBytesAcked, seqNumber, continuous))
              case Ok(s) => r.Ok? && Valid() && Snapshot() == s
              case Err(error) => r == Err(error)
    {
      ghost var e := Ack(rtt, rate, totalBytesAcked, seqNumber, continuous);
      if Step(Snapshot(), e).Ok? {
        StepKeepsInv(Snapshot(), e);
      }
      if rate.Some? {
        arrivalRate := rate;
      }
      if oldestUnsentAck == 0 {
        oldestUnsentAck := now;
      }
      r := Respond(rtt, totalBytesAcked, seqNumber, continuous);
    }

    method Respond(rtt: nat, totalBytesAcked: nat, seqNumber: nat, continuous: bool) returns (r: Result<()>)
      requires mtuSizeExcludingHeader > 0
      modifies this`cwnd, this`snd, this`isInSlowStart
      modifies this`pingsLastInterval, this`lastRttOnIncreaseSendRate, this`nextCongestionControlBlock, this`hadPacketLossThisBlock
      ensures match Acked(old(View()), rtt, None, totalBytesAcked, seqNumber, continuous)
              case Ok((c, p)) => r.Ok? && View() == c && snd == Adjust(old(snd), p)
              case Err(error) => r == Err(error)
    {
      if isInSlowStart {
        nextCongestionControlBlock := seqNumber;
        lastRttOnIncreaseSendRate := rtt;
        UpdateWindowSizeSlowStart(totalBytesAcked);
        r := Ok(());
      } else {
        r := UpdateWindowSizeSyn(rtt, seqNumber, continuous);
      }
    }

    method OnRecvPacket(now: nat, size: nat, continuous: bool)
      requires Valid()
      modifies this`packetArrivalHistoryIndex, this`lastPacketArrivalTime, packetArrivalHistory
      ensures Valid() && History() == Arrived(old(History()), now, size, continuous)
    {
      if now > lastPacketArrivalTime {
        var interval := now - lastPacketArrivalTime;
        if continuous {
          packetArrivalHistory[packetArrivalHistoryIndex % PACKET_ARRIVAL_HISTORY_SIZE] := size as real / interval as real;
          packetArrivalHistoryIndex := packetArrivalHistoryIndex + 1;
        }
        lastPacketArrivalTime := now;
      }
    }

    /** With a full history of positive rates the peer always gets a rate, and a positive one. */
    method OnSendAck(needsArrivalRate: bool, rate: Option<real>) returns (rate': Option<real>)
      requires Valid()
      modifies this`oldestUnsentAck
      ensures Valid() && oldestUnsentAck == 0
      ensures !needsArrivalRate ==> rate' == rate
      ensures needsArrivalRate && packetArrivalHistoryIndex < PACKET_ARRIVAL_HISTORY_SIZE ==> rate' == None
      ensures needsArrivalRate && packetArrivalHistoryIndex >= PACKET_ARRIVAL_HISTORY_SIZE ==>
                exists median :: median in packetArrivalHistory[..] && IsRateFor(packetArrivalHistory[..], median, rate')
      ensures needsArrivalRate && rate'.Some? ==> packetArrivalHistoryIndex >= PACKET_ARRIVAL_HISTORY_SIZE && rate'.value > 0.0
      ensures needsArrivalRate && Filled(History()) && packetArrivalHistoryIndex >= PACKET_ARRIVAL_HISTORY_SIZE ==> rate'.Some?
    {
      oldestUnsentAck := 0;
      rate' := rate;
      if needsArrivalRate {
        rate' := CalcArrivalRate(packetArrivalHistory[..], packetArrivalHistoryIndex);
        FullHistoryHasRate(History());
      }
    }

    method OnSendPacket(size: nat)
      requires Valid()
      modifies this`bytesCanSendThisTick
      ensures Valid()
      ensures bytesCanSendThisTick == if isInSlowStart then old(bytesCanSendThisTick) else old(bytesCanSendThisTick) - size
    {
      if !isInSlowStart {
        bytesCanSendThisTick := bytesCanSendThisTick - size;
      }
    }
  }

  lemma ProductNonNegative(time: nat, snd: real)
    requires snd > 0.0
    ensures time * (1.0 / snd).Floor >= 0
  {
    Reciprocal(1.0 / snd, snd);
  }
}
