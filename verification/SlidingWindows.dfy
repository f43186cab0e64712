/** The sliding-window congestion controller
    (src/reliability/congestion_controller/sliding_window.rs), with floats taken as reals. */
module SlidingWindows {

  const SYN: nat := 10
  const MAX_RTO: nat := 2000
  const ADDITIONAL_VAR: real := 30.0
  const U: real := 2.0
  const Q: real := 4.0
  const D: real := 0.05

  function Abs(x: real): real {
    if x < 0.0 then -x else x
  }

  function MaxReal(x: real, y: real): real {
    if x < y then y else x
  }

  /** To the nearest integer, halves away from zero. */
  function Round(x: real): int
    requires x >= 0.0
  {
    (x + 0.5).Floor
  }

  // ---- round trip averages ----

  datatype Average = Average(estimate: real, deviation: real)

  const START := Average(50.0, 6.25)

  /** The averages after one round trip, before the clamps at zero. */
  function Moved(a: Average, rtt: nat): Average {
    var diff := rtt as real - a.estimate;
    Average(a.estimate + D * diff, a.deviation + D * (Abs(diff) - a.deviation))
  }

  function Observe(a: Average, rtt: nat): Average {
    Average(MaxReal(Moved(a, rtt).estimate, 0.0), MaxReal(Moved(a, rtt).deviation, 0.0))
  }

  function ObserveAll(a: Average, rtts: seq<nat>): Average {
    if rtts == [] then a else Observe(ObserveAll(a, rtts[..|rtts| - 1]), rtts[|rtts| - 1])
  }

  function Rto(a: Average): nat
    requires a.estimate >= 0.0 && a.deviation >= 0.0
  {
    var rto := Round(U * a.estimate + Q * a.deviation + ADDITIONAL_VAR);
    if rto < MAX_RTO then rto else MAX_RTO
  }

  predicate Within(a: Average, lo: real, hi: real) {
    && lo <= a.estimate <= hi
    && 0.0 < a.deviation <= MaxReal(6.25, hi - lo)
  }

  /** After any acknowledgements the averages are positive, and so is what the next one
      moves them to: the clamps at zero never change a value. */
  lemma {:induction false} ClampsNeverFire(rtts: seq<nat>, rtt: nat)
    ensures var a := ObserveAll(START, rtts);
            && a.estimate > 0.0 && a.deviation > 0.0
            && Observe(a, rtt) == Moved(a, rtt)
  {
    if rtts != [] {
      ClampsNeverFire(rtts[..|rtts| - 1], rtts[|rtts| - 1]);
    }
  }

  /** Each acknowledgement moves the estimate a twentieth of the way to its round trip, and
      the deviation a twentieth of the way to the distance between the two. */
  lemma OneAcknowledgement(rtts: seq<nat>, rtt: nat)
    ensures var (a, a') := (ObserveAll(START, rtts), ObserveAll(START, rtts + [rtt]));
            && 20.0 * a'.estimate == 19.0 * a.estimate + rtt as real
            && (rtt as real >= a.estimate ==> 20.0 * a'.deviation == 19.0 * a.deviation + (rtt as real - a.estimate))
            && (rtt as real <= a.estimate ==> 20.0 * a'.deviation == 19.0 * a.deviation + (a.estimate - rtt as real))
  {
    ClampsNeverFire(rtts, rtt);
    ObserveOneMore(START, rtts, rtt);
  }

  lemma {:induction false} StaysWithin(rtts: seq<nat>, lo: real, hi: real)
    requires 0.0 <= lo <= 50.0 <= hi
    requires forall i :: 0 <= i < |rtts| ==> lo <= rtts[i] as real <= hi
    ensures Within(ObserveAll(START, rtts), lo, hi)
  {
    if rtts != [] {
      StaysWithin(rtts[..|rtts| - 1], lo, hi);
      ClampsNeverFire(rtts[..|rtts| - 1], rtts[|rtts| - 1]);
    }
  }

  /** The timeout is twice the estimate, four times the deviation and thirty more, rounded,
      halves up, and cut off at 2000. */
  lemma RtoIs(a: Average)
    requires a.estimate >= 0.0 && a.deviation >= 0.0
    ensures var (rto, exact) := (Rto(a), 2.0 * a.estimate + 4.0 * a.deviation + 30.0);
            && rto <= 2000
            && (rto == 2000 <==> exact >= 1999.5)
            && (rto < 2000 ==> exact - 0.5 < rto as real <= exact + 0.5)
  {
  }

  /** The timeout is never below 30 nor above 2000, and follows the round trips in between. */
  lemma RtoWithin(rtts: seq<nat>, lo: real, hi: real)
    requires 0.0 <= lo <= 50.0 <= hi
    requires forall i :: 0 <= i < |rtts| ==> lo <= rtts[i] as real <= hi
    ensures var a := ObserveAll(START, rtts);
            && a.estimate >= 0.0 && a.deviation >= 0.0
            && 30 <= Rto(a) <= 2000
            && (2.0 * lo + 29.5 <= Rto(a) as real || Rto(a) == 2000)
            && Rto(a) as real <= 2.0 * hi + 4.0 * MaxReal(6.25, hi - lo) + 30.5
  {
    StaysWithin(rtts, lo, hi);
    RtoIs(ObserveAll(START, rtts));
  }

  /** What is left of `x` when a twentieth of it is lost `n` times. */
  function Decayed(x: real, n: nat): real {
    if n == 0 then x else 0.95 * Decayed(x, n - 1)
  }

  lemma {:induction false} DecayedSum(x: real, y: real, n: nat)
    ensures Decayed(x + y, n) == Decayed(x, n) + Decayed(y, n)
    ensures x >= 0.0 ==> Decayed(x, n) >= 0.0
    ensures Decayed(0.05 * x, n) == 0.05 * Decayed(x, n)
  {
    if n > 0 {
      DecayedSum(x, y, n - 1);
    }
  }

  /** Two controllers that see the same acknowledgements forget where they started. */
  lemma {:induction false} ForgetsTheStart(a: Average, b: Average, rtts: seq<nat>)
    requires a.estimate >= 0.0 && b.estimate >= 0.0
    ensures var (a', b') := (ObserveAll(a, rtts), ObserveAll(b, rtts));
            && a'.estimate >= 0.0 && b'.estimate >= 0.0
            && a'.estimate - b'.estimate == Decayed(a.estimate - b.estimate, |rtts|)
  {
    if rtts != [] {
      ForgetsTheStart(a, b, rtts[..|rtts| - 1]);
    }
  }

  /** How far `n` equal errors push the deviation up. */
  function Spread(error: real, n: nat): real {
    0.95 * 6.25 + n as real * (0.05 * error)
  }

  /** With a constant round trip the error shrinks by a twentieth at each acknowledgement,
      and the deviation has a closed form that goes to zero with it. */
  lemma {:induction false} ConstantRoundTrip(rtts: seq<nat>, rtt: nat)
    requires forall i :: 0 <= i < |rtts| ==> rtts[i] == rtt
    ensures var (a, n, error) := (ObserveAll(START, rtts), |rtts|, Abs(50.0 - rtt as real));
            && Abs(a.estimate - rtt as real) == Decayed(error, n)
            && 0.95 * a.deviation == Decayed(Spread(error, n), n)
  {
    if rtts != [] {
      var n := |rtts| - 1;
      var error := Abs(50.0 - rtt as real);
      ConstantRoundTrip(rtts[..n], rtt);
      ClampsNeverFire(rtts[..n], rtt);
      DeviationStep(ObserveAll(START, rtts[..n]), rtt, Spread(error, n), error, n);
      SpreadStep(error, n);
    }
  }

  lemma DeviationStep(a: Average, rtt: nat, x: real, error: real, n: nat)
    requires Abs(a.estimate - rtt as real) == Decayed(error, n)
    requires 0.95 * a.deviation == Decayed(x, n)
    ensures 0.95 * Moved(a, rtt).deviation == Decayed(x + 0.05 * error, n + 1)
    ensures Abs(Moved(a, rtt).estimate - rtt as real) == Decayed(error, n + 1)
  {
    DecayedSum(x, 0.05 * error, n);
    DecayedSum(error, 0.0, n);
  }

  lemma SpreadStep(error: real, n: nat)
    ensures Spread(error, n + 1) == Spread(error, n) + 0.05 * error
  {
  }

  /** A new controller, and one that has got an acknowledgement after 150 milliseconds. */
  lemma FirstTimeouts(mtu: nat)
    ensures Rto(NewControl(mtu).average) == 155
    ensures var a := Run(NewControl(mtu), [Ack(150, 0, false)]).average;
            a.estimate == 55.0 && 20.0 * a.deviation == 218.75 && Rto(a) == 184
  {
    var c := NewControl(mtu);
    assert [Ack(150, 0, false)][..0] == [];
    assert Run(c, [Ack(150, 0, false)]) == Step(c, Ack(150, 0, false));
    RtoIs(c.average);
    RtoIs(Step(c, Ack(150, 0, false)).average);
  }

  // ---- the congestion window ----

  /** The controller without the fields nothing reads back. */
  datatype Control = Control(
    mtu: nat,
    cwnd: nat,
    ssThresh: nat,
    nextSeq: nat,
    average: Average,
    block: nat,
    backoff: bool,
    continuous: bool)
  {
    predicate InSlowStart() {
      cwnd <= ssThresh || ssThresh == 0
    }
  }

  /** The square of the packet size over the window, rounded down. */
  function Share(mtu: nat, cwnd: nat): nat
    requires cwnd > 0
  {
    mtu * mtu / cwnd
  }

  function SlowStartStep(mtu: nat, cwnd: nat, ssThresh: nat): nat {
    var next := cwnd + mtu;
    if next > ssThresh && ssThresh != 0 then ssThresh + Share(mtu, next) else next
  }

  function Acked(c: Control, rtt: nat, seqNumber: nat, continuous: bool): Control {
    var c' := c.(average := Observe(c.average, rtt), continuous := continuous);
    if !continuous then
      c'
    else
      var isNew := seqNumber > c.block;
      var c'' := if isNew then c'.(backoff := false, block := c.nextSeq) else c';
      if c.InSlowStart() then
        c''.(cwnd := SlowStartStep(c.mtu, c.cwnd, c.ssThresh))
      else if isNew then
        c''.(cwnd := Share(c.mtu, c.cwnd))
      else
        c''
  }

  function Resent(c: Control): Control {
    if c.continuous && !c.backoff && c.cwnd > c.mtu * 2 then
      c.(ssThresh := if c.cwnd / 2 < c.mtu then c.mtu else c.cwnd / 2, cwnd := c.mtu, block := c.nextSeq, backoff := true)
    else
      c
  }

  function Naked(c: Control): Control {
    if c.continuous && !c.backoff then c.(ssThresh := c.cwnd / 2) else c
  }

  datatype Event =
    | Ack(rtt: nat, seqNumber: nat, continuous: bool)
    | Resend
    | Nak
    | Bandwidth(continuous: bool)
    | TakeSeq

  function Step(c: Control, e: Event): Control {
    match e
    case Ack(rtt, seqNumber, continuous) => Acked(c, rtt, seqNumber, continuous)
    case Resend => Resent(c)
    case Nak => Naked(c)
    case Bandwidth(continuous) => c.(continuous := continuous)
    case TakeSeq => c.(nextSeq := c.nextSeq + 1)
  }

  function Run(c: Control, es: seq<Event>): Control {
    if es == [] then c else Step(Run(c, es[..|es| - 1]), es[|es| - 1])
  }

  function RoundTrips(es: seq<Event>): seq<nat> {
    if es == [] then
      []
    else
      var n := |es| - 1;
      RoundTrips(es[..n]) + if es[n].Ack? then [es[n].rtt] else []
  }

  function NewControl(mtu: nat): Control {
    Control(mtu, mtu, 0, 0, START, 0, false, false)
  }

  /** Nothing but the acknowledged round trips moves the averages. */
  lemma {:induction false} RunAverages(c: Control, es: seq<Event>)
    ensures Run(c, es).average == ObserveAll(c.average, RoundTrips(es))
  {
    if es != [] {
      var n := |es| - 1;
      RunAverages(c, es[..n]);
      if es[n].Ack? {
        ObserveOneMore(c.average, RoundTrips(es[..n]), es[n].rtt);
      } else {
        assert RoundTrips(es) == RoundTrips(es[..n]);
      }
    }
  }

  lemma ObserveOneMore(a: Average, rtts: seq<nat>, rtt: nat)
    ensures ObserveAll(a, rtts + [rtt]) == Observe(ObserveAll(a, rtts), rtt)
  {
    assert (rtts + [rtt])[..|rtts|] == rtts;
  }

  /** In every run the timeout lies between 30 and 2000. */
  lemma EveryTimeout(mtu: nat, es: seq<Event>)
    ensures var a := Run(NewControl(mtu), es).average;
            && a.estimate > 0.0 && a.deviation > 0.0
            && 30 <= Rto(a) <= 2000
  {
    RunAverages(NewControl(mtu), es);
    ClampsNeverFire(RoundTrips(es), 0);
  }

  /** No acknowledgement names a packet sent after the last back-off. */
  predicate WithinBlock(c: Control, es: seq<Event>) {
    forall e <- es :: e.Ack? && e.continuous ==> e.seqNumber <= c.block
  }

  lemma ProductGrows(x: nat, y: nat, z: nat)
    requires y <= z
    ensures x * y <= x * z
  {
  }

  lemma OvershootIsSmall(mtu: nat, next: nat)
    requires 0 < next && mtu <= next
    ensures Share(mtu, next) <= mtu
  {
    var q := Share(mtu, next);
    ProductGrows(mtu, mtu, next);
    if q > mtu {
      ProductGrows(next, mtu + 1, q);
    }
  }

  /** One back-off per block. Until an acknowledgement comes in for a packet sent after
      the controller backed off, whatever is resent or reported missing changes nothing:
      the threshold stays, and the window only grows, to one packet above it at most. */
  lemma {:induction false} OneBackoffPerBlock(c: Control, es: seq<Event>)
    requires c.backoff && WithinBlock(c, es) && c.ssThresh >= c.mtu > 0
    ensures var c' := Run(c, es);
            && c'.backoff && c'.block == c.block && c'.ssThresh == c.ssThresh && c'.mtu == c.mtu
            && c.cwnd <= c'.cwnd
            && (c'.cwnd == c.cwnd || c'.cwnd <= c.ssThresh + c.mtu)
  {
    hide Step, Observe, Share;
    if es != [] {
      var n := |es| - 1;
      OneBackoffPerBlock(c, es[..n]);
      assert es[n] in es;
      StepWithinBlock(Run(c, es[..n]), es[n]);
    }
  }

  lemma StepWithinBlock(c: Control, e: Event)
    requires c.backoff && c.ssThresh >= c.mtu > 0 && (e.Ack? && e.continuous ==> e.seqNumber <= c.block)
    ensures var c' := Step(c, e);
            && c'.backoff && c'.block == c.block && c'.ssThresh == c.ssThresh && c'.mtu == c.mtu
            && c.cwnd <= c'.cwnd
            && (c'.cwnd == c.cwnd || c'.cwnd <= c.ssThresh + c.mtu)
  {
    hide Observe, Share;
    OvershootIsSmall(c.mtu, c.cwnd + c.mtu);
  }

  /** A back-off starts such a block, in slow start and with the window at one packet. */
  lemma BackoffThenBlock(c: Control, es: seq<Event>)
    requires c.mtu > 0 && Resent(c) != c && WithinBlock(Resent(c), es)
    ensures var (b, c') := (Resent(c), Run(Resent(c), es));
            && b.cwnd == c.mtu && b.InSlowStart() && b.cwnd < c.cwnd
            && c'.backoff && c'.ssThresh == b.ssThresh
            && c.mtu <= c'.cwnd <= b.ssThresh + c.mtu
  {
    OneBackoffPerBlock(Resent(c), es);
  }

  /** Acknowledgements of packets sent while the bandwidth was used up. */
  predicate AllContinuous(es: seq<Event>) {
    forall i :: 0 <= i < |es| ==> es[i].Ack? && es[i].continuous
  }

  /** Until something is resent or reported missing, slow start has no end, and every
      acknowledgement adds one packet to the window. */
  lemma {:induction false} SlowStartGrows(mtu: nat, es: seq<Event>)
    requires AllContinuous(es)
    ensures var c := Run(NewControl(mtu), es);
            c.cwnd == mtu * (|es| + 1) && c.ssThresh == 0 && c.InSlowStart() && !c.backoff && c.mtu == mtu
  {
    if es != [] {
      var n := |es| - 1;
      SlowStartGrows(mtu, es[..n]);
      assert mtu * (n + 2) == mtu * (n + 1) + mtu;
    }
  }

  /** While the bandwidth is not used up, nothing moves the window or its threshold. */
  lemma {:induction false} IdleKeepsTheWindow(c: Control, es: seq<Event>)
    requires !c.continuous
    requires forall i :: 0 <= i < |es| ==> (es[i].Ack? || es[i].Bandwidth? ==> !es[i].continuous)
    ensures var c' := Run(c, es);
            !c'.continuous && c'.cwnd == c.cwnd && c'.ssThresh == c.ssThresh && c'.block == c.block && c'.backoff == c.backoff
  {
    if es != [] {
      IdleKeepsTheWindow(c, es[..|es| - 1]);
    }
  }

  /** A resend starts a block exactly if the bandwidth was used up, none is open and the
      window is above two packets. The threshold is then half the window. */
  lemma BackoffIff(c: Control)
    ensures var c' := Step(c, Resend);
            if c.continuous && !c.backoff && c.cwnd > 2 * c.mtu then
              && c'.cwnd == c.mtu && c'.backoff && c'.block == c.nextSeq
              && 2 * c'.ssThresh <= c.cwnd <= 2 * c'.ssThresh + 1 && c.mtu <= c'.ssThresh
              && c' == c.(cwnd := c'.cwnd, ssThresh := c'.ssThresh, block := c'.block, backoff := true)
            else
              c' == c
  {
  }

  /** A nak halves the threshold outside a block, and does nothing else. */
  lemma NakHalves(c: Control)
    ensures var c' := Step(c, Nak);
            && c' == c.(ssThresh := c'.ssThresh)
            && (if c.continuous && !c.backoff then 2 * c'.ssThresh <= c.cwnd <= 2 * c'.ssThresh + 1 else c'.ssThresh == c.ssThresh)
  {
  }

  /** Above the threshold the first acknowledgement of a new block does not let the window
      grow: it takes it down to one packet at most. A threshold of at least one packet is
      then not exceeded, and slow start begins again. */
  lemma AvoidanceCollapses(c: Control, rtt: nat, seqNumber: nat)
    requires !c.InSlowStart() && c.mtu > 0 && c.ssThresh >= c.mtu && seqNumber > c.block
    ensures var c' := Step(c, Ack(rtt, seqNumber, true));
            && c'.cwnd <= c.mtu && c'.InSlowStart() && !c'.backoff && c'.block == c.nextSeq
            && c'.cwnd * c.cwnd <= c.mtu * c.mtu < (c'.cwnd + 1) * c.cwnd
  {
    OvershootIsSmall(c.mtu, c.cwnd);
    ShareIsQuotient(c.mtu, c.cwnd);
  }

  lemma ShareIsQuotient(mtu: nat, cwnd: nat)
    requires cwnd > 0
    ensures Share(mtu, cwnd) * cwnd <= mtu * mtu < (Share(mtu, cwnd) + 1) * cwnd
  {
    var q := Share(mtu, cwnd);
    assert mtu * mtu == cwnd * q + mtu * mtu % cwnd;
  }

  /** Above the threshold, and within a block, an acknowledgement moves only the averages. */
  lemma AvoidanceWithinBlock(c: Control, rtt: nat, seqNumber: nat)
    requires !c.InSlowStart() && seqNumber <= c.block
    ensures var c' := Step(c, Ack(rtt, seqNumber, true));
            c' == c.(average := c'.average, continuous := true)
  {
  }

  /** In slow start the window grows by a packet, but passes the threshold only by the
      square of a packet over what it would have been. */
  lemma SlowStartStops(c: Control, rtt: nat, seqNumber: nat)
    requires c.InSlowStart() && c.mtu > 0
    ensures var c' := Step(c, Ack(rtt, seqNumber, true));
            var next := c.cwnd + c.mtu;
            if c.ssThresh == 0 || next <= c.ssThresh then
              c'.cwnd == next
            else
              c.ssThresh <= c'.cwnd && (c'.cwnd - c.ssThresh) * next <= c.mtu * c.mtu < (c'.cwnd - c.ssThresh + 1) * next
    ensures var c' := Step(c, Ack(rtt, seqNumber, true));
            c'.ssThresh == c.ssThresh && c'.backoff == (c.backoff && seqNumber <= c.block)
            && c'.block == if seqNumber > c.block then c.nextSeq else c.block
  {
    ShareIsQuotient(c.mtu, c.cwnd + c.mtu);
  }

  class SlidingWindow {
    var cwnd: nat
    var ssThresh: nat
    const mtuSizeExcludingHeader: nat
    var nextSeq: nat
    var lastRtt: nat
    var estimatedRtt: real
    var deviationRtt: real
    var oldestUnsentAck: nat
    var nextCongestionControlBlock: nat
    var backoffThisBlock: bool
    var speedupThisBlock: bool
    var isContinuousSend: bool

    ghost function View(): Control
      reads this
    {
      Control(mtuSizeExcludingHeader, cwnd, ssThresh, nextSeq, Average(estimatedRtt, deviationRtt),
              nextCongestionControlBlock, backoffThisBlock, isContinuousSend)
    }

    constructor (mtu: nat)
      ensures View() == NewControl(mtu) && oldestUnsentAck == 0 && cwnd == mtuSizeExcludingHeader == mtu
      ensures ssThresh == nextSeq == lastRtt == 0 && estimatedRtt == 50.0 && deviationRtt == 6.25 && !isContinuousSend
    {
      cwnd, ssThresh, mtuSizeExcludingHeader, nextSeq, lastRtt := mtu, 0, mtu, 0, 0;
      estimatedRtt, deviationRtt := 50.0, 6.25;
      oldestUnsentAck, nextCongestionControlBlock := 0, 0;
      backoffThisBlock, speedupThisBlock, isContinuousSend := false, false, false;
    }

    predicate IsInSlowStart()
      reads this
      ensures IsInSlowStart() <==> View().InSlowStart()
    {
      cwnd <= ssThresh || ssThresh == 0
    }

    predicate ShouldSendAck(now: nat)
      reads this
      requires oldestUnsentAck <= now
      ensures ShouldSendAck(now) <==> oldestUnsentAck + 10 <= now
    {
      now - oldestUnsentAck >= SYN
    }

    method GetRto() returns (rto: nat)
      requires estimatedRtt >= 0.0 && deviationRtt >= 0.0
      ensures rto == Rto(View().average)
    {
      rto := Round(U * estimatedRtt + Q * deviationRtt + ADDITIONAL_VAR);
      if rto > MAX_RTO {
        rto := MAX_RTO;
      }
    }

    method GetSeqAndIncrement() returns (current: nat)
      modifies this
      ensures current == old(nextSeq) && nextSeq == current + 1 && View() == Step(old(View()), TakeSeq)
    {
      current := nextSeq;
      nextSeq := nextSeq + 1;
    }

    method GetTransmissionBandwidth(continuous: bool) returns (bandwidth: nat)
      modifies this
      ensures bandwidth == cwnd == old(cwnd) && isContinuousSend == continuous && View() == Step(old(View()), Bandwidth(continuous))
    {
      isContinuousSend := continuous;
      bandwidth := cwnd;
    }

    method OnResend()
      modifies this
      ensures View() == Step(old(View()), Resend)
    {
      if isContinuousSend && !backoffThisBlock && cwnd > mtuSizeExcludingHeader * 2 {
        var thresh := cwnd / 2;
        if thresh < mtuSizeExcludingHeader {
          thresh := mtuSizeExcludingHeader;
        }
        ssThresh := thresh;
        cwnd := mtuSizeExcludingHeader;
        nextCongestionControlBlock := nextSeq;
        backoffThisBlock := true;
      }
    }

    method OnRecvAck(rtt: nat, seqNumber: nat, continuous: bool)
      modifies this
      ensures View() == Step(old(View()), Ack(rtt, seqNumber, continuous)) && lastRtt == rtt
    {
      lastRtt := rtt;
      var diff := rtt as real - estimatedRtt;
      estimatedRtt := MaxReal(estimatedRtt + D * diff, 0.0);
      deviationRtt := MaxReal(deviationRtt + D * (Abs(diff) - deviationRtt), 0.0);
      isContinuousSend := continuous;
      if continuous {
        var isNewCongestionControlPeriod := seqNumber > nextCongestionControlBlock;
        if isNewCongestionControlPeriod {
          backoffThisBlock := false;
          speedupThisBlock := true;
          nextCongestionControlBlock := nextSeq;
        }
        if IsInSlowStart() {
          var next := cwnd + mtuSizeExcludingHeader;
          if next > ssThresh && ssThresh != 0 {
            next := ssThresh + Share(mtuSizeExcludingHeader, next);
          }
          cwnd := next;
        } else if isNewCongestionControlPeriod {
          cwnd := Share(mtuSizeExcludingHeader, cwnd);
        }
      }
    }

    method OnRecvNak()
      modifies this
      ensures View() == Step(old(View()), Nak)
    {
      if isContinuousSend && !backoffThisBlock {
        ssThresh := cwnd / 2;
      }
    }

    /** The time of the first packet is kept for good: nothing clears it. */
    method OnRecvPacket(now: nat)
      modifies this`oldestUnsentAck
      ensures oldestUnsentAck == if old(oldestUnsentAck) == 0 then now else old(oldestUnsentAck)
    {
      if oldestUnsentAck == 0 {
        oldestUnsentAck := now;
      }
    }
  }
}
