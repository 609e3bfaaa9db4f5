/** What Copa keeps over whole flows: delta, velocity, window and reductions. */
module CopaTheorems {
  import opened Wrappers
  import opened Reals
  import opened Powers
  import opened RttWindow
  import opened Copa

  datatype Event = Acked(s: Signals, losses: nat) | PacketSent

  /** What has happened since init: additive steps of delta, consecutive agreeing periods since
      the last disagreement, and periods. */
  datatype Ledger = Ledger(additive: nat, agreeing: nat, periods: nat)

  // ---- one step ----------------------------------------------------------------------------

  /** update_delta makes an additive step. */
  ghost predicate Adds(cfg: Config, a: Aimd, lost: bool, rtt: real, s: Signals) {
    FollowsLosses(cfg.mode, OperationAt(cfg.mode, a.operation, s.IsCopa())) && Increases(a, lost, rtt, s.now)
  }

  ghost predicate EndsPeriod(cfg: Config, c: Control, s: Signals) {
    c.acked >= 2 * PROBE_PKTS - 1 && !c.v.slowStart && PeriodEnds(c.v, s.latest, s.now)
  }

  ghost function Noted(cfg: Config, c: Control, l: Ledger, e: Event): Ledger
    requires Sane(cfg, c)
  {
    if e.PacketSent? then l
    else Ledger(
           l.additive + (if Adds(cfg, c.aimd, false, e.s.rtt, e.s) then 1 else 0)
           + (if e.losses > 0 && Adds(cfg, AimdAt(cfg, c, e.s), true, 0.0, e.s) then 1 else 0),
           if !EndsPeriod(cfg, c, e.s) then l.agreeing else if Agrees(c.v) then l.agreeing + 1 else 0,
           l.periods + (if EndsPeriod(cfg, c, e.s) then 1 else 0))
  }

  ghost function Next(cfg: Config, c: Control, e: Event): Control
    requires Sane(cfg, c)
  {
    match e case Acked(s, losses) => AfterAck(cfg, c, s, losses) case PacketSent => Sent(c)
  }

  // ---- delta ---------------------------------------------------------------------------------

  /** 1 / delta is at least 1 / default and at most n above it. */
  ghost predicate Bounded(delta: real, default: real, n: nat) {
    0.0 < delta <= default && 1.0 / delta <= 1.0 / default + n as real
  }

  /** In the modes that follow losses, starting from the default: in packets of delay, 1 / delta, an
      additive step adds one at most once per RTT, and a loss halves at most once per RTT, down to
      1 / default. */
  lemma DeltaIsAimd(cfg: Config, a: Aimd, lost: bool, rtt: real, s: Signals)
    requires cfg.defaultDelta > 0.0 && (a.prevUpdate != 0.0 ==> 0.0 < a.delta <= cfg.defaultDelta)
    requires cfg.mode == TcpCoop || (cfg.mode == AutoMode && s.copaMin >= s.minRtt + 0.1 * (s.copaMax - s.minRtt))
    ensures var a' := DeltaUpdated(cfg.mode, cfg.defaultDelta, a, lost, rtt, s.now, s.IsCopa());
            var delta := if a.prevUpdate == 0.0 then cfg.defaultDelta else a.delta;
            if lost && s.now > a.prevUpdateLoss + rtt then
              1.0 / a'.delta == Larger(0.5 / delta, 1.0 / cfg.defaultDelta)
              && a'.prevUpdateLoss == s.now && a'.prevUpdate == a.prevUpdate
            else if s.now > a.prevUpdate + rtt then
              1.0 / a'.delta == 1.0 / delta + 1.0 && a'.prevUpdate == s.now && a'.prevUpdateLoss == a.prevUpdateLoss
            else
              a'.delta == delta && a'.prevUpdate == a.prevUpdate && a'.prevUpdateLoss == a.prevUpdateLoss
  {
    var delta := if a.prevUpdate == 0.0 then cfg.defaultDelta else a.delta;
    SteppedIs(delta, cfg.defaultDelta);
    DoubledIs(delta, cfg.defaultDelta);
  }

  lemma SteppedIs(delta: real, default: real)
    requires 0.0 < delta <= default
    ensures Stepped(delta) < default && 1.0 / Stepped(delta) == 1.0 / delta + 1.0
  {
    var x, r := 1.0 / delta, Stepped(delta);
    Quotient(1.0, delta);
    Quotient(1.0, x + 1.0);
    assert (delta - r) * (x + 1.0) == delta;
    assert x > 0.0;
    PositiveFactor(delta - r, x + 1.0);
    InverseIs(r, x + 1.0);
  }

  lemma PositiveFactor(x: real, y: real)
    requires x * y > 0.0 && y > 0.0
    ensures x > 0.0
  {
  }

  lemma DoubledIs(delta: real, default: real)
    requires 0.0 < delta <= default
    ensures 1.0 / Smaller(2.0 * delta, default) == Larger(0.5 / delta, 1.0 / default)
  {
    Quotient(0.5, delta);
    InverseIs(2.0 * delta, 0.5 / delta);
    InversesAreOrdered(2.0 * delta, default);
    InversesAreOrdered(default, 2.0 * delta);
  }

  lemma InversesAreOrdered(x: real, y: real)
    requires x > 0.0 && y > 0.0
    ensures x <= y ==> 1.0 / x >= 1.0 / y
  {
    Quotient(1.0, x);
    Quotient(1.0, y);
    var a, b := 1.0 / x, 1.0 / y;
    assert a > 0.0 && b > 0.0;
    assert x <= y ==> (a - b) * x == b * (y - x) >= 0.0;
  }

  lemma Halved(delta: real)
    requires delta > 0.0
    ensures 0.5 / delta == 0.5 * (1.0 / delta)
  {
  }

  lemma InverseIs(x: real, y: real)
    requires x > 0.0 && x * y == 1.0
    ensures 1.0 / x == y
  {
  }

  /** In automatic mode, delta is the default as long as the minimum RTT of late stays within a
      tenth of the RTT's range above the minimum: an ACK then sets it, unless the last update
      after a loss is less than an RTT old and this ACK reveals no later loss. Otherwise delta
      follows losses. */
  lemma AutoModeFollowsWindows(cfg: Config, c: Control, s: Signals, losses: nat)
    requires Sane(cfg, c) && cfg.mode == AutoMode
    ensures var a, a' := c.aimd, AfterAck(cfg, c, s, losses).aimd;
            if s.copaMin < s.minRtt + 0.1 * (s.copaMax - s.minRtt) then
              a'.operation == DefaultMode
              && a'.delta == if a.prevUpdate == 0.0 || a.prevUpdateLoss + s.rtt < s.now
                                || (losses > 0 && a.prevUpdateLoss < s.now) then cfg.defaultDelta else a.delta
            else
              a'.operation == LossSensitiveMode
              && (0.0 < a.delta <= cfg.defaultDelta && a.prevUpdate != 0.0 && s.now > 0.0 ==>
                    var d := 1.0 / a.delta + if s.now > a.prevUpdate + s.rtt then 1.0 else 0.0;
                    1.0 / a'.delta
                    == if losses == 0 then d
                       else if s.now > a.prevUpdateLoss then Larger(0.5 * d, 1.0 / cfg.defaultDelta)
                       else if s.now > a.prevUpdate then 1.0 / a.delta + 1.0 else d)
  {
    if s.copaMin >= s.minRtt + 0.1 * (s.copaMax - s.minRtt) && 0.0 < c.aimd.delta <= cfg.defaultDelta
       && c.aimd.prevUpdate != 0.0 && s.now > 0.0 {
      var a := AimdAt(cfg, c, s);
      SteppedIs(c.aimd.delta, cfg.defaultDelta);
      DeltaIsAimd(cfg, c.aimd, false, s.rtt, s);
      if losses > 0 {
        DeltaIsAimd(cfg, a, true, 0.0, s);
        Halved(a.delta);
      }
    }
  }

  /** The bound survives one update of delta, whose additive step is counted. */
  lemma UpdateKeepsBound(cfg: Config, a: Aimd, lost: bool, rtt: real, s: Signals, n: nat)
    requires cfg.defaultDelta > 0.0 && (a.prevUpdate != 0.0 ==> Bounded(a.delta, cfg.defaultDelta, n))
    ensures var a' := DeltaUpdated(cfg.mode, cfg.defaultDelta, a, lost, rtt, s.now, s.IsCopa());
            Bounded(a'.delta, cfg.defaultDelta, if Adds(cfg, a, lost, rtt, s) then n + 1 else n)
  {
  }

  /** Outside the modes that follow losses, the first ACK replaces delta by the default for
      the rest of the flow. */
  ghost predicate DeltaIsDefault(cfg: Config, c: Control) {
    c.aimd.operation == DefaultMode && (c.aimd.prevUpdate != 0.0 ==> c.aimd.delta == cfg.defaultDelta)
  }

  lemma ConfiguredDeltaIsReplaced(cfg: Config, c: Control, s: Signals, losses: nat)
    requires Sane(cfg, c) && DeltaIsDefault(cfg, c) && !Adaptive(cfg.mode)
    ensures var c' := AfterAck(cfg, c, s, losses);
            c'.aimd.delta == cfg.defaultDelta && DeltaIsDefault(cfg, c')
  {
  }

  /** A constant delta given in the configuration is in force only until the first ACK. */
  lemma ConstantDeltaIsLost(cfg: Config, delta: real, externalMinRtt: real, s: Signals)
    requires cfg.mode == ConstantDelta && cfg.defaultDelta > 0.0
    ensures var c := Start(cfg, delta, externalMinRtt);
            && Sane(cfg, c) && c.aimd.delta == delta
            && AfterAck(cfg, c, s, 0).aimd.delta == cfg.defaultDelta
  {
  }

  // ---- velocity --------------------------------------------------------------------------------

  /** The speed is a power of two that at most doubled in every agreeing period. */
  ghost predicate IsSpeed(amt: real, agreeing: nat) {
    exists k: nat :: k <= agreeing && amt == Pow2(k) as real
  }

  /** The direction of a period is made of its packets, each counting one way or the other;
      before the first period ends it starts at one. */
  ghost predicate DirectionOf(dir: int, pkts: int, periods: nat) {
    var start := if periods == 0 then 1 else 0;
    pkts >= 0 && -pkts <= dir - start <= pkts && (dir - start - pkts) % 2 == 0
  }

  ghost predicate Driven(v: Velocity, l: Ledger) {
    && IsSpeed(v.updateAmt, l.agreeing) && (v.prevUpdateDir == 1 || v.prevUpdateDir == -1)
    && DirectionOf(v.updateDir, v.pktsPerRtt, l.periods)
  }

  lemma PeriodKeepsSpeed(v: Velocity, agreeing: nat, now: real)
    requires IsSpeed(v.updateAmt, agreeing)
    ensures IsSpeed(PeriodEnded(v, now).updateAmt, if Agrees(v) then agreeing + 1 else 0)
  {
    var k: nat :| k <= agreeing && v.updateAmt == Pow2(k) as real;
    assert Pow2(0) == 1;
    if Agrees(v) {
      assert Truncated(v.updateAmt) == Pow2(k);
      assert PeriodEnded(v, now).updateAmt == Pow2(k + 1) as real;
    }
  }

  lemma DampingKeepsSpeed(amt: real, share: real, agreeing: nat)
    requires IsSpeed(amt, agreeing)
    ensures IsSpeed(Damped(amt, share), agreeing)
  {
    var k: nat :| k <= agreeing && amt == Pow2(k) as real;
    if amt > share {
      if k == 0 {
        assert Pow2(0) == 1;
      } else {
        assert Damped(amt, share) == Pow2(k - 1) as real;
      }
    }
  }

  lemma PeriodKeepsDriven(v: Velocity, l: Ledger, l': Ledger, now: real)
    requires Driven(v, l) && l'.periods > 0 && l'.agreeing == if Agrees(v) then l.agreeing + 1 else 0
    ensures Driven(PeriodEnded(v, now), l')
  {
    PeriodKeepsSpeed(v, l.agreeing, now);
  }

  lemma MoveKeepsDriven(v: Velocity, l: Ledger, delta: real, target: Option<real>)
    requires Driven(v, l) && v.window >= 2.0 && delta > 0.0
    ensures Driven(Moved(v, delta, target), l)
  {
    DampingKeepsSpeed(v.updateAmt, v.window * delta, l.agreeing);
  }

  lemma AckKeepsDriven(cfg: Config, c: Control, l: Ledger, s: Signals, losses: nat)
    requires Sane(cfg, c) && Driven(c.v, l)
    ensures Driven(AfterAck(cfg, c, s, losses).v, Noted(cfg, c, l, Acked(s, losses)))
  {
    var l' := Noted(cfg, c, l, Acked(s, losses));
    DeltaIsPositive(cfg, c, s);
    var delta := AimdAt(cfg, c, s).delta;
    var target := Target(delta, s.unjittered, s.unjittered - s.minRtt);
    if c.acked >= 2 * PROBE_PKTS - 1 && !c.v.slowStart {
      if PeriodEnds(c.v, s.latest, s.now) {
        PeriodKeepsDriven(c.v, l, l', s.now);
        MoveKeepsDriven(PeriodEnded(c.v, s.now), l', delta, target);
      } else {
        MoveKeepsDriven(c.v, l', delta, target);
      }
    }
  }

  // ---- steering ------------------------------------------------------------------------------

  /** A flow at its target, sending a window per RTT, has 1 / delta packets in the queue. */
  lemma TargetBalancesDelay(delta: real, s: Signals)
    requires delta > 0.0 && s.unjittered > 0.0
    ensures var target, queuing := Target(delta, s.unjittered, s.unjittered - s.minRtt), s.unjittered - s.minRtt;
            if queuing == 0.0 then target == None
            else target.Some? && target.value / s.unjittered * queuing == 1.0 / delta
  {
    var queuing := s.unjittered - s.minRtt;
    if queuing != 0.0 { Balance(delta, s.unjittered, queuing); }
  }

  lemma Balance(delta: real, rtt: real, queuing: real)
    requires delta > 0.0 && rtt > 0.0 && queuing != 0.0 && queuing * delta != 0.0
    ensures rtt / (queuing * delta) / rtt * queuing == 1.0 / delta
  {
    var target := rtt / (queuing * delta);
    assert target * (queuing * delta) == rtt;
    var rate := target / rtt;
    assert rate * rtt == target;
    assert (rate * (queuing * delta) - 1.0) * rtt == 0.0;
    assert rate * (queuing * delta) == 1.0;
    assert (rate * queuing) * delta == 1.0;
  }

  /** Outside slow start the window moves towards the target, down to 2 at most. */
  lemma SteersTowardsTarget(v: Velocity, delta: real, s: Signals)
    requires v.window >= 2.0 && delta > 0.0 && !v.slowStart
    ensures var w := Steered(v, delta, s).window;
            if Reached(v.window, Target(delta, s.unjittered, s.unjittered - s.minRtt)) then w == 2.0 || w < v.window
            else w > v.window
  {
    var u := if PeriodEnds(v, s.latest, s.now) then PeriodEnded(v, s.now) else v;
    StrideIsPositive(Damped(u.updateAmt, u.window * delta), delta, v.window);
  }

  lemma StrideIsPositive(amt: real, delta: real, window: real)
    requires amt > 0.0 && delta > 0.0 && window > 0.0
    ensures Stride(amt, delta, window) > 0.0
  {
    var d := delta * window;
    assert d > 0.0;
    assert amt / d > 0.0;
  }

  lemma Quotient(x: real, y: real)
    requires y != 0.0
    ensures x / y * y == x
  {
  }

  /** A window has reached its target if there is a queue, and the packets in it when a window is
      sent per RTT, window / rtt * queuing, are 1 / delta or more. */
  lemma ReachedExactly(window: real, delta: real, rtt: real, queuing: real)
    requires window > 0.0 && delta > 0.0 && queuing >= 0.0
    ensures var target := Target(delta, rtt, queuing);
            Reached(window, target) <==> queuing > 0.0 && window * (queuing * delta) >= rtt
  {
    if queuing > 0.0 {
      var share := queuing * delta;
      assert share > 0.0;
      Quotient(rtt, share);
      var target := rtt / share;
      assert window >= target ==> window * share >= target * share;
      assert window < target ==> window * share < target * share;
    }
  }

  /** The window after update_intersend_time, at least 2, is spread over half an unjittered RTT. */
  lemma PacingRule(v: Velocity, delta: real, s: Signals)
    requires v.window >= 2.0 && delta > 0.0
    ensures var v' := Steered(v, delta, s);
            v'.window >= 2.0 && v'.curIntersend * v'.window == 0.5 * s.unjittered && v'.intersend == v'.curIntersend
  {
    Quotient(0.5 * s.unjittered, Steered(v, delta, s).window);
  }

  /** In slow start the window grows by one packet. Slow start ends when there is a queue and the
      packets in it, window / rtt * queuing, have reached 1 / delta. */
  lemma SlowStartRule(v: Velocity, delta: real, s: Signals)
    requires v.window >= 2.0 && delta > 0.0 && v.slowStart && s.minRtt <= s.unjittered
    ensures var v', queuing := Steered(v, delta, s), s.unjittered - s.minRtt;
            && v'.window == v.window + 1.0
            && (v'.slowStart <==> queuing == 0.0 || v'.window * (queuing * delta) < s.unjittered)
  {
    ReachedExactly(v.window + 1.0, delta, s.unjittered, s.unjittered - s.minRtt);
  }

  /** After slow start, the stride is added to a window below its target and taken from one that has
      reached it, down to 2. The direction of a period counts the ACKs of either kind. */
  lemma WindowRule(v: Velocity, delta: real, s: Signals)
    requires v.window >= 2.0 && delta > 0.0 && !v.slowStart
    ensures var v', target := Steered(v, delta, s), Target(delta, s.unjittered, s.unjittered - s.minRtt);
            var stride, dir := Stride(v'.updateAmt, delta, v.window),
              if s.now > v.lastUpdate + s.latest then 0 else v.updateDir;
            && v'.updateAmt >= 1.0 && !v'.slowStart
            && v'.window == Larger(2.0, if Reached(v.window, target) then v.window - stride else v.window + stride)
            && v'.updateDir == if Reached(v.window, target) then dir - 1 else dir + 1
  {
  }

  /** The stride is the speed divided by delta and the window. */
  lemma StrideIs(amt: real, delta: real, window: real)
    requires amt > 0.0 && delta > 0.0 && window > 0.0
    ensures Stride(amt, delta, window) > 0.0 && Stride(amt, delta, window) * delta * window == amt
  {
    StrideIsPositive(amt, delta, window);
    NonZero(delta, window);
    Quotient(amt, delta * window);
  }

  /** At an ACK that ends a period, more than the latest RTT after the last one, the direction is kept
      and the speed doubles if the periods agree; the direction flips and the speed is one if not. Within
      a period neither changes. A speed above delta times the window is then halved, but not below one. */
  lemma VelocityRule(v: Velocity, delta: real, s: Signals, k: nat)
    requires v.window >= 2.0 && delta > 0.0 && !v.slowStart && v.updateAmt == Pow2(k) as real
    ensures var v', ends := Steered(v, delta, s), s.now > v.lastUpdate + s.latest;
            var agrees := (v.prevUpdateDir > 0 && v.updateDir > 0) || (v.prevUpdateDir < 0 && v.updateDir < 0);
            var speed := if !ends then v.updateAmt else if agrees then 2.0 * v.updateAmt else 1.0;
            && v'.prevUpdateDir == (if ends && !agrees then -v.prevUpdateDir else v.prevUpdateDir)
            && v'.lastUpdate == (if ends then s.now else v.lastUpdate)
            && v'.pktsPerRtt == (if ends then 1 else v.pktsPerRtt + 1)
            && v'.updateAmt == if speed > v.window * delta && speed > 1.0 then Larger(speed / 2.0, 1.0) else speed
  {
    AgreesBySign(v);
    assert Truncated(v.updateAmt) == Pow2(k) >= 1;
    var share := v.window * delta;
    var u := if PeriodEnds(v, s.latest, s.now) then PeriodEnded(v, s.now) else v;
    assert Steered(v, delta, s).updateAmt == Damped(u.updateAmt, share);
  }

  lemma AgreesBySign(v: Velocity)
    ensures Agrees(v) <==> (v.prevUpdateDir > 0 && v.updateDir > 0) || (v.prevUpdateDir < 0 && v.updateDir < 0)
  {
  }

  // ---- reductions ------------------------------------------------------------------------------

  /** However many losses one ACK reports, a window closes first more than twice the RTT after
      the last one closed, and then not again at the same time unless the RTT is negative. */
  lemma {:induction false} ClosedAtMostNow(w: LossWindow, losses: nat, now: real, rtt: real)
    ensures var r := AllObserved(w, losses, now, rtt);
            && (r.0.prevWinTime == w.prevWinTime || (r.0.prevWinTime == now && now > w.prevWinTime + 2.0 * rtt))
            && (r.1 ==> r.0.prevWinTime == now && now > w.prevWinTime + 2.0 * rtt)
  {
    if losses > 0 { ClosedAtMostNow(w, losses - 1, now, rtt); }
  }

  /** Only ACKs after the first 19 steer. */
  lemma SteersAfterProbing(cfg: Config, c: Control, s: Signals)
    requires Sane(cfg, c)
    ensures AimdAt(cfg, c, s).delta > 0.0
    ensures SteeredAt(cfg, c, s) == if c.acked < 19 then c.v else Steered(c.v, AimdAt(cfg, c, s).delta, s)
  {
    DeltaIsPositive(cfg, c, s);
  }

  lemma ReducedOrSteered(cfg: Config, c: Control, s: Signals, losses: nat)
    requires Sane(cfg, c)
    ensures AfterAck(cfg, c, s, losses).v
            == if ReducesAt(c, s, losses) then Reduced(SteeredAt(cfg, c, s), s.unjittered) else SteeredAt(cfg, c, s)
  {
  }

  /** An ACK that triggers a reduction leaves seven tenths of the window that steering leaves, but at
      least 2, again spread over half an unjittered RTT; any other ACK leaves the window as steering
      does. The velocity is always that of the steering. */
  lemma ReductionShrinksWindow(cfg: Config, c: Control, s: Signals, losses: nat)
    requires Sane(cfg, c)
    ensures var v, v' := SteeredAt(cfg, c, s), AfterAck(cfg, c, s, losses).v;
            if ReducesAt(c, s, losses) then
              && (10.0 * v'.window == 7.0 * v.window || (v'.window == 2.0 && 7.0 * v.window <= 20.0))
              && v'.window >= 2.0 && v'.curIntersend * v'.window == 0.5 * s.unjittered
              && v'.intersend == v'.curIntersend
              && v' == v.(window := v'.window, curIntersend := v'.curIntersend, intersend := v'.intersend)
            else v' == v
  {
    ReducedOrSteered(cfg, c, s, losses);
    ReducedWindow(SteeredAt(cfg, c, s), s.unjittered);
  }

  lemma ReducedWindow(v: Velocity, unjittered: real)
    ensures var v' := Reduced(v, unjittered);
            && (10.0 * v'.window == 7.0 * v.window || (v'.window == 2.0 && 7.0 * v.window <= 20.0))
            && v'.window >= 2.0 && v'.curIntersend * v'.window == 0.5 * unjittered && v'.intersend == v'.curIntersend
            && v' == v.(window := v'.window, curIntersend := v'.curIntersend, intersend := v'.intersend)
  {
    Quotient(0.5 * unjittered, Reduced(v, unjittered).window);
  }

  /** The loss window after k lost packets of one ACK: it closes at the first of them that makes it
      21 packets or more, if more than twice the RTT has passed since it last closed. */
  lemma {:induction false} ObservedLosses(w: LossWindow, k: nat, now: real, rtt: real)
    requires rtt >= 0.0
    ensures var first := if w.numPkts >= 20 then 1 else 21 - w.numPkts;
            AllObserved(w, k, now, rtt)
            == if now > w.prevWinTime + 2.0 * rtt && first <= k then
                 (LossWindow(k - first, k - first, now), 10 * (w.numLost + first) > 3 * (w.numPkts + first))
               else (LossWindow(w.numLost + k, w.numPkts + k, w.prevWinTime), false)
  {
    if k > 0 { ObservedLosses(w, k - 1, now, rtt); }
  }

  /** An ACK reduces the window exactly if more than twice the latest RTT has passed since the loss
      window last closed, the packets it reports make that window 21 packets or more, and more than
      30% of the packets up to that point were lost. */
  lemma ReducesExactly(c: Control, s: Signals, losses: nat)
    requires s.latest >= 0.0
    ensures var first := if c.loss.numPkts >= 20 then 1 else 21 - c.loss.numPkts;
            var lost := c.loss.numLost + if first <= losses then first else losses;
            ReducesAt(c, s, losses)
            <==> s.now > c.loss.prevWinTime + 2.0 * s.latest && first <= losses + 1
                 && 10 * lost > 3 * (c.loss.numPkts + first)
  {
    ObservedLosses(c.loss, losses, s.now, s.latest);
  }

  /** An ACK that reduces the window comes more than twice the latest RTT after the last loss
      window closed, and closes one itself; otherwise windows close at ACKs only. */
  lemma ReductionClosesWindow(cfg: Config, c: Control, s: Signals, losses: nat)
    requires Sane(cfg, c)
    ensures ReducesAt(c, s, losses) ==> s.now > c.loss.prevWinTime + 2.0 * s.latest
    ensures var w := AfterAck(cfg, c, s, losses).loss.prevWinTime;
            (w == c.loss.prevWinTime || w == s.now) && (ReducesAt(c, s, losses) ==> w == s.now)
  {
    ClosedAtMostNow(c.loss, losses, s.now, s.latest);
  }

  // ---- whole flows -------------------------------------------------------------------------------

  ghost function Flow(cfg: Config, c: Control, es: seq<Event>): (c': Control)
    requires Sane(cfg, c)
    ensures Sane(cfg, c')
    decreases |es|
  {
    if es == [] then c
    else
      NextIsSane(cfg, Flow(cfg, c, es[..|es| - 1]), es[|es| - 1]);
      Next(cfg, Flow(cfg, c, es[..|es| - 1]), es[|es| - 1])
  }

  lemma NextIsSane(cfg: Config, c: Control, e: Event)
    requires Sane(cfg, c)
    ensures Sane(cfg, Next(cfg, c, e))
  {
  }

  ghost function Notes(cfg: Config, c: Control, es: seq<Event>): Ledger
    requires Sane(cfg, c)
    decreases |es|
  {
    if es == [] then Ledger(0, 0, 0)
    else Noted(cfg, Flow(cfg, c, es[..|es| - 1]), Notes(cfg, c, es[..|es| - 1]), es[|es| - 1])
  }

  ghost predicate Kept(cfg: Config, c: Control, l: Ledger) {
    && (c.acked > 0 || c.aimd.prevUpdate != 0.0 ==> Bounded(c.aimd.delta, cfg.defaultDelta, l.additive))
    && Driven(c.v, l) && c.v.window >= 2.0
  }

  lemma StepKeeps(cfg: Config, c: Control, l: Ledger, e: Event)
    requires Sane(cfg, c) && Kept(cfg, c, l)
    ensures Kept(cfg, Next(cfg, c, e), Noted(cfg, c, l, e))
  {
    if e.Acked? {
      var l1 := l.additive + if Adds(cfg, c.aimd, false, e.s.rtt, e.s) then 1 else 0;
      UpdateKeepsBound(cfg, c.aimd, false, e.s.rtt, e.s, l.additive);
      UpdateKeepsBound(cfg, AimdAt(cfg, c, e.s), true, 0.0, e.s, l1);
      AckKeepsDriven(cfg, c, l, e.s, e.losses);
      AckKeepsSane(cfg, c, e.s, e.losses);
    }
  }

  /** From init on, whatever ACKs arrive and whatever they report: after the first ACK 1 / delta
      lies between 1 / default and 1 / default plus the additive steps, the speed is a power of
      two bounded by the agreeing periods, and the window is at least 2. */
  lemma {:induction false} FlowKeeps(cfg: Config, delta: real, externalMinRtt: real, es: seq<Event>)
    requires cfg.defaultDelta > 0.0
    ensures var c := Start(cfg, delta, externalMinRtt); Kept(cfg, Flow(cfg, c, es), Notes(cfg, c, es))
    decreases |es|
  {
    var c, n := Start(cfg, delta, externalMinRtt), |es| - 1;
    if es == [] {
      assert Pow2(0) == 1 && IsSpeed(c.v.updateAmt, 0);
    } else {
      FlowKeeps(cfg, delta, externalMinRtt, es[..n]);
      StepKeeps(cfg, Flow(cfg, c, es[..n]), Notes(cfg, c, es[..n]), es[n]);
    }
  }

  /** In the modes that do not follow losses, delta is the default from the first ACK on,
      whatever delta was configured. */
  lemma {:induction false} DeltaIsDefaultInFlow(cfg: Config, delta: real, externalMinRtt: real, es: seq<Event>, i: nat)
    requires cfg.defaultDelta > 0.0 && !Adaptive(cfg.mode) && i < |es| && es[i].Acked?
    ensures Flow(cfg, Start(cfg, delta, externalMinRtt), es).aimd.delta == cfg.defaultDelta
    decreases |es|
  {
    var c, n := Start(cfg, delta, externalMinRtt), |es| - 1;
    FlowIsDefault(cfg, delta, externalMinRtt, es[..n]);
    if es[n].Acked? {
      ConfiguredDeltaIsReplaced(cfg, Flow(cfg, c, es[..n]), es[n].s, es[n].losses);
    } else {
      DeltaIsDefaultInFlow(cfg, delta, externalMinRtt, es[..n], i);
    }
  }

  /** A configured constant delta is kept exactly as long as no ACK arrives, unless it is the
      default anyway. */
  lemma {:induction false} ConstantDeltaIsKept(cfg: Config, delta: real, externalMinRtt: real, es: seq<Event>)
    requires cfg.mode == ConstantDelta && cfg.defaultDelta > 0.0
    ensures Flow(cfg, Start(cfg, delta, externalMinRtt), es).aimd.delta == delta
            <==> delta == cfg.defaultDelta || forall i :: 0 <= i < |es| ==> es[i].PacketSent?
    decreases |es|
  {
    if i :| 0 <= i < |es| && es[i].Acked? {
      DeltaIsDefaultInFlow(cfg, delta, externalMinRtt, es, i);
    } else if es != [] {
      ConstantDeltaIsKept(cfg, delta, externalMinRtt, es[..|es| - 1]);
    }
  }

  lemma {:induction false} FlowIsDefault(cfg: Config, delta: real, externalMinRtt: real, es: seq<Event>)
    requires cfg.defaultDelta > 0.0 && !Adaptive(cfg.mode)
    ensures DeltaIsDefault(cfg, Flow(cfg, Start(cfg, delta, externalMinRtt), es))
    decreases |es|
  {
    if es != [] {
      var n := |es| - 1;
      FlowIsDefault(cfg, delta, externalMinRtt, es[..n]);
      if es[n].Acked? {
        ConfiguredDeltaIsReplaced(cfg, Flow(cfg, Start(cfg, delta, externalMinRtt), es[..n]), es[n].s, es[n].losses);
      }
    }
  }

  /** Slow start, once left, is not resumed before the next init. */
  lemma {:induction false} SlowStartIsNotResumed(cfg: Config, c: Control, es: seq<Event>, i: nat)
    requires Sane(cfg, c) && i <= |es| && !Flow(cfg, c, es[..i]).v.slowStart
    ensures !Flow(cfg, c, es).v.slowStart
    decreases |es|
  {
    if i < |es| {
      assert es[..|es| - 1][..i] == es[..i];
      SlowStartIsNotResumed(cfg, c, es[..|es| - 1], i);
    } else {
      assert es[..i] == es;
    }
  }

  /** The ACKs come in the order of the clock. */
  ghost predicate InTime(es: seq<Event>) {
    forall i, j :: 0 <= i < j < |es| && es[i].Acked? && es[j].Acked? ==> es[i].s.now <= es[j].s.now
  }

  ghost predicate Reduces(cfg: Config, c: Control, es: seq<Event>, i: nat)
    requires Sane(cfg, c) && i < |es|
  {
    es[i].Acked? && ReducesAt(Flow(cfg, c, es[..i]), es[i].s, es[i].losses)
  }

  /** After a reduction, the last loss window closed at that time or later. */
  lemma ClosedSince(cfg: Config, c: Control, es: seq<Event>, i: nat, j: nat)
    requires Sane(cfg, c) && InTime(es) && i < j <= |es| && Reduces(cfg, c, es, i)
    ensures Flow(cfg, c, es[..j]).loss.prevWinTime >= es[i].s.now
  {
    var closed := seq(|es| + 1, k requires 0 <= k <= |es| => Flow(cfg, c, es[..k]).loss.prevWinTime);
    forall k | 0 <= k < |es| ensures closed[k + 1] == closed[k] || (es[k].Acked? && closed[k + 1] == es[k].s.now) {
      ClosedAfter(cfg, c, es, k);
    }
    ClosedAfter(cfg, c, es, i);
    StaysClosed(closed, es, i, j);
  }

  lemma {:induction false} StaysClosed(closed: seq<real>, es: seq<Event>, i: nat, j: nat)
    requires InTime(es) && |closed| == |es| + 1 && i < j <= |es| && es[i].Acked? && closed[i + 1] == es[i].s.now
    requires forall k :: 0 <= k < |es| ==> closed[k + 1] == closed[k] || (es[k].Acked? && closed[k + 1] == es[k].s.now)
    ensures closed[j] >= es[i].s.now
    decreases j
  {
    if j - 1 > i {
      StaysClosed(closed, es, i, j - 1);
      assert closed[j - 1 + 1] == closed[j];
    }
  }

  /** A step leaves the time of the last closed window, or makes it that of its ACK. */
  lemma ClosedAfter(cfg: Config, c: Control, es: seq<Event>, i: nat)
    requires Sane(cfg, c) && i < |es|
    ensures var w, w' := Flow(cfg, c, es[..i]).loss.prevWinTime, Flow(cfg, c, es[..i + 1]).loss.prevWinTime;
            (w' == w || (es[i].Acked? && w' == es[i].s.now)) && (Reduces(cfg, c, es, i) ==> w' == es[i].s.now)
  {
    assert es[..i + 1][..i] == es[..i];
    if es[i].Acked? { ReductionClosesWindow(cfg, Flow(cfg, c, es[..i]), es[i].s, es[i].losses); }
  }

  /** Any two loss-triggered reductions in a flow are more than twice the latest RTT apart,
      however many losses an ACK reports. */
  lemma ReductionsAreApart(cfg: Config, c: Control, es: seq<Event>, i: nat, j: nat)
    requires Sane(cfg, c) && InTime(es) && i < j < |es| && Reduces(cfg, c, es, i) && Reduces(cfg, c, es, j)
    ensures es[j].s.now - es[i].s.now > 2.0 * es[j].s.latest
  {
    ClosedSince(cfg, c, es, i, j);
    ReductionClosesWindow(cfg, Flow(cfg, c, es[..j]), es[j].s, es[j].losses);
  }
}
