/** The Copa congestion controller (markoviancc.cc, ReduceOnLoss in estimators.cc). */
module Copa {
  import opened Wrappers
  import opened Reals
  import opened RttWindow

  // ---- what an ACK shows the controller ----------------------------------------------

  /** The clock and the RTT statistics at an ACK; rtt is the sample of this ACK. */
  datatype Signals = Signals(
    now: real, rtt: real, minRtt: real, unjittered: real, latest: real, copaMin: real, copaMax: real)
  {
    /** The queue has been nearly empty of late, as it is among Copa flows. */
    ghost predicate IsCopa() {
      copaMin < minRtt + 0.1 * (copaMax - minRtt)
    }
  }

  // ---- reduction on loss ----------------------------------------------------------------

  datatype LossWindow = LossWindow(numLost: nat, numPkts: nat, prevWinTime: real)

  ghost predicate WindowCloses(w: LossWindow, now: real, rtt: real) {
    now > w.prevWinTime + 2.0 * rtt && w.numPkts + 1 > 20
  }

  /** The loss window after one packet. */
  ghost function Observed(w: LossWindow, loss: bool, now: real, rtt: real): LossWindow {
    if WindowCloses(w, now, rtt) then LossWindow(0, 0, now)
    else LossWindow(w.numLost + if loss then 1 else 0, w.numPkts + 1, w.prevWinTime)
  }

  /** More than 30% of the packets of a window that closes were lost. */
  ghost predicate Triggers(w: LossWindow, loss: bool, now: real, rtt: real) {
    WindowCloses(w, now, rtt) && 10 * (w.numLost + if loss then 1 else 0) > 3 * (w.numPkts + 1)
  }

  class ReduceOnLoss {
    var numLost: nat
    var numPkts: nat
    var prevWinTime: real

    ghost function State(): LossWindow
      reads this
    {
      LossWindow(numLost, numPkts, prevWinTime)
    }

    constructor ()
      ensures State() == LossWindow(0, 0, 0.0)
    {
      numLost, numPkts, prevWinTime := 0, 0, 0.0;
    }

    /** reset */
    method Reset()
      modifies this
      ensures State() == LossWindow(0, 0, 0.0)
    {
      numLost, numPkts, prevWinTime := 0, 0, 0.0;
    }

    /** update */
    method Update(loss: bool, curTime: real, rtt: real) returns (reduce: bool)
      modifies this
      ensures State() == Observed(old(State()), loss, curTime, rtt)
      ensures reduce <==> Triggers(old(State()), loss, curTime, rtt)
    {
      if loss { numLost := numLost + 1; }
      numPkts := numPkts + 1;
      if curTime > prevWinTime + 2.0 * rtt && numPkts > 20 {
        var lossRate := numLost as real / numPkts as real;
        RateAbove(numLost, numPkts, lossRate);
        prevWinTime, numLost, numPkts := curTime, 0, 0;
        return lossRate > 0.3;
      }
      return false;
    }
  }

  lemma RateAbove(lost: nat, pkts: nat, rate: real)
    requires pkts > 0 && rate == lost as real / pkts as real
    ensures rate > 0.3 <==> 10 * lost > 3 * pkts
  {
    QuotientAbove(lost as real, pkts as real, rate, 0.3);
  }

  lemma QuotientAbove(x: real, y: real, q: real, bound: real)
    requires y > 0.0 && q == x / y
    ensures q > bound <==> x > bound * y
  {
  }

  /** The window and the reduction flag after a number of lost packets in one ACK. */
  ghost function AllObserved(w: LossWindow, losses: nat, now: real, rtt: real): (LossWindow, bool) {
    if losses == 0 then (w, false)
    else
      var before := AllObserved(w, losses - 1, now, rtt);
      (Observed(before.0, true, now, rtt), before.1 || Triggers(before.0, true, now, rtt))
  }

  // ---- delta -------------------------------------------------------------------------------

  datatype UtilityMode = ConstantDelta | PFabricFct | DelFct | BoundedDelay | BoundedDelayEnd | MaxThroughput
                       | BoundedQdelayEnd | BoundedFdelayEnd | TcpCoop | ConstBehavior | AutoMode

  datatype OperationMode = DefaultMode | LossSensitiveMode

  datatype Aimd = Aimd(delta: real, operation: OperationMode, prevUpdate: real, prevUpdateLoss: real)

  /** The modes whose delta follows losses. */
  predicate Adaptive(mode: UtilityMode) {
    mode == TcpCoop || mode == AutoMode
  }

  ghost predicate FollowsLosses(mode: UtilityMode, operation: OperationMode) {
    mode == TcpCoop || operation == LossSensitiveMode
  }

  /** The operation mode that update_delta acts in. */
  ghost function OperationAt(mode: UtilityMode, operation: OperationMode, isCopa: bool): OperationMode {
    if mode != AutoMode then operation else if isCopa then DefaultMode else LossSensitiveMode
  }

  /** An additive step: one more packet of delay. */
  ghost predicate Increases(a: Aimd, lost: bool, rtt: real, now: real) {
    !(lost && a.prevUpdateLoss + rtt < now) && a.prevUpdate + rtt < now
  }

  /** update_delta */
  ghost function DeltaUpdated(mode: UtilityMode, default: real, a: Aimd, lost: bool, rtt: real, now: real,
      isCopa: bool): Aimd
    requires default > 0.0 && (a.prevUpdate != 0.0 ==> a.delta > 0.0)
  {
    var op := OperationAt(mode, a.operation, isCopa);
    if FollowsLosses(mode, op) then
      var delta := if a.prevUpdate == 0.0 then default else a.delta;
      if Increases(a, lost, rtt, now) then Aimd(Smaller(Stepped(delta), default), op, now, a.prevUpdateLoss)
      else if lost && a.prevUpdateLoss + rtt < now then Aimd(Smaller(2.0 * delta, default), op, a.prevUpdate, now)
      else Aimd(Smaller(delta, default), op, a.prevUpdate, a.prevUpdateLoss)
    else if a.prevUpdate == 0.0 || a.prevUpdateLoss + rtt < now then Aimd(default, op, now, a.prevUpdateLoss)
    else a.(operation := op)
  }

  // ---- window and velocity ------------------------------------------------------------------

  /** The window, the direction and speed of its changes, and the pacing that follows from it. */
  datatype Velocity = Velocity(
    window: real, slowStart: bool, lastUpdate: real, updateDir: int, prevUpdateDir: int, pktsPerRtt: int,
    updateAmt: real, curIntersend: real, intersend: real)

  /** The window Copa steers to; None when there is no queuing delay. */
  function Target(delta: real, rtt: real, queuingDelay: real): Option<real>
    requires delta > 0.0
  {
    if queuingDelay == 0.0 then None
    else
      NonZero(queuingDelay, delta);
      Some(rtt / (queuingDelay * delta))
  }

  lemma NonZero(x: real, y: real)
    requires x != 0.0 && y != 0.0
    ensures x * y != 0.0
  {
  }

  /** By how much the window moves at an ACK. */
  function Stride(amt: real, delta: real, window: real): real
    requires delta > 0.0 && window > 0.0
  {
    NonZero(delta, window);
    amt / (delta * window)
  }

  /** delta after an additive step of 1 / delta. */
  function Stepped(delta: real): (r: real)
    requires delta > 0.0
    ensures r > 0.0
  {
    assert 1.0 / delta > 0.0;
    1.0 / (1.0 / delta + 1.0)
  }

  ghost predicate Reached(window: real, target: Option<real>) {
    target.Some? && window >= target.value
  }

  /** A period of one RTT has ended. */
  ghost predicate PeriodEnds(v: Velocity, latest: real, now: real) {
    v.lastUpdate + latest < now
  }

  /** The direction of the period agrees with the one before. */
  ghost predicate Agrees(v: Velocity) {
    v.prevUpdateDir * v.updateDir > 0
  }

  function Truncated(x: real): int {
    if x >= 0.0 then x.Floor else -((-x).Floor)
  }

  /** Doubles the speed if directions agree, and starts anew otherwise. */
  ghost function PeriodEnded(v: Velocity, now: real): Velocity {
    v.(updateAmt := if !Agrees(v) then 1.0
                    else if v.updateAmt < 0.006 then v.updateAmt + 0.005 else (2 * Truncated(v.updateAmt)) as real,
       prevUpdateDir := if Agrees(v) then v.prevUpdateDir else -v.prevUpdateDir,
       lastUpdate := now, pktsPerRtt := 0, updateDir := 0)
  }

  /** The speed is halved if it exceeds the window's share, but is at least one. */
  ghost function Damped(amt: real, share: real): real {
    Larger(if amt > share then amt / 2.0 else amt, 1.0)
  }

  /** One step of the window towards its target. */
  ghost function Moved(v: Velocity, delta: real, target: Option<real>): Velocity
    requires v.window >= 2.0 && delta > 0.0
  {
    var amt := Damped(v.updateAmt, v.window * delta);
    var stride := Stride(amt, delta, v.window);
    v.(updateAmt := amt, pktsPerRtt := v.pktsPerRtt + 1,
       updateDir := if Reached(v.window, target) then v.updateDir - 1 else v.updateDir + 1,
       window := if Reached(v.window, target) then v.window - stride else v.window + stride)
  }

  /** The time between packets that spreads a window over a time. */
  function PerPacket(time: real, window: real): real
    requires window > 0.0
  {
    time / window
  }

  ghost function Floored(v: Velocity, unjittered: real): Velocity {
    var w := Larger(2.0, v.window);
    v.(window := w, curIntersend := PerPacket(0.5 * unjittered, w), intersend := PerPacket(0.5 * unjittered, w))
  }

  /** update_intersend_time, once the probe packets have been acknowledged. */
  ghost function Steered(v: Velocity, delta: real, s: Signals): Velocity
    requires v.window >= 2.0 && delta > 0.0
  {
    var target := Target(delta, s.unjittered, s.unjittered - s.minRtt);
    if v.slowStart then
      Floored(v.(window := v.window + 1.0, slowStart := !Reached(v.window + 1.0, target)), s.unjittered)
    else
      var u := if PeriodEnds(v, s.latest, s.now) then PeriodEnded(v, s.now) else v;
      Floored(Moved(u, delta, target), s.unjittered)
  }

  /** The reduction of the window. */
  ghost function Reduced(v: Velocity, unjittered: real): Velocity {
    Floored(v.(window := 0.7 * v.window), unjittered)
  }

  // ---- one ACK --------------------------------------------------------------------------------

  datatype Config = Config(mode: UtilityMode, defaultDelta: real, doSlowStart: bool)

  /** The part of the controller that ACKs drive. */
  datatype Control = Control(aimd: Aimd, v: Velocity, loss: LossWindow, acked: nat, lost: nat)

  const PROBE_PKTS: nat := 10

  ghost predicate Sane(cfg: Config, c: Control) {
    cfg.defaultDelta > 0.0 && c.v.window >= 2.0 && (c.aimd.prevUpdate != 0.0 ==> c.aimd.delta > 0.0)
  }

  ghost function AimdAt(cfg: Config, c: Control, s: Signals): Aimd
    requires Sane(cfg, c)
  {
    DeltaUpdated(cfg.mode, cfg.defaultDelta, c.aimd, false, s.rtt, s.now, s.IsCopa())
  }

  ghost function SteeredAt(cfg: Config, c: Control, s: Signals): Velocity
    requires Sane(cfg, c)
  {
    if c.acked < 2 * PROBE_PKTS - 1 then c.v
    else DeltaIsPositive(cfg, c, s); Steered(c.v, AimdAt(cfg, c, s).delta, s)
  }

  lemma DeltaIsPositive(cfg: Config, c: Control, s: Signals)
    requires Sane(cfg, c)
    ensures AimdAt(cfg, c, s).delta > 0.0
  {
  }

  /** The assertion of update_intersend_time fails: slow start without being configured. */
  ghost predicate StartFails(cfg: Config, c: Control, s: Signals) {
    !cfg.doSlowStart && c.v.slowStart && c.acked >= 2 * PROBE_PKTS - 1 && s.unjittered != s.minRtt
  }

  ghost predicate ReducesAt(c: Control, s: Signals, losses: nat) {
    var w := AllObserved(c.loss, losses, s.now, s.latest);
    w.1 || Triggers(w.0, false, s.now, s.latest)
  }

  /** The controller after the losses of an ACK, and the ACK itself, have been counted. */
  ghost function Recorded(cfg: Config, c: Control, s: Signals, losses: nat): Control
    requires cfg.defaultDelta > 0.0 && c.aimd.delta > 0.0
  {
    Control(
      if losses > 0 then DeltaUpdated(cfg.mode, cfg.defaultDelta, c.aimd, true, 0.0, s.now, s.IsCopa()) else c.aimd,
      if ReducesAt(c, s, losses) then Reduced(c.v, s.unjittered) else c.v,
      Observed(AllObserved(c.loss, losses, s.now, s.latest).0, false, s.now, s.latest),
      c.acked + 1, c.lost + losses)
  }

  /** The controller after an ACK that reveals a number of losses. */
  ghost function AfterAck(cfg: Config, c: Control, s: Signals, losses: nat): Control
    requires Sane(cfg, c)
  {
    DeltaIsPositive(cfg, c, s);
    Recorded(cfg, c.(aimd := AimdAt(cfg, c, s), v := SteeredAt(cfg, c, s)), s, losses)
  }

  lemma AckKeepsSane(cfg: Config, c: Control, s: Signals, losses: nat)
    requires Sane(cfg, c)
    ensures Sane(cfg, AfterAck(cfg, c, s, losses))
  {
  }

  /** Keys below seqNum, if seqNum itself is there: the packets an ACK of seqNum reveals as lost. */
  ghost function Passed(unacked: map<int, real>, seqNum: int): set<int> {
    if seqNum in unacked then set k | k in unacked && k < seqNum else {}
  }

  ghost function Remaining(unacked: map<int, real>, seqNum: int): map<int, real> {
    if seqNum in unacked then map k | k in unacked && k > seqNum :: unacked[k] else unacked
  }

  lemma {:induction false} HasLeast(keys: set<int>, i: int) returns (k: int)
    requires i in keys
    ensures k in keys && forall j :: j in keys ==> k <= j
    decreases |keys|
  {
    k := i;
    if j :| j in keys && j < i {
      k := HasLeast(keys - {i}, j);
      assert keys == keys - {i} + {i};
    }
  }

  /** begin() of an ordered map. */
  method First(m: map<int, real>) returns (k: int)
    requires exists j :: j in m
    ensures k in m && forall j :: j in m ==> k <= j
  {
    ghost var some :| some in m;
    ghost var least := HasLeast(m.Keys, some);
    k :| k in m.Keys && forall j :: j in m.Keys ==> k <= j;
  }

  /** The state that init leaves behind. */
  ghost function Start(cfg: Config, delta: real, externalMinRtt: real): Control {
    Control(Aimd(if cfg.mode == ConstantDelta then delta else 1.0, DefaultMode, 0.0, 0.0),
            Velocity(PROBE_PKTS as real, true, 0.0, 1, 1, 0, 1.0, 0.0,
                     if externalMinRtt == 0.0 then 0.0 else PerPacket(externalMinRtt, PROBE_PKTS as real)),
            LossWindow(0, 0, 0.0), 0, 0)
  }

  class MarkovianCC {
    const config: Config
    const externalMinRtt: real
    const keepExtMinRtt: bool
    const dblMax: real

    var delta: real
    var operationMode: OperationMode
    var prevDeltaUpdateTime: real
    var prevDeltaUpdateTimeLoss: real

    var theWindow: real
    var slowStart: bool
    var lastUpdateTime: real
    var updateDir: int
    var prevUpdateDir: int
    var pktsPerRtt: int
    var updateAmt: real
    var curIntersendTime: real
    var intersendTime: real

    const rttWindow: RTTWindow
    const reduceOnLoss: ReduceOnLoss
    var minRtt: real
    /** Packets sent and neither acknowledged nor counted lost, with their sending times. */
    var unacknowledged: map<int, real>
    var numPktsAcked: nat
    var numPktsLost: nat
    var numPktsSent: nat
    var curTick: real

    ghost function Parts(): set<object> { {this, reduceOnLoss} + rttWindow.Repr() }

    ghost function State(): Control
      reads this, reduceOnLoss
    {
      Control(Aimd(delta, operationMode, prevDeltaUpdateTime, prevDeltaUpdateTimeLoss),
              Velocity(theWindow, slowStart, lastUpdateTime, updateDir, prevUpdateDir, pktsPerRtt, updateAmt,
                  curIntersendTime, intersendTime),
              reduceOnLoss.State(), numPktsAcked, numPktsLost)
    }

    /** A controller that has been set up and initialised. */
    constructor (config: Config, delta: real, externalMinRtt: real, keepExtMinRtt: bool, dblMax: real, dblMin: real)
      requires config.defaultDelta > 0.0
      ensures Valid() && fresh(Parts()) && State() == Start(config, delta, externalMinRtt)
      ensures unacknowledged == map[] && numPktsSent == 0
    {
      this.config, this.externalMinRtt, this.keepExtMinRtt := config, externalMinRtt, keepExtMinRtt;
      this.dblMax := dblMax;
      this.delta, curTick := delta, 0.0;
      rttWindow := new RTTWindow(dblMax, dblMin);
      reduceOnLoss := new ReduceOnLoss();
      unacknowledged := map[];
      new;
      Init();
    }

    /** init */
    method Init()
      requires rttWindow.Valid() && config.defaultDelta > 0.0 && reduceOnLoss !in rttWindow.Repr()
               && rttWindow.minRtt.initial == dblMax
      modifies this, reduceOnLoss, rttWindow.Repr()
      ensures Valid() && State() == Start(config, old(delta), externalMinRtt)
      ensures theWindow == 10.0 && slowStart && numPktsAcked == 0 && numPktsLost == 0
      ensures delta == if config.mode == ConstantDelta then old(delta) else 1.0
      ensures operationMode == DefaultMode && prevDeltaUpdateTime == 0.0 && prevDeltaUpdateTimeLoss == 0.0
      ensures updateAmt == 1.0 && updateDir == prevUpdateDir == 1 && pktsPerRtt == 0 && lastUpdateTime == 0.0
      ensures curIntersendTime == 0.0 && 10.0 * intersendTime == externalMinRtt
      ensures rttWindow.Samples() == [] && reduceOnLoss.State() == LossWindow(0, 0, 0.0)
      ensures unacknowledged == map[] && numPktsSent == 0 && curTick == old(curTick)
    {
      rttWindow.Clear();
      reduceOnLoss.Reset();
      InitFields();
    }

    /** The fields of its own that init sets. */
    method InitFields()
      modifies this
      ensures var c := Start(config, old(delta), externalMinRtt); State() == c.(loss := reduceOnLoss.State())
      ensures unacknowledged == map[] && numPktsSent == 0 && curTick == old(curTick)
    {
      InitWindow();
      InitDelta();
      InitCounters();
    }

    method InitCounters()
      modifies `minRtt, `unacknowledged, `numPktsAcked, `numPktsLost, `numPktsSent
      ensures unacknowledged == map[] && numPktsAcked == numPktsLost == numPktsSent == 0
    {
      minRtt := if keepExtMinRtt then externalMinRtt else dblMax;
      unacknowledged := map[];
      numPktsAcked, numPktsLost, numPktsSent := 0, 0, 0;
    }

    method InitDelta()
      modifies `delta, `operationMode, `prevDeltaUpdateTime, `prevDeltaUpdateTimeLoss
      ensures State().aimd == Start(config, old(delta), externalMinRtt).aimd
    {
      if config.mode != ConstantDelta { delta := 1.0; }
      operationMode := DefaultMode;
      prevDeltaUpdateTime, prevDeltaUpdateTimeLoss := 0.0, 0.0;
    }

    method InitWindow()
      modifies `theWindow, `slowStart, `lastUpdateTime, `updateDir, `prevUpdateDir, `pktsPerRtt, `updateAmt,
               `curIntersendTime, `intersendTime
      ensures State().v == Start(config, delta, externalMinRtt).v
    {
      intersendTime := 0.0;
      theWindow := PROBE_PKTS as real;
      if externalMinRtt != 0.0 { intersendTime := PerPacket(externalMinRtt, theWindow); }
      curIntersendTime := 0.0;
      lastUpdateTime, updateDir, prevUpdateDir, pktsPerRtt, updateAmt := 0.0, 1, 1, 0, 1.0;
      slowStart := true;
    }

    ghost predicate Valid()
      reads Parts()
    {
      && rttWindow.Valid() && reduceOnLoss !in rttWindow.Repr() && rttWindow.minRtt.initial == dblMax
         && NotBefore(rttWindow.minRtt.book, curTick)
      && Sane(config, State()) && forall k :: k in unacknowledged ==> k >= 0
    }

    ghost function SignalsAt(rtt: real): Signals
      reads this, rttWindow.Repr()
    {
      Signals(curTick, rtt, rttWindow.minRtt.extreme, rttWindow.unjitteredRtt.extreme, rttWindow.latestRtt,
          rttWindow.isCopaMin.extreme, rttWindow.isCopaMax.extreme)
    }

    /** set_timestamp, with the clock never going back. */
    method SetTimestamp(now: real)
      requires Valid() && now >= curTick
      modifies `curTick
      ensures Valid() && curTick == now
    {
      assert this !in rttWindow.Repr();
      curTick := now;
      assert rttWindow.Valid();
    }

    /** The first update of update_delta at an ACK, and the one after losses. */
    method UpdateDelta(pktLost: bool, curRtt: real)
      requires config.defaultDelta > 0.0 && (prevDeltaUpdateTime != 0.0 ==> delta > 0.0)
      modifies `delta, `operationMode, `prevDeltaUpdateTime, `prevDeltaUpdateTimeLoss
      ensures State() == old(State()).(
                aimd := DeltaUpdated(config.mode, config.defaultDelta, old(State().aimd), pktLost, curRtt, curTick,
                    rttWindow.IsCopa()))
    {
      if config.mode == AutoMode {
        operationMode := if rttWindow.IsCopa() then DefaultMode else LossSensitiveMode;
      }
      if operationMode == DefaultMode && config.mode != TcpCoop {
        if prevDeltaUpdateTime == 0.0 || prevDeltaUpdateTimeLoss + curRtt < curTick {
          if delta < config.defaultDelta { delta := config.defaultDelta; }
          delta := Smaller(delta, config.defaultDelta);
          prevDeltaUpdateTime := curTick;
        }
      } else if config.mode == TcpCoop || operationMode == LossSensitiveMode {
        if prevDeltaUpdateTime == 0.0 { delta := config.defaultDelta; }
        if pktLost && prevDeltaUpdateTimeLoss + curRtt < curTick {
          delta := delta * 2.0;
          prevDeltaUpdateTimeLoss := curTick;
        } else if prevDeltaUpdateTime + curRtt < curTick {
          delta := Stepped(delta);
          prevDeltaUpdateTime := curTick;
        }
        delta := Smaller(delta, config.defaultDelta);
      }
    }

    /** update_intersend_time; false if its assertion fails. */
    method UpdateIntersendTime(ghost s: Signals) returns (ok: bool)
      requires delta > 0.0 && theWindow >= 2.0 && minRtt == s.minRtt && s == SignalsAt(s.rtt)
      modifies `theWindow, `slowStart, `lastUpdateTime, `updateDir, `prevUpdateDir, `pktsPerRtt, `updateAmt,
               `curIntersendTime, `intersendTime
      ensures ok <==> !StartFails(config, old(State()), s)
      ensures ok ==> State() == old(State()).(
                v := if numPktsAcked < 2 * PROBE_PKTS - 1 then old(State().v) else Steered(old(State().v), delta, s))
    {
      if numPktsAcked < 2 * PROBE_PKTS - 1 { return true; }
      var rtt := rttWindow.unjitteredRtt.extreme;
      var queuingDelay := rtt - minRtt;
      var target := Target(delta, rtt, queuingDelay);
      if slowStart {
        if !(config.doSlowStart || target == None) { return false; }
        theWindow := theWindow + 1.0;
        if target.Some? && theWindow >= target.value { slowStart := false; }
      } else {
        UpdateWindow(target);
      }
      theWindow := Larger(2.0, theWindow);
      curIntersendTime := PerPacket(0.5 * rtt, theWindow);
      intersendTime := curIntersendTime;
      return true;
    }

    /** The branch of update_intersend_time outside slow start. */
    method UpdateWindow(target: Option<real>)
      requires delta > 0.0 && theWindow >= 2.0
      modifies `theWindow, `lastUpdateTime, `updateDir, `prevUpdateDir, `pktsPerRtt, `updateAmt
      ensures var v := old(State().v);
              var u := if PeriodEnds(v, rttWindow.latestRtt, curTick) then PeriodEnded(v, curTick) else v;
              State().v == Moved(u, delta, target)
    {
      if lastUpdateTime + rttWindow.latestRtt < curTick {
        UpdateVelocity();
      }
      MoveWindow(target);
    }

    /** The step of the window towards the target. */
    method MoveWindow(target: Option<real>)
      requires delta > 0.0 && theWindow >= 2.0
      modifies `theWindow, `updateDir, `pktsPerRtt, `updateAmt
      ensures State().v == Moved(old(State().v), delta, target)
    {
      if updateAmt > theWindow * delta {
        updateAmt := updateAmt / 2.0;
      }
      updateAmt := Larger(updateAmt, 1.0);
      pktsPerRtt := pktsPerRtt + 1;
      var stride := Stride(updateAmt, delta, theWindow);
      if !(target.Some? && theWindow >= target.value) {
        updateDir := updateDir + 1;
        theWindow := theWindow + stride;
      } else {
        updateDir := updateDir - 1;
        theWindow := theWindow - stride;
      }
    }

    /** The update of the speed at the end of a period. */
    method UpdateVelocity()
      modifies `lastUpdateTime, `updateDir, `prevUpdateDir, `pktsPerRtt, `updateAmt
      ensures State().v == PeriodEnded(old(State().v), curTick)
    {
      if prevUpdateDir * updateDir > 0 {
        if updateAmt < 0.006 {
          updateAmt := updateAmt + 0.005;
        } else {
          updateAmt := (Truncated(updateAmt) * 2) as real;
        }
      } else {
        updateAmt := 1.0;
        prevUpdateDir := prevUpdateDir * -1;
      }
      lastUpdateTime := curTick;
      pktsPerRtt, updateDir := 0, 0;
    }

    /** The loop of onACK: packets up to seqNum leave the map, those before it as lost. */
    method AcknowledgeUpTo(seqNum: int) returns (pktLost: bool, reduce: bool)
      requires forall k :: k in unacknowledged ==> k >= 0
      modifies `unacknowledged, `numPktsLost, reduceOnLoss
      ensures unacknowledged == Remaining(old(unacknowledged), seqNum)
      ensures var losses, w := |Passed(old(unacknowledged), seqNum)|, old(reduceOnLoss.State());
              && numPktsLost == old(numPktsLost) + losses && (pktLost <==> losses > 0)
              && AllObserved(w, losses, curTick, rttWindow.latestRtt) == (reduceOnLoss.State(), reduce)
    {
      pktLost, reduce := false, false;
      if seqNum !in unacknowledged { return; }
      ghost var all := unacknowledged;
      var tmpSeqNum := -1;
      AboveAll(all, seqNum);
      while exists k :: k in unacknowledged
        invariant unacknowledged == Above(all, tmpSeqNum) && -1 <= tmpSeqNum <= seqNum
        invariant numPktsLost == old(numPktsLost) + |Below(all, tmpSeqNum, seqNum)|
        invariant pktLost <==> |Below(all, tmpSeqNum, seqNum)| > 0
        invariant AllObserved(old(reduceOnLoss.State()), |Below(all, tmpSeqNum, seqNum)|, curTick, rttWindow.latestRtt)
                  == (reduceOnLoss.State(), reduce)
        modifies `unacknowledged, `numPktsLost, reduceOnLoss
        decreases seqNum - tmpSeqNum
      {
        var x := First(unacknowledged);
        assert tmpSeqNum <= x;
        if x > seqNum { break; }
        Advanced(all, tmpSeqNum, x, seqNum);
        tmpSeqNum := x;
        if x < seqNum {
          numPktsLost := numPktsLost + 1;
          pktLost := true;
          var r := reduceOnLoss.Update(true, curTick, rttWindow.latestRtt);
          reduce := reduce || r;
        }
        unacknowledged := unacknowledged - {x};
      }
      AllPassed(all, tmpSeqNum, seqNum);
    }

    /** onACK; false if the assertion of update_intersend_time fails. */
    method OnAck(ack: int, sentTime: real, adjustUs: int) returns (ok: bool, ghost s: Signals)
      requires Valid() && curTick > sentTime && RttOf(sentTime, adjustUs) <= dblMax
      modifies Parts()
      ensures rttWindow.Samples() == old(rttWindow.Samples()) + [Sample(curTick, old(RttOf(sentTime, adjustUs)))]
      ensures s == SignalsAt(s.rtt) && s.rtt == old(RttOf(sentTime, adjustUs)) && s.minRtt <= s.unjittered <= s.latest
      ensures s.now == curTick && s.minRtt == rttWindow.minRtt.extreme && s.latest == rttWindow.latestRtt
      ensures s.unjittered == rttWindow.unjitteredRtt.extreme
      ensures s.copaMin == rttWindow.isCopaMin.extreme && s.copaMax == rttWindow.isCopaMax.extreme
      ensures ok <==> !StartFails(config, old(State()), s)
      ensures ok ==> Valid() && State() == AfterAck(config, old(State()), s, |Passed(old(unacknowledged), ack - 1)|)
      ensures ok ==> unacknowledged == Remaining(old(unacknowledged), ack - 1)
      ensures curTick == old(curTick) && numPktsSent == old(numPktsSent)
    {
      var seqNum := ack - 1;
      var currRtt := RttOf(sentTime, adjustUs);
      RecordRtt(currRtt);
      s := SignalsAt(currRtt);
      AckKeepsSane(config, State(), s, |Passed(unacknowledged, seqNum)|);
      ok := Act(seqNum, currRtt, s);
    }

    /** What onACK does after recording the RTT leaves the RTT windows alone. */
    method Act(seqNum: int, currRtt: real, ghost s: Signals) returns (ok: bool)
      requires Sane(config, State()) && s == SignalsAt(currRtt) && minRtt == s.minRtt
      requires rttWindow.Valid() && reduceOnLoss !in rttWindow.Repr() && forall k :: k in unacknowledged ==> k >= 0
      modifies this, reduceOnLoss
      ensures ok <==> !StartFails(config, old(State()), s)
      ensures ok ==> State() == AfterAck(config, old(State()), s, |Passed(old(unacknowledged), seqNum)|)
      ensures ok ==> unacknowledged == Remaining(old(unacknowledged), seqNum)
      ensures curTick == old(curTick) && numPktsSent == old(numPktsSent)
      ensures rttWindow.Valid() && s == SignalsAt(currRtt) && rttWindow.Samples() == old(rttWindow.Samples())
    {
      ok := Respond(seqNum, currRtt, s);
      assert rttWindow.Valid();
    }

    /** The start of onACK: the sample, the minimum, and the assertion on it. */
    method RecordRtt(currRtt: real)
      requires rttWindow.Valid() && currRtt <= rttWindow.minRtt.initial && NotBefore(rttWindow.minRtt.book, curTick)
      requires reduceOnLoss !in rttWindow.Repr()
      modifies `minRtt, rttWindow.Repr()
      ensures State() == old(State()) && NotBefore(rttWindow.minRtt.book, curTick)
      ensures unacknowledged == old(unacknowledged) && curTick == old(curTick) && numPktsSent == old(numPktsSent)
      ensures rttWindow.Valid() && rttWindow.Samples() == old(rttWindow.Samples()) + [Sample(curTick, currRtt)]
      ensures minRtt == rttWindow.minRtt.extreme <= rttWindow.unjitteredRtt.extreme <= rttWindow.latestRtt
    {
      rttWindow.NewRttSample(currRtt, curTick);
      minRtt := rttWindow.minRtt.extreme;
      assert rttWindow.unjitteredRtt.extreme >= minRtt;
    }

    /** The RTT of a packet, less the delay the receiver attributes to its reordering buffer. */
    function RttOf(sentTime: real, adjustUs: int): real
      reads this
    {
      curTick - sentTime - adjustUs as real / 1000.0
    }

    /** The rest of onACK, after the RTT has been recorded. */
    method Respond(seqNum: int, currRtt: real, ghost s: Signals) returns (ok: bool)
      requires Sane(config, State()) && s == SignalsAt(currRtt) && minRtt == s.minRtt
      requires forall k :: k in unacknowledged ==> k >= 0
      modifies this, reduceOnLoss
      ensures ok <==> !StartFails(config, old(State()), s)
      ensures ok ==> State() == AfterAck(config, old(State()), s, |Passed(old(unacknowledged), seqNum)|)
      ensures ok ==> unacknowledged == Remaining(old(unacknowledged), seqNum)
      ensures curTick == old(curTick) && numPktsSent == old(numPktsSent)
    {
      ghost var c := State();
      UpdateDelta(false, currRtt);
      DeltaIsPositive(config, c, s);
      ok := UpdateIntersendTime(s);
      if ok { RecordAck(seqNum, s); }
    }

    /** The last part of onACK: losses, their consequences, and the count. */
    method RecordAck(seqNum: int, ghost s: Signals)
      requires config.defaultDelta > 0.0 && delta > 0.0 && s == SignalsAt(s.rtt) && theWindow >= 2.0
      requires forall k :: k in unacknowledged ==> k >= 0
      modifies `delta, `operationMode, `prevDeltaUpdateTime, `prevDeltaUpdateTimeLoss, `theWindow, `curIntersendTime,
               `intersendTime,
               `unacknowledged, `numPktsLost, `numPktsAcked, reduceOnLoss
      ensures State() == Recorded(config, old(State()), s, |Passed(old(unacknowledged), seqNum)|)
      ensures unacknowledged == Remaining(old(unacknowledged), seqNum)
    {
      var pktLost, reduce := AcknowledgeUpTo(seqNum);
      if pktLost { UpdateDelta(true, 0.0); }
      FinishAck(reduce);
    }

    method FinishAck(reduce: bool)
      modifies `theWindow, `curIntersendTime, `intersendTime, `numPktsAcked, reduceOnLoss
      ensures var c, now, latest := old(State()), curTick, rttWindow.latestRtt;
              State() == c.(loss := Observed(c.loss, false, now, latest), acked := c.acked + 1,
                            v := if reduce || Triggers(c.loss, false, now, latest)
                                 then Reduced(c.v, rttWindow.unjitteredRtt.extreme) else c.v)
    {
      var last := reduceOnLoss.Update(false, curTick, rttWindow.latestRtt);
      if reduce || last { ReduceWindow(); }
      numPktsAcked := numPktsAcked + 1;
    }

    /** The loss-triggered reduction. */
    method ReduceWindow()
      modifies `theWindow, `curIntersendTime, `intersendTime
      ensures State().v == Reduced(old(State().v), rttWindow.unjitteredRtt.extreme)
    {
      theWindow := theWindow * 0.7;
      theWindow := Larger(2.0, theWindow);
      curIntersendTime := PerPacket(0.5 * rttWindow.unjitteredRtt.extreme, theWindow);
      intersendTime := curIntersendTime;
    }

    /** onPktSent */
    method OnPktSent(seqNum: int)
      requires Valid() && seqNum >= 0
      modifies `unacknowledged, `numPktsSent, `intersendTime
      ensures Valid() && unacknowledged == old(unacknowledged)[seqNum := curTick]
      ensures numPktsSent == old(numPktsSent) + 1
      ensures State() == Sent(old(State()))
    {
      unacknowledged := unacknowledged[seqNum := curTick];
      numPktsSent := numPktsSent + 1;
      intersendTime := curIntersendTime;
      assert rttWindow.Valid();
    }
  }

  /** Sending only resets the pacing to what the last ACK made it. */
  ghost function Sent(c: Control): Control {
    c.(v := c.v.(intersend := c.v.curIntersend))
  }

  /** The packets after `at`. */
  ghost function Above(all: map<int, real>, at: int): map<int, real> {
    map k | k in all && k > at :: all[k]
  }

  /** The packets up to `at` that come before seqNum. */
  ghost function Below(all: map<int, real>, at: int, seqNum: int): set<int> {
    set k | k in all && k <= at && k < seqNum
  }

  lemma AboveAll(all: map<int, real>, seqNum: int)
    requires forall k :: k in all ==> k >= 0
    ensures Above(all, -1) == all && Below(all, -1, seqNum) == {}
  {
  }

  lemma Advanced(all: map<int, real>, at: int, x: int, seqNum: int)
    requires x in Above(all, at) && forall k :: k in Above(all, at) ==> x <= k
    ensures Above(all, x) == Above(all, at) - {x}
    ensures |Below(all, x, seqNum)| == |Below(all, at, seqNum)| + if x < seqNum then 1 else 0
  {
    assert forall k :: k in all && k > at ==> k in Above(all, at);
    if x < seqNum {
      assert Below(all, x, seqNum) == Below(all, at, seqNum) + {x};
    } else {
      assert Below(all, x, seqNum) == Below(all, at, seqNum);
    }
  }

  lemma AllPassed(all: map<int, real>, at: int, seqNum: int)
    requires seqNum in all && at <= seqNum && forall k :: k in Above(all, at) ==> k > seqNum
    ensures Above(all, at) == Remaining(all, seqNum) && Below(all, at, seqNum) == Passed(all, seqNum)
  {
    assert seqNum !in Above(all, at);
  }
}
