/** The sending loop of a flow with Copa (ctcp.hh, trains of one packet). */
module Sender {
  import opened MachineInts
  import opened RttWindow
  import opened Copa

  /** The sequence numbers from lo up to, but not including, hi. */
  ghost function Span(lo: int, hi: int): set<int> {
    set k: int | lo <= k < hi && Within(lo, k, hi)
  }

  predicate Within(lo: int, k: int, hi: int) {
    lo <= k < hi
  }

  lemma {:induction false} SpanSize(lo: int, hi: int)
    requires lo <= hi
    ensures |Span(lo, hi)| == hi - lo
    decreases hi - lo
  {
    if lo < hi {
      SpanSize(lo, hi - 1);
      assert Span(lo, hi) == Span(lo, hi - 1) + {hi - 1};
    } else {
      assert Span(lo, hi) == {};
    }
  }

  /** What has become of the packets sent since the last init: the first of them, those whose
      ACK found them outstanding, and those counted lost. */
  datatype Fates = Fates(base: int, hits: set<int>, lost: set<int>)

  /** The packets before the largest ACK are all settled, as a hit or a loss, and those after
      it are all outstanding. */
  ghost predicate Settled(f: Fates, largestAck: int, seqNum: int, outstanding: set<int>) {
    && -1 <= largestAck <= seqNum && 0 <= f.base <= seqNum
    && outstanding == Span(Max(f.base, largestAck), seqNum)
    && f.hits !! f.lost && f.hits + f.lost == Span(f.base, Max(f.base, largestAck))
  }

  /** The fates after an ACK of packet k. */
  ghost function After(f: Fates, outstanding: set<int>, k: int): Fates {
    if k in outstanding then f.(hits := f.hits + {k}, lost := f.lost + set j | j in outstanding && j < k) else f
  }

  ghost function Left(outstanding: set<int>, k: int): set<int> {
    if k in outstanding then set j | j in outstanding && j > k else outstanding
  }

  /** Whatever packet was acknowledged, in order or not, for the first time or again, before
      or after an init, the packets remain settled, and each loss and hit is a new one. */
  lemma AckSettles(f: Fates, largestAck: int, seqNum: int, outstanding: set<int>, k: int)
    requires Settled(f, largestAck, seqNum, outstanding) && 0 <= k < seqNum
    ensures Settled(After(f, outstanding, k), Max(largestAck, k + 1), seqNum, Left(outstanding, k))
  {
  }

  lemma AckCounts(f: Fates, largestAck: int, seqNum: int, outstanding: set<int>, k: int)
    requires Settled(f, largestAck, seqNum, outstanding) && 0 <= k < seqNum
    ensures var f' := After(f, outstanding, k);
            && |f'.hits| == |f.hits| + (if k in outstanding then 1 else 0)
            && |f'.lost| == |f.lost| + (if k in outstanding then |set j | j in outstanding && j < k| else 0)
  {
  }

  /** Packets sent since the last init are outstanding, hit or lost, each exactly one of these. */
  lemma SentIsAccountedFor(f: Fates, largestAck: int, seqNum: int, outstanding: set<int>)
    requires Settled(f, largestAck, seqNum, outstanding)
    ensures seqNum - f.base == |outstanding| + |f.lost| + |f.hits|
    ensures outstanding !! f.lost && outstanding !! f.hits
  {
    var lo := Max(f.base, largestAck);
    SpanSize(f.base, lo);
    SpanSize(lo, seqNum);
    assert |f.hits + f.lost| == |f.hits| + |f.lost|;
  }

  lemma NothingIsSettled(seqNum: int)
    requires seqNum >= 0
    ensures Settled(Fates(seqNum, {}, {}), seqNum - 1, seqNum, {})
  {
  }

  /** A packet sent joins the outstanding ones. */
  lemma SendSettles(f: Fates, largestAck: int, seqNum: int, outstanding: set<int>)
    requires Settled(f, largestAck, seqNum, outstanding)
    ensures Settled(f, largestAck, seqNum + 1, outstanding + {seqNum})
  {
  }

  // ---- whole runs over any network -------------------------------------------------------

  /** A send, an ACK of packet k, or a timeout with its init. */
  datatype Step = SendOne | AckOf(k: int) | TimeOut

  /** The packets of a sender, with those ever hit and ever counted lost across inits. */
  datatype Net = Net(f: Fates, largestAck: int, seqNum: int, outstanding: set<int>, everHit: set<int>,
      everLost: set<int>)

  const Idle: Net := Net(Fates(0, {}, {}), -1, 0, {}, {}, {})

  /** ACKs come only for packets that were sent; they may be lost, repeated and reordered. */
  ghost predicate Possible(n: Net, s: Step) {
    s.AckOf? ==> 0 <= s.k < n.seqNum
  }

  ghost function NextNet(n: Net, s: Step): Net {
    match s
    case SendOne => n.(seqNum := n.seqNum + 1, outstanding := n.outstanding + {n.seqNum})
    case AckOf(k) =>
      n.(f := After(n.f, n.outstanding, k),
         largestAck := Max(n.largestAck, k + 1),
         outstanding := Left(n.outstanding, k),
         everHit := n.everHit + After(n.f, n.outstanding, k).hits,
         everLost := n.everLost + After(n.f, n.outstanding, k).lost)
    case TimeOut => n.(f := Fates(n.seqNum, {}, {}), largestAck := n.seqNum - 1, outstanding := {})
  }

  ghost predicate Fair(n: Net) {
    && Settled(n.f, n.largestAck, n.seqNum, n.outstanding)
    && n.everHit !! n.everLost && n.f.hits <= n.everHit && n.f.lost <= n.everLost
    && n.everHit + n.everLost <= Span(0, Max(n.f.base, n.largestAck))
  }

  lemma StepIsFair(n: Net, s: Step)
    requires Fair(n) && Possible(n, s)
    ensures Fair(NextNet(n, s))
  {
  }

  ghost function Run(steps: seq<Step>): Net {
    if steps == [] then Idle else NextNet(Run(steps[..|steps| - 1]), steps[|steps| - 1])
  }

  ghost predicate AllPossible(steps: seq<Step>) {
    forall i :: 0 <= i < |steps| ==> Possible(Run(steps[..i]), steps[i])
  }

  lemma {:induction false} RunIsFair(steps: seq<Step>)
    requires AllPossible(steps)
    ensures Fair(Run(steps))
    decreases |steps|
  {
    if steps == [] {
      assert Span(0, 0) == {};
    } else {
      var before := steps[..|steps| - 1];
      assert forall i :: 0 <= i < |before| ==> before[..i] == steps[..i];
      RunIsFair(before);
      StepIsFair(Run(before), steps[|steps| - 1]);
    }
  }

  lemma {:induction false} NothingIsForgotten(steps: seq<Step>, i: nat)
    requires i <= |steps|
    ensures Run(steps[..i]).everLost <= Run(steps).everLost && Run(steps[..i]).everHit <= Run(steps).everHit
    decreases |steps|
  {
    if i < |steps| {
      assert steps[..|steps| - 1][..i] == steps[..i];
      NothingIsForgotten(steps[..|steps| - 1], i);
    } else {
      assert steps[..i] == steps;
    }
  }

  /** A packet once counted lost is never hit by a later ACK, and one once hit is never counted
      lost, not even across timeouts. */
  lemma LostIsNeverHit(steps: seq<Step>, i: nat)
    requires AllPossible(steps) && i <= |steps|
    ensures Run(steps[..i]).everLost !! Run(steps).everHit && Run(steps[..i]).everHit !! Run(steps).everLost
  {
    RunIsFair(steps);
    NothingIsForgotten(steps, i);
  }

  // ---- the sender in place ----------------------------------------------------------------

  /** The time of the last of n sends, the first after one interval and the others after another. */
  ghost function Paced(last: real, first: real, interval: real, n: nat): real {
    if n == 0 then last else if n == 1 then last + first else Paced(last, first, interval, n - 1) + interval
  }

  /** A send time, or the present if an interval has passed since. */
  ghost function Later(last: real, now: real, interval: real): real {
    if last + interval <= now then now else last
  }

  /** A round of the loop sends at most the packets whose intervals fit the time that has passed,
      when less than an interval was left over from the round before. */
  lemma {:induction false} RoundIsPaced(last: real, interval: real, n: nat, stopped: real, now: real)
    requires n > 0 && interval > 0.0 && stopped - last < interval && Paced(last, interval, interval, n) <= now
    ensures (n - 1) as real * interval < now - stopped
  {
    PacedIs(last, interval, n);
  }

  lemma {:induction false} PacedIs(last: real, interval: real, n: nat)
    ensures Paced(last, interval, interval, n) == last + n as real * interval
  {
    if n > 1 {
      PacedIs(last, interval, n - 1);
      assert n as real * interval == (n - 1) as real * interval + interval;
    }
  }

  class Sender {
    const cc: MarkovianCC
    var seqNum: int
    var largestAck: int
    var lastSendTime: real
    var lastAckTime: real
    ghost var fates: Fates

    ghost function Parts(): set<object> { {this} + cc.Parts() }

    ghost predicate Valid()
      reads Parts()
    {
      && this !in cc.Parts() && cc.Valid()
      && Settled(fates, largestAck, seqNum, cc.unacknowledged.Keys)
      && Counted()
    }

    /** The controller's counters are the sizes of what they count. */
    ghost predicate Counted()
      reads this, cc
    {
      && cc.numPktsSent == seqNum - fates.base && cc.numPktsLost == |fates.lost| && |fates.hits| <= cc.numPktsAcked
    }

    /** Packets sent since init are outstanding, counted lost, or hit by an ACK, and hits are
        never more than the ACKs counted. */
    lemma Conservation()
      requires Valid()
      ensures cc.numPktsSent == |cc.unacknowledged| + cc.numPktsLost + |fates.hits|
      ensures |fates.hits| <= cc.numPktsAcked
      ensures fates.lost !! fates.hits && fates.lost !! cc.unacknowledged.Keys
    {
      SentIsAccountedFor(fates, largestAck, seqNum, cc.unacknowledged.Keys);
      assert |cc.unacknowledged| == |cc.unacknowledged.Keys|;
    }

    /** The start of send_data, with the controller at its init. */
    constructor (cc: MarkovianCC, now: real)
      requires cc.Valid() && cc.unacknowledged == map[] && cc.numPktsSent == 0 && cc.numPktsLost == 0
      ensures Valid() && this.cc == cc && fates == Fates(0, {}, {}) && largestAck == -1 && seqNum == 0
    {
      this.cc := cc;
      seqNum, largestAck, lastSendTime, lastAckTime := 0, -1, now, now;
      fates := Fates(0, {}, {});
    }

    /** The check for a timeout at the head of the loop. */
    method CheckTimeout(now: real)
      requires Valid() && now >= cc.curTick
      modifies Parts()
      ensures Valid() && seqNum == old(seqNum)
      ensures if now - old(lastAckTime) > 2000.0
              then fates == Fates(seqNum, {}, {}) && largestAck == seqNum - 1 && cc.unacknowledged == map[]
              else fates == old(fates) && largestAck == old(largestAck) && cc.unacknowledged == old(cc.unacknowledged)
      ensures now - old(lastAckTime) > 2000.0 ==> cc.theWindow == 10.0 && cc.slowStart && cc.rttWindow.Samples() == []
      ensures if now - old(lastAckTime) > 2000.0 then lastAckTime == lastSendTime == now
              else lastAckTime == old(lastAckTime) && lastSendTime == old(lastSendTime)
    {
      if now - lastAckTime > 2000.0 {
        RestartController(now);
        RestartSender(now);
      }
    }

    /** The sender's share of a restart. */
    method RestartSender(now: real)
      requires this !in cc.Parts() && cc.Valid() && seqNum >= 0
      requires cc.unacknowledged == map[] && cc.numPktsSent == 0 && cc.numPktsLost == 0
      modifies `largestAck, `lastSendTime, `lastAckTime, `fates
      ensures Valid() && lastAckTime == lastSendTime == now
      ensures fates == Fates(seqNum, {}, {}) && largestAck == seqNum - 1
    {
      largestAck := seqNum - 1;
      lastSendTime, lastAckTime := now, now;
      fates := Fates(seqNum, {}, {});
      NothingIsSettled(seqNum);
    }

    method RestartController(now: real)
      requires this !in cc.Parts() && cc.Valid() && now >= cc.curTick
      modifies cc.Parts()
      ensures cc.Valid() && cc.unacknowledged == map[] && cc.numPktsSent == 0 && cc.numPktsLost == 0
      ensures cc.theWindow == 10.0 && cc.slowStart && cc.rttWindow.Samples() == []
    {
      cc.SetTimestamp(now);
      cc.Init();
    }

    /** The guard on the window: five windows may be on the way. */
    predicate WindowAllows()
      reads this, cc
    {
      seqNum as real < largestAck as real + 1.0 + 5.0 * cc.theWindow
    }

    /** The inner loop; `open` says that the flow has not reached its size. The packets sent use
        up the time since the last send, one interval each. */
    method SendPackets(now: real, open: bool)
      requires Valid() && now >= cc.curTick
      modifies this, cc
      ensures Valid() && fates == old(fates) && largestAck == old(largestAck) && cc.theWindow == old(cc.theWindow)
      ensures seqNum >= old(seqNum) && (seqNum > old(seqNum) ==> open)
      ensures seqNum > old(seqNum) ==> (seqNum - 1) as real < largestAck as real + 1.0 + 5.0 * cc.theWindow
      ensures open ==> !WindowAllows() || lastSendTime + cc.intersendTime > now
      ensures if seqNum == old(seqNum) then lastSendTime == old(lastSendTime)
              else lastSendTime <= now
                   && lastSendTime
                      == Paced(old(lastSendTime), old(cc.intersendTime), old(cc.curIntersendTime), seqNum - old(seqNum))
    {
      ghost var bound := (largestAck as real + 1.0 + 5.0 * cc.theWindow).Floor + 1;
      while WindowAllows() && lastSendTime + cc.intersendTime <= now && open
        invariant Valid() && now >= cc.curTick && seqNum >= old(seqNum)
        invariant fates == old(fates) && largestAck == old(largestAck) && cc.theWindow == old(cc.theWindow)
        invariant seqNum > old(seqNum) ==> open && (seqNum - 1) as real < largestAck as real + 1.0 + 5.0 * cc.theWindow
        invariant seqNum > old(seqNum) ==> lastSendTime <= now && cc.intersendTime == cc.curIntersendTime
        invariant cc.curIntersendTime == old(cc.curIntersendTime)
        invariant seqNum == old(seqNum) ==> cc.intersendTime == old(cc.intersendTime)
        invariant lastSendTime
                  == Paced(old(lastSendTime), old(cc.intersendTime), old(cc.curIntersendTime), seqNum - old(seqNum))
        decreases bound - seqNum
      {
        SendPacket(now);
      }
    }

    method SendPacket(now: real)
      requires Valid() && now >= cc.curTick
      modifies this, cc
      ensures Valid() && fates == old(fates) && largestAck == old(largestAck) && cc.theWindow == old(cc.theWindow)
      ensures seqNum == old(seqNum) + 1 && lastSendTime == old(lastSendTime) + old(cc.intersendTime)
              && cc.curTick == now
      ensures cc.intersendTime == cc.curIntersendTime == old(cc.curIntersendTime)
    {
      ghost var before := cc.unacknowledged.Keys;
      var pause := cc.intersendTime;
      Transmit(now);
      CountSend(pause, before);
    }

    /** The sender's share of a send. */
    method CountSend(pause: real, ghost before: set<int>)
      requires this !in cc.Parts() && cc.Valid() && Settled(fates, largestAck, seqNum, before)
      requires cc.unacknowledged.Keys == before + {seqNum} && cc.numPktsSent == seqNum + 1 - fates.base
      requires cc.numPktsLost == |fates.lost| && |fates.hits| <= cc.numPktsAcked
      modifies `lastSendTime, `seqNum
      ensures Valid() && seqNum == old(seqNum) + 1 && lastSendTime == old(lastSendTime) + pause
    {
      SendSettles(fates, largestAck, seqNum, before);
      lastSendTime := lastSendTime + pause;
      seqNum := seqNum + 1;
    }

    /** The controller's share of a send. */
    method Transmit(now: real)
      requires cc.Valid() && now >= cc.curTick && seqNum >= 0
      modifies cc
      ensures cc.Valid() && cc.unacknowledged.Keys == old(cc.unacknowledged.Keys) + {seqNum}
      ensures cc.numPktsSent == old(cc.numPktsSent) + 1 && cc.numPktsLost == old(cc.numPktsLost)
      ensures cc.numPktsAcked == old(cc.numPktsAcked) && cc.theWindow == old(cc.theWindow) && cc.curTick == now
      ensures cc.intersendTime == cc.curIntersendTime == old(cc.curIntersendTime)
    {
      cc.SetTimestamp(now);
      cc.OnPktSent(seqNum);
    }

    /** At most about five windows of packets are outstanding after a send. */
    lemma InFlightIsBounded()
      requires Valid() && (seqNum - 1) as real < largestAck as real + 1.0 + 5.0 * cc.theWindow
      ensures |cc.unacknowledged| as real < 5.0 * cc.theWindow + 2.0
    {
      SpanSize(Max(fates.base, largestAck), seqNum);
      assert |cc.unacknowledged| == |cc.unacknowledged.Keys|;
    }

    /** The step after the inner loop that gives up compensating for lost time: less than one
        interval of debt is carried into the next round, a sender with a full window carries none
        and so waits a whole interval, and one that keeps up is left alone. */
    method StopCompensating(now: real)
      requires Valid()
      modifies `lastSendTime
      ensures Valid()
      ensures cc.intersendTime > 0.0 ==> now - lastSendTime < cc.intersendTime
      ensures WindowFull() ==> lastSendTime == now
      ensures !WindowFull() ==> lastSendTime == Later(old(lastSendTime), now, cc.intersendTime)
    {
      if now - lastSendTime >= cc.intersendTime || seqNum as real >= largestAck as real + cc.theWindow {
        lastSendTime := now;
      }
    }

    ghost predicate WindowFull()
      reads this, cc
    {
      seqNum as real - largestAck as real >= cc.theWindow
    }

    /** The controller's share of an ACK. */
    method Deliver(k: int, sentTime: real, adjustUs: int, now: real) returns (ok: bool)
      requires this !in cc.Parts() && cc.Valid() && now >= cc.curTick && now > sentTime
      requires now - sentTime - adjustUs as real / 1000.0 <= cc.dblMax
      modifies cc.Parts()
      ensures ok || !cc.config.doSlowStart
      ensures ok ==> cc.Valid() && cc.unacknowledged == Remaining(old(cc.unacknowledged), k)
      ensures ok ==> cc.unacknowledged.Keys == Left(old(cc.unacknowledged.Keys), k)
      ensures ok ==> cc.numPktsSent == old(cc.numPktsSent) && cc.numPktsAcked == old(cc.numPktsAcked) + 1
      ensures ok ==> cc.numPktsLost == old(cc.numPktsLost) + |Passed(old(cc.unacknowledged), k)|
      ensures cc.rttWindow.Samples()
              == old(cc.rttWindow.Samples()) + [Sample(now, now - sentTime - adjustUs as real / 1000.0)]
    {
      cc.SetTimestamp(now);
      ghost var s: Signals;
      ok, s := cc.OnAck(k + 1, sentTime, adjustUs);
    }

    /** An ACK for packet k, sent at some time: late, repeated or out of order. */
    method Receive(k: int, sentTime: real, adjustUs: int, now: real) returns (ok: bool)
      requires Valid() && 0 <= k < seqNum && now >= cc.curTick && now > sentTime
      requires now - sentTime - adjustUs as real / 1000.0 <= cc.dblMax
      modifies Parts()
      ensures ok || !cc.config.doSlowStart
      ensures ok ==> Valid() && seqNum == old(seqNum) && largestAck == Max(old(largestAck), k + 1)
      ensures ok ==> fates == After(old(fates), old(cc.unacknowledged).Keys, k)
      ensures ok ==> cc.unacknowledged == Remaining(old(cc.unacknowledged), k)
      ensures lastAckTime == now && lastSendTime == old(lastSendTime)
      ensures cc.rttWindow.Samples()
              == old(cc.rttWindow.Samples()) + [Sample(now, now - sentTime - adjustUs as real / 1000.0)]
    {
      ghost var outstanding := cc.unacknowledged.Keys;
      AckSettles(fates, largestAck, seqNum, outstanding, k);
      AckCounts(fates, largestAck, seqNum, outstanding, k);
      ok := Deliver(k, sentTime, adjustUs, now);
      lastAckTime := now;
      if ok {
        largestAck := Max(largestAck, k + 1);
        fates := After(fates, outstanding, k);
      }
    }
  }
}
