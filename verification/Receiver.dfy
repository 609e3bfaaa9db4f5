/** The receiver as a whole: traces grow and drain the re-ordering buffer, packets come and
    go in the list, and revert passes charge the one to the other (receiver.cc). */
module Receiver {
  import opened MachineInts
  import opened ReTxBurst
  import opened BurstStream
  import opened BurstTheorems
  import opened PacketList
  import opened BurstAnchors

  /** Bits that a pass takes out of the buffer: those of the packets it newly marks. */
  ghost function Charge(ps: seq<Packet>, b: BufState): nat {
    PassChargesOnce(ps, b);
    RevertedBits(RevertPass(ps, b).packets) - RevertedBits(ps)
  }

  /** Bits of the packets that no pass has charged yet. */
  ghost function OpenBits(ps: seq<Packet>): nat {
    if ps == [] then 0 else (if ps[0].reverted then 0 else Bits(ps[0])) + OpenBits(ps[1..])
  }

  // ---- one step ---------------------------------------------------------------------

  /** A revert pass drains a live burst by the bits of the packets it marks. */
  lemma PassDrains(b: BufState, s: Stream, t: Track, ps: seq<Packet>)
    requires Represents(b, s, t) && WellFormed(t)
    ensures Represents(RevertPass(ps, b).buf, s, DrainBy(t, Charge(ps, b)))
    ensures !t.Live? ==> Charge(ps, b) == 0
  {
    PassChargesOnce(ps, b);
    if !t.Live? { IdlePassChargesNothing(ps, b); }
  }

  lemma IdlePassChargesNothing(ps: seq<Packet>, b: BufState)
    requires !b.active
    ensures RevertPass(ps, b).packets == ps
  {
  }

  /** What a pass charges is no longer open. */
  lemma {:induction false} PassClosesBits(ps: seq<Packet>, qs: seq<Packet>)
    requires SamePackets(ps, qs)
    ensures RevertedBits(qs) - RevertedBits(ps) == OpenBits(ps) - OpenBits(qs)
  {
    if ps != [] {
      assert SamePackets(ps[1..], qs[1..]);
      PassClosesBits(ps[1..], qs[1..]);
    }
  }

  lemma {:induction false} OpenBitsOfAppend(ps: seq<Packet>, p: Packet)
    ensures OpenBits(ps + [p]) == OpenBits(ps) + (if p.reverted then 0 else Bits(p))
  {
    if ps != [] {
      assert (ps + [p])[1..] == ps[1..] + [p];
      OpenBitsOfAppend(ps[1..], p);
    } else {
      assert ps + [p] == [p] && [p][1..] == [];
    }
  }

  lemma {:induction false} PruningClosesBits(ps: seq<Packet>, now: int)
    ensures OpenBits(Pruned(ps, now)) <= OpenBits(ps)
  {
    if |ps| >= 2 && now - ps[0].recvT > DELAY_THD_US { PruningClosesBits(ps[1..], now); }
  }

  // ---- whole runs ----------------------------------------------------------------------

  datatype RxEvent =
    | Trace(lo: nat, hi: nat)                          // a merged trace is scanned
    | Arrival(packet: Packet)                          // a packet is put into the list
    | Anchor(startPktT: uint64, refOneway: uint64)     // the first packet of the burst is found
    | Revert                                           // the list is charged

  datatype Rx = Rx(buf: BufState, packets: seq<Packet>)

  /** A start packet is looked for while a live burst has none. */
  ghost predicate Searches(b: BufState) {
    b.ready && b.active && !b.startPktFound
  }

  /** The list is charged while a live burst has a start packet. */
  ghost predicate Reverts(b: BufState) {
    b.ready && b.active && b.startPktFound
  }

  ghost function StepRx(s: Stream, x: Rx, e: RxEvent): Rx
    requires e.Trace? ==> e.lo <= e.hi <= |s.slots|
  {
    match e
    case Trace(lo, hi) => x.(buf := Updated(x.buf, s, lo, hi))
    case Arrival(p) => x.(packets := Inserted(x.packets, p))
    case Anchor(startPktT, refOneway) =>
      if Searches(x.buf) then x.(buf := x.buf.(startPktT := startPktT, startPktFound := true, refOneway := refOneway))
      else x
    case Revert =>
      if Reverts(x.buf) then Rx(RevertPass(x.packets, x.buf).buf, RevertPass(x.packets, x.buf).packets) else x
  }

  /** Bits that the event takes out of the buffer. */
  ghost function TakenOut(x: Rx, e: RxEvent): nat {
    if e.Revert? && Reverts(x.buf) then Charge(x.packets, x.buf) else 0
  }

  /** The same step as the tracker sees it. */
  ghost function StepTrack(s: Stream, x: Rx, t: Track, e: RxEvent): Track
    requires e.Trace? ==> InReach(s, e.lo, e.hi, t)
  {
    match e
    case Trace(lo, hi) => Advance(s, lo, hi, t)
    case Revert => DrainBy(t, TakenOut(x, e))
    case _ => t
  }

  /** Traces are in reach of the burst when they are scanned; packets arrive unmarked. */
  ghost predicate Admissible(s: Stream, x: Rx, t: Track, es: seq<RxEvent>)
    decreases |es|
  {
    es == [] || (
      && (es[0].Trace? ==> InReach(s, es[0].lo, es[0].hi, t))
      && (es[0].Arrival? ==> !es[0].packet.reverted)
      && Admissible(s, StepRx(s, x, es[0]), StepTrack(s, x, t, es[0]), es[1..]))
  }

  ghost function RunRx(s: Stream, x: Rx, t: Track, es: seq<RxEvent>): Rx
    requires Admissible(s, x, t, es)
    decreases |es|
  {
    if es == [] then x else RunRx(s, StepRx(s, x, es[0]), StepTrack(s, x, t, es[0]), es[1..])
  }

  /** The updates and drains of the tracker that a run amounts to. */
  ghost function TrackEvents(s: Stream, x: Rx, t: Track, es: seq<RxEvent>): seq<Event>
    requires Admissible(s, x, t, es)
    decreases |es|
  {
    if es == [] then []
    else
      var rest := TrackEvents(s, StepRx(s, x, es[0]), StepTrack(s, x, t, es[0]), es[1..]);
      match es[0]
      case Trace(lo, hi) => [Update(lo, hi)] + rest
      case Revert => [Drain(TakenOut(x, es[0]))] + rest
      case _ => rest
  }

  ghost function ArrivedBits(es: seq<RxEvent>): nat {
    if es == [] then 0 else (if es[0].Arrival? then Bits(es[0].packet) else 0) + ArrivedBits(es[1..])
  }

  lemma StepKeepsPace(s: Stream, x: Rx, t: Track, e: RxEvent)
    requires SumsFit(s) && Represents(x.buf, s, t) && WellFormed(t) && Mark(t) <= |s.slots|
    requires e.Trace? ==> InReach(s, e.lo, e.hi, t)
    ensures var x', t' := StepRx(s, x, e), StepTrack(s, x, t, e);
            Represents(x'.buf, s, t') && WellFormed(t') && Mark(t') <= |s.slots|
  {
    match e
    case Trace(lo, hi) =>
      UpdateRefinesAdvance(x.buf, s, lo, hi, t);
      UpdateCreditsNewSlots(s, lo, hi, t);
    case Revert => if Reverts(x.buf) { PassDrains(x.buf, s, t, x.packets); }
    case _ =>
  }

  /** Over a step, open bits change by what arrives and by what is charged. */
  lemma StepOpenBits(s: Stream, x: Rx, t: Track, e: RxEvent)
    requires e.Trace? ==> e.lo <= e.hi <= |s.slots|
    requires e.Arrival? ==> !e.packet.reverted
    ensures OpenBits(StepRx(s, x, e).packets) + TakenOut(x, e)
            <= OpenBits(x.packets) + (if e.Arrival? then Bits(e.packet) else 0)
  {
    match e
    case Arrival(p) =>
      OpenBitsOfAppend(x.packets, p);
      PruningClosesBits(x.packets + [p], p.recvT);
    case Revert =>
      PassChargesOnce(x.packets, x.buf);
      PassClosesBits(x.packets, RevertPass(x.packets, x.buf).packets);
    case _ =>
  }

  /** Over every run of the receiver the buffer stays in step with the tracker; and the
      bits taken out of it never exceed the bits of the packets that arrived, because no
      packet is charged twice. */
  lemma {:induction false} ReceiverRun(s: Stream, x: Rx, t: Track, es: seq<RxEvent>)
    requires SumsFit(s) && Represents(x.buf, s, t) && WellFormed(t) && Mark(t) <= |s.slots|
    requires Admissible(s, x, t, es)
    ensures var run := TrackEvents(s, x, t, es);
            && Scheduled(s, t, run) && Represents(RunRx(s, x, t, es).buf, s, Run(s, t, run))
            && DrainedBits(s, t, run) + OpenBits(RunRx(s, x, t, es).packets) <= OpenBits(x.packets) + ArrivedBits(es)
    decreases |es|
  {
    if es != [] {
      var e := es[0];
      var x', t' := StepRx(s, x, e), StepTrack(s, x, t, e);
      StepKeepsPace(s, x, t, e);
      StepOpenBits(s, x, t, e);
      ReceiverRun(s, x', t', es[1..]);
      var rest := TrackEvents(s, x', t', es[1..]);
      match e
      case Trace(lo, hi) => assert ([Update(lo, hi)] + rest)[1..] == rest;
      case Revert => assert ([Drain(TakenOut(x, e))] + rest)[1..] == rest;
      case _ =>
    }
  }

  /** From an empty receiver: all bits counted for the slots of the bursts have either been
      matched by bits of distinct arrived packets or are still held. */
  lemma EveryBitIsMatchedOrHeld(s: Stream, es: seq<RxEvent>)
    requires SumsFit(s) && Admissible(s, Rx(InitialBuf, []), Fresh, es)
    ensures var run := TrackEvents(s, Rx(InitialBuf, []), Fresh, es);
            && Scheduled(s, Fresh, run)
            && Credited(s, Fresh, run) <= ArrivedBits(es) + Held(Run(s, Fresh, run))
            && Mark(Run(s, Fresh, run)) <= |s.slots|
            && Credited(s, Fresh, run) <= Ceiling(s, 0, Mark(Run(s, Fresh, run)))
  {
    ReceiverRun(s, Rx(InitialBuf, []), Fresh, es);
    BitsAreConserved(s, Fresh, TrackEvents(s, Rx(InitialBuf, []), Fresh, es));
  }

  // ---- anchors and corrected delays over whole runs ------------------------------------------

  ghost predicate TracesFit(s: Stream, es: seq<RxEvent>) {
    forall i :: 0 <= i < |es| && es[i].Trace? ==> es[i].lo <= es[i].hi <= |s.slots|
  }

  /** The receiver after a run that began empty. */
  ghost function After(s: Stream, es: seq<RxEvent>): Rx
    requires TracesFit(s, es)
    decreases |es|
  {
    if es == [] then Rx(InitialBuf, []) else StepRx(s, After(s, es[..|es| - 1]), es[|es| - 1])
  }

  /** Only a live burst is anchored: a pass that empties the buffer gives the anchor up, and the
      next burst needs a start packet of its own. */
  lemma {:induction false} AnchoredIsLive(s: Stream, es: seq<RxEvent>)
    requires TracesFit(s, es)
    ensures After(s, es).buf.startPktFound ==> After(s, es).buf.active
    decreases |es|
  {
    if es != [] {
      var x, e := After(s, es[..|es| - 1]), es[|es| - 1];
      AnchoredIsLive(s, es[..|es| - 1]);
      match e
      case Trace(lo, hi) => ScanAnchorsLiveBurst(x.buf, Window(s, lo, hi), 0, false);
      case Revert => PassKeepsReference(x.packets, x.buf);
      case _ =>
    }
  }

  /** After a pass that has emptied the buffer, no burst is anchored. */
  lemma EmptyingGivesUpTheAnchor(s: Stream, es: seq<RxEvent>)
    requires TracesFit(s, es) && es != [] && es[|es| - 1].Revert?
    requires After(s, es[..|es| - 1]).buf.active && !After(s, es).buf.active
    ensures !After(s, es).buf.startPktFound
  {
    AnchoredIsLive(s, es);
  }

  /** Packets come in with their own delay as the corrected one, unmarked. */
  ghost predicate ArriveUncorrected(es: seq<RxEvent>) {
    forall i :: 0 <= i < |es| && es[i].Arrival? ==>
      !es[i].packet.reverted && es[i].packet.onewayNew == es[i].packet.oneway
  }

  /** The k-th event was a pass that marked p, and gave it the reference delay then in force. */
  ghost predicate CorrectedAt(s: Stream, es: seq<RxEvent>, k: nat, p: Packet)
    requires TracesFit(s, es) && k < |es|
  {
    && es[k].Revert? && Reverts(After(s, es[..k]).buf)
    && p.onewayNew == After(s, es[..k]).buf.refOneway && p.recvT >= After(s, es[..k]).buf.startPktT
    && exists u :: u in After(s, es[..k]).packets && !u.reverted && SamePacket(u, p)
  }

  ghost predicate SamePacket(p: Packet, q: Packet) {
    p.recvT == q.recvT && p.lenByte == q.lenByte && p.oneway == q.oneway
  }

  /** In every reachable list an unmarked packet has its own delay, and a marked one the
      reference delay that was in force when it was charged. */
  ghost predicate HasItsDelay(s: Stream, es: seq<RxEvent>, p: Packet)
    requires TracesFit(s, es)
  {
    if p.reverted then exists k: nat :: k < |es| && CorrectedAt(s, es, k, p) else p.onewayNew == p.oneway
  }

  lemma {:induction false} DelaysAreCorrected(s: Stream, es: seq<RxEvent>, p: Packet)
    requires TracesFit(s, es) && ArriveUncorrected(es) && p in After(s, es).packets
    ensures HasItsDelay(s, es, p)
    decreases |es|
  {
    var before, e := es[..|es| - 1], es[|es| - 1];
    var x := After(s, before);
    if p in x.packets {
      DelaysAreCorrected(s, before, p);
      StillHasItsDelay(s, es, p);
    } else if e.Arrival? {
      InsertedMembers(x.packets, e.packet);
    } else {
      var k := PassCorrects(x.packets, x.buf);
      var qs := RevertPass(x.packets, x.buf).packets;
      var i :| 0 <= i < |qs| && qs[i] == p;
      assert Corrected(x.packets[i], p, x.buf) && x.packets[i] in x.packets;
      assert CorrectedAt(s, es, |before|, p);
    }
  }

  lemma StillHasItsDelay(s: Stream, es: seq<RxEvent>, p: Packet)
    requires TracesFit(s, es) && es != [] && HasItsDelay(s, es[..|es| - 1], p)
    ensures HasItsDelay(s, es, p)
  {
    if p.reverted {
      var before := es[..|es| - 1];
      var k: nat :| k < |before| && CorrectedAt(s, before, k, p);
      assert before[..k] == es[..k];
      assert CorrectedAt(s, es, k, p);
    }
  }

  lemma InsertedMembers(ps: seq<Packet>, p: Packet)
    ensures forall q :: q in Inserted(ps, p) ==> q in ps || q == p
  {
    if !Late(ps, p) {
      var k := PrunedIsLongestSuffix(ps + [p], p.recvT);
    }
  }
}
