/** What scans do to the packet that a burst is anchored at: where its packets begin and the
    delay they are corrected to. */
module BurstAnchors {
  import opened MachineInts
  import opened Tti
  import opened ReTxBurst
  import opened BurstStream

  /** The reference of the packets belongs to the receiver: no scan touches it. */
  lemma {:induction false} ScanKeepsReference(b: BufState, w: CaTrace, i: nat, found: bool)
    requires w.Valid() && i <= w.Size()
    ensures var b' := Scan(b, w, i, found).buf;
            b'.startPktT == b.startPktT && b'.refOneway == b.refOneway && b'.mostRecentDciT == b.mostRecentDciT
    decreases w.Size() - i
  {
    if i < w.Size() && !Step(b, w, i).leave {
      ScanKeepsReference(Step(b, w, i).buf, w, i + 1, found || Step(b, w, i).isReTx);
    }
  }

  /** While a burst is live, a scan leaves it live and its anchor alone. */
  lemma {:induction false} LiveScanKeepsAnchor(b: BufState, w: CaTrace, i: nat, found: bool)
    requires w.Valid() && i <= w.Size() && b.active
    ensures var b' := Scan(b, w, i, found).buf; b'.active && b'.startPktFound == b.startPktFound
    decreases w.Size() - i
  {
    if i < w.Size() && !Step(b, w, i).leave {
      LiveScanKeepsAnchor(Step(b, w, i).buf, w, i + 1, found || Step(b, w, i).isReTx);
    }
  }

  /** Only a live burst becomes anchored in a scan. */
  lemma {:induction false} ScanAnchorsLiveBurst(b: BufState, w: CaTrace, i: nat, found: bool)
    requires w.Valid() && i <= w.Size() && (b.startPktFound ==> b.active)
    ensures var b' := Scan(b, w, i, found).buf; b'.startPktFound ==> b'.active
    decreases w.Size() - i
  {
    if i < w.Size() && !Step(b, w, i).leave {
      ScanAnchorsLiveBurst(Step(b, w, i).buf, w, i + 1, found || Step(b, w, i).isReTx);
    }
  }

  /** The drained burst has been taken up again. */
  ghost predicate TakenUp(t: Track, t': Track) {
    t.Drained? && t'.Live? && t'.start == t.start
  }

  lemma VisitAnchors(b: BufState, s: Stream, lo: nat, hi: nat, i: nat, t: Track)
    requires Represents(b, s, t) && InView(s, lo, hi, t) && !t.Live?
    requires lo <= i < hi && Passed(s, lo, i, t) && Notices(s, i, t)
    ensures Visited(b, Window(s, lo, hi), i - lo).startPktFound == (b.startPktFound || TakenUp(t, Visit(s, lo, i, t)))
  {
    NewBurstInWindow(s, lo, hi, i);
    if t.Drained? && s.slots[i].reTx {
      var gap := Max(lo, i - BURST_GAP);
      assert lo <= t.last && i <= t.last + BURST_GAP ==> !Quiet(s, gap, i);
      assert !(lo <= t.last && i <= t.last + BURST_GAP) ==> Quiet(s, gap, i);
    }
  }

  lemma {:induction false} IdleScanAnchors(b: BufState, s: Stream, lo: nat, hi: nat, i: nat, t: Track, found: bool)
    requires SumsFit(s) && Represents(b, s, t) && InView(s, lo, hi, t) && !t.Live?
    requires lo <= i <= hi && Passed(s, lo, i, t)
    ensures Scan(b, Window(s, lo, hi), i - lo, found).buf.startPktFound
            == (b.startPktFound || TakenUp(t, Advance(s, lo, hi, t)))
    decreases hi - i
  {
    if i == hi {
      AdvanceIsDone(s, lo, hi, i, t);
    } else if Round(s, lo, i, t).Live? {
      StepAnchors(b, s, lo, hi, i, t);
      LiveAnchors(b, s, lo, hi, i, t, found);
    } else {
      var b', found' := IdleRound(b, s, lo, hi, i, t, found);
      IdleScanAnchors(b', s, lo, hi, i + 1, t, found');
    }
  }

  /** A round that leaves the tracker idle leaves the anchor alone. */
  lemma IdleRound(b: BufState, s: Stream, lo: nat, hi: nat, i: nat, t: Track, found: bool)
      returns (b': BufState, found': bool)
    requires SumsFit(s) && Represents(b, s, t) && InView(s, lo, hi, t) && !t.Live?
    requires lo <= i < hi && Passed(s, lo, i, t) && !Round(s, lo, i, t).Live?
    ensures Scan(b, Window(s, lo, hi), i - lo, found) == Scan(b', Window(s, lo, hi), i + 1 - lo, found')
    ensures Represents(b', s, t) && Passed(s, lo, i + 1, t) && b'.startPktFound == b.startPktFound
  {
    var step := Step(b, Window(s, lo, hi), i - lo);
    b', found' := step.buf, found || step.isReTx;
    StepAnchors(b, s, lo, hi, i, t);
    StepRepresents(b, s, lo, hi, i, t);
    ScanUnfolds(b, Window(s, lo, hi), i - lo, found);
    SkipsInWindow(b, s, lo, hi, i, t);
  }

  lemma StepAnchors(b: BufState, s: Stream, lo: nat, hi: nat, i: nat, t: Track)
    requires Represents(b, s, t) && InView(s, lo, hi, t) && !t.Live?
    requires lo <= i < hi && Passed(s, lo, i, t)
    ensures Step(b, Window(s, lo, hi), i - lo).buf.startPktFound
            == (b.startPktFound || TakenUp(t, Round(s, lo, i, t)))
    ensures Round(s, lo, i, t).Live? || Round(s, lo, i, t) == t
  {
    SkipsInWindow(b, s, lo, hi, i, t);
    if Notices(s, i, t) { VisitAnchors(b, s, lo, hi, i, t); }
  }

  /** Once a round has made a burst live, the rest of the scan changes neither its start nor
      whether it is anchored. */
  lemma LiveAnchors(b: BufState, s: Stream, lo: nat, hi: nat, i: nat, t: Track, found: bool)
    requires SumsFit(s) && Represents(b, s, t) && InView(s, lo, hi, t) && !t.Live?
    requires lo <= i < hi && Passed(s, lo, i, t) && Round(s, lo, i, t).Live?
    ensures Scan(b, Window(s, lo, hi), i - lo, found).buf.startPktFound
            == Step(b, Window(s, lo, hi), i - lo).buf.startPktFound
    ensures TakenUp(t, Advance(s, lo, hi, t)) == TakenUp(t, Round(s, lo, i, t))
  {
    var w := Window(s, lo, hi);
    var step := Step(b, w, i - lo);
    StepRepresents(b, s, lo, hi, i, t);
    ScanUnfolds(b, w, i - lo, found);
    if !step.leave { LiveScanKeepsAnchor(step.buf, w, i + 1 - lo, found || step.isReTx); }
  }

  /** A scan leaves the start of the packets and the reference delay as they were. A burst is
      taken as anchored if it was, or if it had been drained and is taken up again. */
  lemma UpdateAnchors(b: BufState, s: Stream, lo: nat, hi: nat, t: Track)
    requires SumsFit(s) && Represents(b, s, t) && InReach(s, lo, hi, t)
    ensures var b', t' := Updated(b, s, lo, hi), Advance(s, lo, hi, t);
            && b'.startPktT == b.startPktT && b'.refOneway == b.refOneway
            && b'.startPktFound == (b.startPktFound || (t.Drained? && t'.Live? && t'.start == t.start))
  {
    ScanKeepsReference(b, Window(s, lo, hi), 0, false);
    if t.Live? {
      LiveScanKeepsAnchor(b, Window(s, lo, hi), 0, false);
    } else {
      IdleScanAnchors(b, s, lo, hi, lo, t, false);
    }
  }
}
