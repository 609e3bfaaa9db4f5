/** What the burst tracker computes, stated on the unbounded stream of subframes that the
    wrapping traces are windows of. */
module BurstStream {
  import opened MachineInts
  import opened Tti
  import opened ReTxBurst

  datatype Slot = Slot(reTx: bool, tbs: uint32, rxTimeUs: uint64)

  /** Slot k of the stream carries the TTI of subframe counter `base + k`. */
  datatype Stream = Stream(base: int, slots: seq<Slot>)

  ghost function Tag(s: Stream, k: int): uint16 { Residue(s.base + k) }

  /** The trace that covers slots lo, ..., hi - 1. */
  ghost function Window(s: Stream, lo: nat, hi: nat): (w: CaTrace)
    requires lo <= hi <= |s.slots|
    ensures w.Valid() && w.Size() == hi - lo
  {
    CaTrace(seq<bool>(hi - lo, i requires 0 <= i < hi - lo => s.slots[lo + i].reTx),
            seq<uint16>(hi - lo, i => Tag(s, lo + i)),
            seq<uint32>(hi - lo, i requires 0 <= i < hi - lo => s.slots[lo + i].tbs),
            seq<uint64>(hi - lo, i requires 0 <= i < hi - lo => s.slots[lo + i].rxTimeUs))
  }

  /** No retransmission in slots a, ..., b - 1. */
  ghost predicate Quiet(s: Stream, a: int, b: int) {
    forall k :: a <= k < b && 0 <= k < |s.slots| ==> !s.slots[k].reTx
  }

  /** Bits of the slots a, ..., b - 1: every retransmission counts RETX_BITS, every other
      slot its own transport block. */
  ghost function Weight(s: Stream, a: nat, b: nat): (w: nat)
    requires b <= |s.slots|
    decreases b
  {
    if a >= b then 0
    else Weight(s, a, b - 1) + (if s.slots[b - 1].reTx then RETX_BITS else s.slots[b - 1].tbs)
  }

  ghost function TbsSum(s: Stream, a: nat, b: nat): (w: nat)
    requires b <= |s.slots|
    decreases b
  {
    if a >= b then 0 else TbsSum(s, a, b - 1) + s.slots[b - 1].tbs
  }

  /** The transport blocks of 8 consecutive subframes fit a 32-bit sum. */
  ghost predicate SumsFit(s: Stream) {
    forall a, b :: 0 <= a <= b <= |s.slots| && b <= a + BURST_GAP ==> TbsSum(s, a, b) < TWO32
  }

  /** The first retransmission in slots i, ..., hi - 1, or hi. */
  ghost function NextReTx(s: Stream, i: nat, hi: nat): (j: nat)
    requires i <= hi <= |s.slots|
    ensures i <= j <= hi && Quiet(s, i, j)
    ensures j < hi ==> s.slots[j].reTx
    decreases hi - i
  {
    if i == hi || s.slots[i].reTx then i else NextReTx(s, i + 1, hi)
  }

  /** The last retransmission of the chain that starts at `l`: each link is the next
      retransmission, at most BURST_GAP slots on. */
  ghost function ChainEnd(s: Stream, l: nat, hi: nat): (e: nat)
    requires l < hi <= |s.slots|
    ensures l <= e < hi
    decreases hi - l
  {
    var stop := Min(l + BURST_GAP + 1, hi);
    var j := NextReTx(s, l + 1, stop);
    if j == stop then l else ChainEnd(s, j, hi)
  }

  /** The tracker as seen from the stream. */
  datatype Track =
    | Fresh                                        // no retransmission seen yet
    | Live(start: nat, last: nat, size: int)       // a burst whose bits are held back
    | Drained(start: nat, last: nat)               // the buffer has been emptied since

  /** The buffer holds what the track says. */
  ghost predicate Represents(b: BufState, s: Stream, t: Track) {
    match t
    case Fresh => !b.ready && !b.active
    case Live(start, last, size) => b.ready && b.active && b.size == size && Marks(b, s, start, last)
    case Drained(start, last) => b.ready && !b.active && b.size == 0 && Marks(b, s, start, last)
  }

  ghost predicate Marks(b: BufState, s: Stream, start: nat, last: nat) {
    && start <= last < |s.slots| && s.slots[last].reTx
    && b.startTti == Tag(s, start) && b.lastTti == Tag(s, last)
    && b.startT == s.slots[start].rxTimeUs && b.lastT == s.slots[last].rxTimeUs
  }

  /** One update, in closed form: a live burst grows along its chain, as far as the window
      shows it; otherwise the first retransmission that is heard starts a burst, or takes the
      old one up again. */
  ghost function Advance(s: Stream, lo: nat, hi: nat, t: Track): (t': Track)
    requires lo <= hi <= |s.slots|
    requires !t.Fresh? ==> t.last < hi
    ensures !t'.Fresh? ==> t'.last < hi
  {
    if t.Live? then
      if lo <= t.last then Grown(s, hi, t) else Rejoined(s, lo, hi, t)
    else
      var j := FirstHeard(s, lo, hi, t);
      if j == hi then t else Taken(s, lo, hi, t, j)
  }

  /** The burst extended to the end of its chain. */
  ghost function Grown(s: Stream, hi: nat, t: Track): (t': Track)
    requires hi <= |s.slots| && t.Live? && t.last < hi
    ensures t'.Live? && t'.last < hi
  {
    var e := ChainEnd(s, t.last, hi);
    Live(t.start, e, t.size + Weight(s, t.last + 1, e + 1))
  }

  /** A live burst whose last retransmission lies before the window: the first retransmission
      in the window is ignored, and only a second one that follows while the scan still looks
      continues the burst. The slots before that one are charged with their own blocks. */
  ghost function Rejoined(s: Stream, lo: nat, hi: nat, t: Track): (t': Track)
    requires lo <= hi <= |s.slots| && t.Live? && t.last < hi
    ensures t'.Live? && t'.last < hi
  {
    var k := Second(s, lo, hi, t);
    if k == hi then t
    else
      var e := ChainEnd(s, k, hi);
      Live(t.start, e, t.size + TbsSum(s, lo, k) + Weight(s, k, e + 1))
  }

  /** The second retransmission in the window, if the scan gets there, or hi. */
  ghost function Second(s: Stream, lo: nat, hi: nat, t: Track): (k: nat)
    requires lo <= hi <= |s.slots| && !t.Fresh?
    ensures lo <= k <= hi
    ensures k < hi ==> s.slots[k].reTx && k <= t.last + BURST_GAP + 1
  {
    var stop := Min(hi, t.last + BURST_GAP + 2);
    if stop <= lo then hi
    else
      var j := NextReTx(s, lo, stop);
      var k := if j < stop then NextReTx(s, j + 1, stop) else stop;
      if k < stop then k else hi
  }

  /** Where an idle tracker looks for the next retransmission. */
  ghost function Resume(lo: nat, t: Track): nat {
    if t.Fresh? then lo else Max(lo, t.last + 1)
  }

  /** The first slot that compares as not after the last retransmission, half a turn later: at
      exactly half a turn the residues decide. */
  ghost function Deaf(s: Stream, last: nat): nat {
    last + MAX_TTI / 2 + if Tag(s, last + MAX_TTI / 2) < Tag(s, last) then 0 else 1
  }

  /** Where the slots that a scan up to hi takes notice of end. */
  ghost function Heard(s: Stream, hi: nat, t: Track): (h: nat)
    ensures h <= hi
  {
    if t.Fresh? then hi else Min(hi, Deaf(s, t.last))
  }

  /** The first retransmission that an idle tracker takes notice of, or hi. */
  ghost function FirstHeard(s: Stream, lo: nat, hi: nat, t: Track): (j: nat)
    requires lo <= hi <= |s.slots|
    ensures j <= hi && (j < hi ==> s.slots[j].reTx && Resume(lo, t) <= j < Heard(s, hi, t))
    ensures Quiet(s, Resume(lo, t), Min(j, Heard(s, hi, t)))
  {
    var h := Heard(s, hi, t);
    if h <= Resume(lo, t) then hi
    else
      var j := NextReTx(s, Resume(lo, t), h);
      if j < h then j else hi
  }

  /** An idle tracker that meets the retransmission j. */
  ghost function Taken(s: Stream, lo: nat, hi: nat, t: Track, j: nat): Track
    requires !t.Live? && lo <= j < hi <= |s.slots|
  {
    if t.Drained? && lo <= t.last && j <= t.last + BURST_GAP then
      var e := ChainEnd(s, j, hi);
      Live(t.start, e, Weight(s, t.last + 1, e + 1))
    else NewBurst(s, lo, j, hi)
  }

  ghost function NewBurst(s: Stream, lo: nat, j: nat, hi: nat): Track
    requires lo <= j < hi <= |s.slots|
  {
    var e := ChainEnd(s, j, hi);
    Live(j, e, Weight(s, Max(lo, j - BURST_GAP), e + 1))
  }

  /** Windows of at most half the TTI space that end after the last retransmission and at most
      a whole turn later. */
  ghost predicate InReach(s: Stream, lo: nat, hi: nat, t: Track) {
    && lo <= hi <= |s.slots| && hi - lo <= MAX_TTI / 2
    && (!t.Fresh? ==> t.last < hi <= t.last + MAX_TTI + 1)
  }

  /** Moreover, a live burst's last retransmission is in the window. */
  ghost predicate InView(s: Stream, lo: nat, hi: nat, t: Track) {
    InReach(s, lo, hi, t) && (t.Live? ==> lo <= t.last)
  }

  // ---- sums -------------------------------------------------------------------

  lemma {:induction false} WeightSplits(s: Stream, a: nat, m: nat, b: nat)
    requires a <= m <= b <= |s.slots|
    ensures Weight(s, a, b) == Weight(s, a, m) + Weight(s, m, b)
    decreases b
  {
    if m < b { WeightSplits(s, a, m, b - 1); }
  }

  lemma {:induction false} QuietWeight(s: Stream, a: nat, b: nat)
    requires a <= b <= |s.slots| && Quiet(s, a, b)
    ensures Weight(s, a, b) == TbsSum(s, a, b)
    decreases b
  {
    if a < b { QuietWeight(s, a, b - 1); }
  }

  lemma {:induction false} WindowSum(s: Stream, lo: nat, hi: nat, x: nat, y: nat)
    requires lo <= hi <= |s.slots| && x <= y <= hi - lo
    ensures Sum(Window(s, lo, hi).tbs, x, y) == TbsSum(s, lo + x, lo + y)
    decreases y
  {
    if x < y { WindowSum(s, lo, hi, x, y - 1); }
  }

  /** A 32-bit sum over at most 8 quiet slots of the window is their weight. */
  lemma QuietWindowSum(s: Stream, lo: nat, hi: nat, x: nat, y: nat)
    requires lo <= hi <= |s.slots| && x <= y <= hi - lo && y <= x + BURST_GAP
    requires SumsFit(s) && Quiet(s, lo + x, lo + y)
    ensures Sum(Window(s, lo, hi).tbs, x, y) % TWO32 == Weight(s, lo + x, lo + y)
  {
    WindowSum(s, lo, hi, x, y);
    QuietWeight(s, lo + x, lo + y);
  }

  // ---- one slot -----------------------------------------------------------------

  /** TTI comparisons within reach compare positions in the stream. */
  lemma CompareTags(s: Stream, i: int, k: int)
    requires -(MAX_TTI / 2) < i - k < MAX_TTI / 2
    ensures WheelGap(WrapTti(Tag(s, i)), WrapTti(Tag(s, k))) == i - k
  {
  }

  lemma ShiftTag(s: Stream, k: int, d: nat)
    requires d < MAX_TTI
    ensures WrapTti((Tag(s, k) + d) % TWO16) == Tag(s, k + d)
  {
  }

  lemma FindInWindow(s: Stream, lo: nat, hi: nat, k: nat)
    requires lo <= k < hi <= |s.slots| && hi - lo <= MAX_TTI / 2
    ensures FindTti(Window(s, lo, hi).tti, Tag(s, k)) == k - lo
  {
    var tti := Window(s, lo, hi).tti;
    forall x | 0 <= x < k - lo ensures tti[x] != Tag(s, k) {
      assert tti[x] == Tag(s, lo + x);
      ResidueGap(s.base + k, s.base + (lo + x));
    }
    FindIsFirst(tti, Tag(s, k), k - lo);
  }

  lemma NewBurstInWindow(s: Stream, lo: nat, hi: nat, i: nat)
    requires lo <= i < hi <= |s.slots|
    ensures IsNewBurst(Window(s, lo, hi).reTx, i - lo) <==> Quiet(s, Max(lo, i - BURST_GAP), i)
  {
    var w := Window(s, lo, hi).reTx;
    if !Quiet(s, Max(lo, i - BURST_GAP), i) {
      var k :| Max(lo, i - BURST_GAP) <= k < i && s.slots[k].reTx;
      assert w[k - lo];
    }
  }

  /** The position the scan has reached, and what it has passed on the way. */
  ghost predicate Passed(s: Stream, lo: nat, i: nat, t: Track) {
    match t
    case Fresh => Quiet(s, lo, i)
    case Live(_, last, _) => Quiet(s, last + 1, i) && i <= last + BURST_GAP + 1
    case Drained(_, last) => Quiet(s, Max(lo, last + 1), Min(i, Deaf(s, last)))
  }

  /** The tracker after one visited slot. */
  ghost function Visit(s: Stream, lo: nat, i: nat, t: Track): Track
    requires lo <= i < |s.slots|
  {
    if !s.slots[i].reTx then t
    else match t
      case Fresh => Live(i, i, Weight(s, Max(lo, i - BURST_GAP), i + 1))
      case Live(start, last, size) =>
        if i <= last || last + BURST_GAP < i then t
        else Live(start, i, size + Weight(s, last + 1, i + 1))
      case Drained(start, last) =>
        if i <= last then t
        else if lo <= last && i <= last + BURST_GAP then Live(start, i, Weight(s, last + 1, i + 1))
        else Live(i, i, Weight(s, Max(lo, i - BURST_GAP), i + 1))
  }

  lemma StartRepresents(b: BufState, s: Stream, lo: nat, hi: nat, i: nat)
    requires SumsFit(s) && lo <= i < hi <= |s.slots| && s.slots[i].reTx
    requires Quiet(s, Max(lo, i - BURST_GAP), i)
    ensures Represents(Started(b, Window(s, lo, hi), i - lo), s,
                       Live(i, i, Weight(s, Max(lo, i - BURST_GAP), i + 1)))
  {
    NewBurstCharge(s, lo, hi, i);
  }

  lemma NewBurstCharge(s: Stream, lo: nat, hi: nat, i: nat)
    requires SumsFit(s) && lo <= i < hi <= |s.slots| && s.slots[i].reTx
    requires Quiet(s, Max(lo, i - BURST_GAP), i)
    ensures NewBurstBits(Window(s, lo, hi), i - lo) + RETX_BITS == Weight(s, Max(lo, i - BURST_GAP), i + 1)
  {
    var x := Max(0, i - lo - BURST_GAP);
    QuietWindowSum(s, lo, hi, x, i - lo);
    assert lo + x == Max(lo, i - BURST_GAP);
  }

  lemma InBurstCharge(s: Stream, lo: nat, hi: nat, i: nat, last: nat)
    requires SumsFit(s) && lo <= i < hi <= |s.slots| && hi - lo <= MAX_TTI / 2 && s.slots[i].reTx
    requires lo <= last < i <= last + BURST_GAP && Quiet(s, last + 1, i)
    ensures var w := Window(s, lo, hi);
            InBurstBits(w, FindTti(w.tti, Tag(s, last)), i - lo) + RETX_BITS == Weight(s, last + 1, i + 1)
  {
    FindInWindow(s, lo, hi, last);
    QuietWindowSum(s, lo, hi, last + 1 - lo, i - lo);
  }

  lemma ExtendRepresents(b: BufState, s: Stream, lo: nat, hi: nat, i: nat, t: Track)
    requires SumsFit(s) && lo <= i < hi <= |s.slots| && hi - lo <= MAX_TTI / 2 && s.slots[i].reTx
    requires t.Live? && Marks(b, s, t.start, t.last) && b.ready && b.size == t.size
    requires lo <= t.last < i <= t.last + BURST_GAP && Quiet(s, t.last + 1, i)
    ensures Represents(Extended(b, Window(s, lo, hi), i - lo), s,
                       Live(t.start, i, t.size + Weight(s, t.last + 1, i + 1)))
  {
    InBurstCharge(s, lo, hi, i, t.last);
  }

  lemma VisitRepresents(b: BufState, s: Stream, lo: nat, hi: nat, i: nat, t: Track)
    requires SumsFit(s) && Represents(b, s, t) && InView(s, lo, hi, t)
    requires lo <= i < hi && Passed(s, lo, i, t) && Notices(s, i, t)
    ensures Represents(Visited(b, Window(s, lo, hi), i - lo), s, Visit(s, lo, i, t))
  {
    NewBurstInWindow(s, lo, hi, i);
    if s.slots[i].reTx {
      match t
      case Fresh =>
        StartRepresents(b, s, lo, hi, i);
      case Live(start, last, size) =>
        if i <= last + BURST_GAP {
          assert !Quiet(s, Max(lo, i - BURST_GAP), i);
          ExtendRepresents(b, s, lo, hi, i, t);
        }
      case Drained(start, last) =>
        if lo <= last && i <= last + BURST_GAP {
          assert !Quiet(s, Max(lo, i - BURST_GAP), i);
          ExtendRepresents(Activated(b), s, lo, hi, i, Live(start, last, 0));
        } else {
          StartRepresents(b, s, lo, hi, i);
        }
    }
  }

  /** Visiting a slot does not change where the update ends up. */
  lemma AdvanceAfterVisit(s: Stream, lo: nat, hi: nat, i: nat, t: Track)
    requires InView(s, lo, hi, t) && lo <= i < hi && Passed(s, lo, i, t)
    requires Notices(s, i, t)
    ensures Advance(s, lo, hi, Visit(s, lo, i, t)) == Advance(s, lo, hi, t)
  {
    if s.slots[i].reTx {
      if t.Live? {
        if i <= t.last + BURST_GAP { ChainStep(s, t.last, i, hi); }
      } else {
        IdleAfterVisit(s, lo, hi, i, t);
      }
    }
  }

  lemma IdleAfterVisit(s: Stream, lo: nat, hi: nat, i: nat, t: Track)
    requires InView(s, lo, hi, t) && lo <= i < hi && Passed(s, lo, i, t)
    requires !t.Live? && Notices(s, i, t) && s.slots[i].reTx
    ensures Advance(s, lo, hi, Visit(s, lo, i, t)) == Advance(s, lo, hi, t)
  {
    if t.Drained? && lo <= t.last && i <= t.last + BURST_GAP {
      ResumeAfterVisit(s, lo, hi, i, t);
    } else {
      NextIs(s, Resume(lo, t), i, Heard(s, hi, t));
      StartThenAdvance(s, lo, i, hi);
    }
  }

  lemma ResumeAfterVisit(s: Stream, lo: nat, hi: nat, i: nat, t: Track)
    requires InView(s, lo, hi, t) && lo <= i < hi && Passed(s, lo, i, t) && s.slots[i].reTx
    requires t.Drained? && lo <= t.last < i <= t.last + BURST_GAP
    ensures Advance(s, lo, hi, Visit(s, lo, i, t)) == Advance(s, lo, hi, t)
  {
    NextIs(s, t.last + 1, i, Heard(s, hi, t));
    ChainWeight(s, t.last + 1, i, hi);
  }

  lemma StartThenAdvance(s: Stream, lo: nat, i: nat, hi: nat)
    requires lo <= i < hi <= |s.slots|
    ensures Advance(s, lo, hi, Live(i, i, Weight(s, Max(lo, i - BURST_GAP), i + 1))) == NewBurst(s, lo, i, hi)
  {
    ChainWeight(s, Max(lo, i - BURST_GAP), i, hi);
  }

  /** A link of the chain: the next retransmission within reach is where it continues. */
  lemma ChainStep(s: Stream, l: nat, i: nat, hi: nat)
    requires l < i < hi <= |s.slots| && i <= l + BURST_GAP && Quiet(s, l + 1, i) && s.slots[i].reTx
    ensures ChainEnd(s, l, hi) == ChainEnd(s, i, hi)
    ensures Weight(s, l + 1, ChainEnd(s, l, hi) + 1)
            == Weight(s, l + 1, i + 1) + Weight(s, i + 1, ChainEnd(s, i, hi) + 1)
  {
    NextIs(s, l + 1, i, Min(l + BURST_GAP + 1, hi));
    ChainWeight(s, l + 1, i, hi);
  }

  /** The shape of the tracker after a visited slot. */
  lemma VisitShape(s: Stream, lo: nat, hi: nat, i: nat, t: Track)
    requires InView(s, lo, hi, t) && lo <= i < hi && Passed(s, lo, i, t)
    requires Notices(s, i, t)
    ensures var t' := Visit(s, lo, i, t);
            && InView(s, lo, hi, t') && Passed(s, lo, i, t')
            && (t'.Fresh? || t'.last <= i)
            && (t'.Live? ==> if i <= t'.last + BURST_GAP then Passed(s, lo, i + 1, t')
               else i == t'.last + BURST_GAP + 1)
            && (!t'.Live? ==> Passed(s, lo, i + 1, t'))
  {
  }

  lemma NextIs(s: Stream, i: nat, j: nat, hi: nat)
    requires i <= j < hi <= |s.slots| && Quiet(s, i, j) && s.slots[j].reTx
    ensures NextReTx(s, i, hi) == j
    decreases j - i
  {
  }

  lemma NoNext(s: Stream, i: nat, hi: nat)
    requires i <= hi <= |s.slots| && Quiet(s, i, hi)
    ensures NextReTx(s, i, hi) == hi
    decreases hi - i
  {
  }

  lemma ChainWeight(s: Stream, a: nat, i: nat, hi: nat)
    requires a <= i < hi <= |s.slots|
    ensures Weight(s, a, ChainEnd(s, i, hi) + 1)
            == Weight(s, a, i + 1) + Weight(s, i + 1, ChainEnd(s, i, hi) + 1)
  {
    WeightSplits(s, a, i + 1, ChainEnd(s, i, hi) + 1);
  }

  /** Once the scan runs out of slots, or leaves the burst behind, nothing is left to add. */
  lemma AdvanceIsDone(s: Stream, lo: nat, hi: nat, i: nat, t: Track)
    requires InView(s, lo, hi, t) && lo <= i <= hi && Passed(s, lo, i, t)
    requires i == hi || (t.Live? && i == t.last + BURST_GAP + 1)
    ensures Advance(s, lo, hi, t) == t
  {
  }

  // ---- the scan refines the closed form ----------------------------------------------

  /** A slot is skipped exactly when it is not after the last retransmission, or half a turn
      and more after it. */
  lemma SkipsInWindow(b: BufState, s: Stream, lo: nat, hi: nat, i: nat, t: Track)
    requires Represents(b, s, t) && InReach(s, lo, hi, t) && lo <= i < hi
    ensures Skips(b, Window(s, lo, hi), i - lo) <==> !Notices(s, i, t)
  {
    if !t.Fresh? { GapOfTags(s, i, t.last); }
  }

  /** The scan does not skip slot i. */
  ghost predicate Notices(s: Stream, i: nat, t: Track) {
    t.Fresh? || t.last < i < Deaf(s, t.last)
  }

  lemma GapOfTags(s: Stream, i: int, k: nat)
    requires -(MAX_TTI / 2) < i - k <= MAX_TTI
    ensures WheelGap(WrapTti(Tag(s, i)), WrapTti(Tag(s, k))) > 0 <==> k < i < Deaf(s, k)
  {
    DifferenceOfResidues(s.base + i, s.base + k);
    assert s.base + i - (s.base + k) == i - k;
  }

  lemma ExitsInWindow(b: BufState, s: Stream, lo: nat, hi: nat, i: nat, t: Track)
    requires Represents(b, s, t) && InView(s, lo, hi, t) && lo <= i < hi && (t.Fresh? || t.last <= i)
    ensures Exits(b, Window(s, lo, hi), i - lo) <==> t.Live? && t.last + BURST_GAP < i
  {
    if t.Live? {
      CompareShifted(s, i, t.last);
    }
  }

  lemma CompareShifted(s: Stream, i: int, k: int)
    requires -(MAX_TTI / 2) < i - (k + BURST_GAP) < MAX_TTI / 2
    ensures WheelGap(WrapTti(Tag(s, i)), WrapTti((Tag(s, k) + BURST_GAP) % TWO16)) == i - (k + BURST_GAP)
  {
    ShiftTag(s, k, BURST_GAP);
    CompareTags(s, i, k + BURST_GAP);
  }

  /** The track after round i of the scan. */
  ghost function Round(s: Stream, lo: nat, i: nat, t: Track): Track
    requires lo <= i < |s.slots|
  {
    if Notices(s, i, t) then Visit(s, lo, i, t) else t
  }

  lemma StepRepresents(b: BufState, s: Stream, lo: nat, hi: nat, i: nat, t: Track)
    requires SumsFit(s) && Represents(b, s, t) && InView(s, lo, hi, t)
    requires lo <= i < hi && Passed(s, lo, i, t)
    ensures var step, t' := Step(b, Window(s, lo, hi), i - lo), Round(s, lo, i, t);
            && Represents(step.buf, s, t') && InView(s, lo, hi, t')
            && Advance(s, lo, hi, t') == Advance(s, lo, hi, t)
            && if step.leave then Advance(s, lo, hi, t') == t' else Passed(s, lo, i + 1, t')
  {
    SkipsInWindow(b, s, lo, hi, i, t);
    if Notices(s, i, t) {
      var b', t' := Visited(b, Window(s, lo, hi), i - lo), Visit(s, lo, i, t);
      VisitRepresents(b, s, lo, hi, i, t);
      AdvanceAfterVisit(s, lo, hi, i, t);
      VisitShape(s, lo, hi, i, t);
      ExitsInWindow(b', s, lo, hi, i, t');
      if Exits(b', Window(s, lo, hi), i - lo) { AdvanceIsDone(s, lo, hi, i, t'); }
    }
  }

  lemma ScanUnfolds(b: BufState, w: CaTrace, i: nat, found: bool)
    requires w.Valid() && i < w.Size()
    ensures var step := Step(b, w, i);
            Scan(b, w, i, found)
            == if step.leave then ScanResult(step.buf, found || step.isReTx)
               else Scan(step.buf, w, i + 1, found || step.isReTx)
  {
  }

  lemma {:induction false} ScanRepresents(b: BufState, s: Stream, lo: nat, hi: nat, i: nat, t: Track, found: bool)
    requires SumsFit(s) && Represents(b, s, t) && InView(s, lo, hi, t)
    requires lo <= i <= hi && Passed(s, lo, i, t)
    ensures Represents(Scan(b, Window(s, lo, hi), i - lo, found).buf, s, Advance(s, lo, hi, t))
    decreases hi - i
  {
    if i == hi {
      AdvanceIsDone(s, lo, hi, i, t);
    } else {
      StepRepresents(b, s, lo, hi, i, t);
      ScanUnfolds(b, Window(s, lo, hi), i - lo, found);
      var step := Step(b, Window(s, lo, hi), i - lo);
      if !step.leave {
        ScanRepresents(step.buf, s, lo, hi, i + 1, Round(s, lo, i, t), found || step.isReTx);
      }
    }
  }

  /** The buffer after update_reTx_buf on a window of the stream. */
  ghost function Updated(b: BufState, s: Stream, lo: nat, hi: nat): BufState
    requires lo <= hi <= |s.slots|
  {
    Scan(b, Window(s, lo, hi), 0, false).buf
  }

  /** update_reTx_buf on a window of the stream: whatever the buffer held, it ends up
      where the closed form says. */
  lemma UpdateRefinesAdvance(b: BufState, s: Stream, lo: nat, hi: nat, t: Track)
    requires SumsFit(s) && Represents(b, s, t) && InReach(s, lo, hi, t)
    ensures Represents(Updated(b, s, lo, hi), s, Advance(s, lo, hi, t))
  {
    if t.Live? && t.last < lo {
      if Deaf(s, t.last) <= lo {
        ScanIsDeaf(b, s, lo, hi, lo, t, false);
      } else {
        if Second(s, lo, hi, t) < hi { ScanRejoins(b, s, lo, hi, t); } else { ScanLeaves(b, s, lo, hi, t); }
      }
    } else {
      ScanRepresents(b, s, lo, hi, lo, t, false);
    }
  }

  // ---- a live burst that has left the window ------------------------------------------------

  /** At most one retransmission in slots lo, ..., i - 1. */
  ghost predicate AtMostOne(s: Stream, lo: nat, i: nat)
    requires lo <= i <= |s.slots|
  {
    var j := NextReTx(s, lo, i);
    j < i ==> Quiet(s, j + 1, i)
  }

  /** From half a turn to a whole turn after the last retransmission every slot is skipped. */
  lemma {:induction false} ScanIsDeaf(b: BufState, s: Stream, lo: nat, hi: nat, i: nat, t: Track, found: bool)
    requires Represents(b, s, t) && !t.Fresh? && lo <= i <= hi <= |s.slots|
    requires Deaf(s, t.last) <= i && hi <= t.last + MAX_TTI + 1
    ensures Scan(b, Window(s, lo, hi), i - lo, found) == ScanResult(b, found)
    decreases hi - i
  {
    if i < hi {
      GapOfTags(s, i, t.last);
      assert Window(s, lo, hi).tti[i - lo] == Tag(s, i);
      ScanIsDeaf(b, s, lo, hi, i + 1, t, found);
    }
  }

  lemma NoSecond(s: Stream, lo: nat, hi: nat, i: nat, t: Track)
    requires lo <= i <= hi <= |s.slots| && !t.Fresh? && AtMostOne(s, lo, i)
    requires i == hi || t.last + BURST_GAP + 2 <= i || t.last + BURST_GAP + 2 <= lo
    ensures Second(s, lo, hi, t) == hi
  {
    var stop := Min(hi, t.last + BURST_GAP + 2);
    if lo < stop {
      assert stop <= i;
      var j := NextReTx(s, lo, stop);
      if j < stop {
        NextIs(s, lo, j, i);
        NoNext(s, j + 1, stop);
      }
    }
  }

  lemma SecondIs(s: Stream, lo: nat, hi: nat, j: nat, k: nat, t: Track)
    requires lo <= j < k < hi <= |s.slots| && !t.Fresh? && k <= t.last + BURST_GAP + 1
    requires Quiet(s, lo, j) && s.slots[j].reTx && Quiet(s, j + 1, k) && s.slots[k].reTx
    ensures Second(s, lo, hi, t) == k
  {
    var stop := Min(hi, t.last + BURST_GAP + 2);
    NextIs(s, lo, j, stop);
    NextIs(s, j + 1, k, stop);
  }

  /** The last retransmission is not in the window, so the charge starts at its first slot. */
  lemma LostCharge(s: Stream, lo: nat, hi: nat, i: nat, last: nat)
    requires SumsFit(s) && lo <= i < hi <= |s.slots| && hi - lo <= MAX_TTI / 2
    requires last < lo < last + MAX_TTI / 2 && i <= lo + BURST_GAP
    ensures var w := Window(s, lo, hi);
            InBurstBits(w, FindTti(w.tti, Tag(s, last)), i - lo) == TbsSum(s, lo, i)
  {
    var tti := Window(s, lo, hi).tti;
    forall x | 0 <= x < hi - lo ensures tti[x] != Tag(s, last) {
      assert tti[x] == Tag(s, lo + x);
      ResidueGap(s.base + (lo + x), s.base + last);
    }
    assert Tag(s, last) !in tti;
    WindowSum(s, lo, hi, 0, i - lo);
  }

  lemma LostExtends(b: BufState, s: Stream, lo: nat, hi: nat, i: nat, t: Track)
    requires SumsFit(s) && Represents(b, s, t) && t.Live? && hi - lo <= MAX_TTI / 2
    requires t.last < lo <= i < hi <= |s.slots| && i <= t.last + BURST_GAP + 1 && s.slots[i].reTx
    ensures Represents(Extended(b, Window(s, lo, hi), i - lo), s, RejoinedUpTo(s, lo, i, t))
  {
    LostCharge(s, lo, hi, i, t.last);
  }

  /** The scan after the second retransmission, at slot i, follows the chain from there. */
  lemma RejoinsAt(b: BufState, s: Stream, lo: nat, hi: nat, i: nat, t: Track, found: bool)
    requires SumsFit(s) && Represents(b, s, t) && InReach(s, lo, hi, t) && t.Live?
    requires t.last < lo <= i < hi && i <= t.last + BURST_GAP + 1 && Second(s, lo, hi, t) == i
    ensures var b' := Extended(b, Window(s, lo, hi), i - lo);
            Represents(Scan(b', Window(s, lo, hi), i + 1 - lo, found).buf, s, Rejoined(s, lo, hi, t))
  {
    LostExtends(b, s, lo, hi, i, t);
    RejoinedIs(s, lo, hi, i, t);
    ScanRepresents(Extended(b, Window(s, lo, hi), i - lo), s, lo, hi, i + 1, RejoinedUpTo(s, lo, i, t), found);
  }

  /** The burst continued to the second retransmission, at slot i. */
  ghost function RejoinedUpTo(s: Stream, lo: nat, i: nat, t: Track): Track
    requires i < |s.slots| && t.Live?
  {
    Live(t.start, i, t.size + TbsSum(s, lo, i) + RETX_BITS)
  }

  lemma RejoinedIs(s: Stream, lo: nat, hi: nat, i: nat, t: Track)
    requires InReach(s, lo, hi, t) && t.Live? && t.last < lo <= i < hi && Second(s, lo, hi, t) == i
    ensures Rejoined(s, lo, hi, t) == Advance(s, lo, hi, RejoinedUpTo(s, lo, i, t))
  {
    ChainWeight(s, i, i, hi);
  }

  /** A first retransmission in the window counts as a new burst and is ignored. */
  lemma SlotIsIgnored(b: BufState, s: Stream, lo: nat, hi: nat, i: nat, t: Track)
    requires Represents(b, s, t) && InReach(s, lo, hi, t) && t.Live? && t.last < lo < Deaf(s, t.last)
    requires lo <= i < hi && (i <= t.last + BURST_GAP + 1 || i == lo) && (s.slots[i].reTx ==> Quiet(s, lo, i))
    ensures Step(b, Window(s, lo, hi), i - lo) == StepResult(b, s.slots[i].reTx, t.last + BURST_GAP < i)
  {
    SkipsInWindow(b, s, lo, hi, i, t);
    NewBurstInWindow(s, lo, hi, i);
    CompareShifted(s, i, t.last);
  }

  lemma SlotIsTaken(b: BufState, s: Stream, lo: nat, hi: nat, j: nat, i: nat, t: Track)
    requires SumsFit(s) && Represents(b, s, t) && InReach(s, lo, hi, t) && t.Live? && t.last < lo
    requires lo <= j < i < hi && i <= t.last + BURST_GAP + 1 && s.slots[j].reTx && s.slots[i].reTx
    requires Second(s, lo, hi, t) == i
    ensures var b' := Extended(b, Window(s, lo, hi), i - lo);
            Step(b, Window(s, lo, hi), i - lo) == StepResult(b', true, false)
  {
    SkipsInWindow(b, s, lo, hi, i, t);
    NewBurstInWindow(s, lo, hi, i);
    LostExtends(b, s, lo, hi, i, t);
    ExitsInWindow(Extended(b, Window(s, lo, hi), i - lo), s, lo, hi, i, RejoinedUpTo(s, lo, i, t));
  }

  lemma ScanPasses(b: BufState, s: Stream, lo: nat, hi: nat, i: nat, t: Track, found: bool)
    requires Represents(b, s, t) && InReach(s, lo, hi, t) && t.Live? && t.last < lo < Deaf(s, t.last)
    requires lo <= i < hi && (i <= t.last + BURST_GAP + 1 || i == lo) && (s.slots[i].reTx ==> Quiet(s, lo, i))
    ensures var found' := found || s.slots[i].reTx;
            Scan(b, Window(s, lo, hi), i - lo, found)
            == if t.last + BURST_GAP < i then ScanResult(b, found') else Scan(b, Window(s, lo, hi), i + 1 - lo, found')
  {
    SlotIsIgnored(b, s, lo, hi, i, t);
    ScanUnfolds(b, Window(s, lo, hi), i - lo, found);
  }

  /** The scan from the second retransmission in the window, at slot i. */
  lemma ScanTakes(b: BufState, s: Stream, lo: nat, hi: nat, j: nat, i: nat, t: Track, found: bool)
    requires SumsFit(s) && Represents(b, s, t) && InReach(s, lo, hi, t) && t.Live? && t.last < lo
    requires lo <= j < i < hi && i <= t.last + BURST_GAP + 1 && s.slots[j].reTx && s.slots[i].reTx
    requires Quiet(s, lo, j) && Quiet(s, j + 1, i)
    ensures Represents(Scan(b, Window(s, lo, hi), i - lo, found).buf, s, Rejoined(s, lo, hi, t))
  {
    SecondIs(s, lo, hi, j, i, t);
    SlotIsTaken(b, s, lo, hi, j, i, t);
    ScanUnfolds(b, Window(s, lo, hi), i - lo, found);
    RejoinsAt(b, s, lo, hi, i, t, true);
  }

  /** As long as the scan has met at most one retransmission, nothing happens. */
  lemma {:induction false} ScanIgnores(b: BufState, s: Stream, lo: nat, hi: nat, i: nat, m: nat, t: Track, found: bool)
    returns (f: bool)
    requires Represents(b, s, t) && InReach(s, lo, hi, t) && t.Live? && t.last < lo < Deaf(s, t.last)
    requires lo <= i <= m <= hi && (m <= t.last + BURST_GAP + 1 || m == i) && OneUpTo(s, lo, m)
    ensures Scan(b, Window(s, lo, hi), i - lo, found) == Scan(b, Window(s, lo, hi), m - lo, f)
    decreases m - i
  {
    f := found;
    if i < m {
      ScanPasses(b, s, lo, hi, i, t, found);
      f := ScanIgnores(b, s, lo, hi, i + 1, m, t, found || s.slots[i].reTx);
    }
  }

  /** No retransmission before slot m has another one before it in the window. */
  ghost predicate OneUpTo(s: Stream, lo: nat, m: nat)
    requires m <= |s.slots|
  {
    forall x :: lo <= x < m && s.slots[x].reTx ==> Quiet(s, lo, x)
  }

  /** Before the second retransmission there is at most one. */
  lemma SecondIsFirst(s: Stream, lo: nat, hi: nat, m: nat, t: Track)
    requires lo <= m <= hi <= |s.slots| && !t.Fresh? && m <= Second(s, lo, hi, t) && m <= t.last + BURST_GAP + 2
    ensures OneUpTo(s, lo, m)
  {
    var stop := Min(hi, t.last + BURST_GAP + 2);
    if lo < stop {
      var j := NextReTx(s, lo, stop);
      assert Quiet(s, lo, j) && (j < stop ==> Quiet(s, j + 1, NextReTx(s, j + 1, stop)));
    }
  }

  /** The scan of a window without a second retransmission within reach. */
  lemma ScanLeaves(b: BufState, s: Stream, lo: nat, hi: nat, t: Track)
    requires Represents(b, s, t) && InReach(s, lo, hi, t) && t.Live? && t.last < lo < Deaf(s, t.last)
    requires Second(s, lo, hi, t) == hi
    ensures Scan(b, Window(s, lo, hi), 0, false).buf == b
  {
    var m := Min(hi, Max(lo, t.last + BURST_GAP + 1));
    if lo <= t.last + BURST_GAP + 1 { SecondIsFirst(s, lo, hi, Min(hi, t.last + BURST_GAP + 2), t); }
    var f := ScanIgnores(b, s, lo, hi, lo, m, t, false);
    if m < hi { ScanPasses(b, s, lo, hi, m, t, f); }
  }

  /** The scan of a window with a second retransmission within reach. */
  lemma ScanRejoins(b: BufState, s: Stream, lo: nat, hi: nat, t: Track)
    requires SumsFit(s) && Represents(b, s, t) && InReach(s, lo, hi, t) && t.Live? && t.last < lo < Deaf(s, t.last)
    requires Second(s, lo, hi, t) < hi
    ensures Represents(Scan(b, Window(s, lo, hi), 0, false).buf, s, Rejoined(s, lo, hi, t))
  {
    var k := Second(s, lo, hi, t);
    SecondIsFirst(s, lo, hi, k, t);
    var f := ScanIgnores(b, s, lo, hi, lo, k, t, false);
    var j := FirstBefore(s, lo, hi, t);
    ScanTakes(b, s, lo, hi, j, k, t, f);
  }

  lemma FirstBefore(s: Stream, lo: nat, hi: nat, t: Track) returns (j: nat)
    requires lo <= hi <= |s.slots| && !t.Fresh? && Second(s, lo, hi, t) < hi
    ensures var k := Second(s, lo, hi, t);
            lo <= j < k && Quiet(s, lo, j) && s.slots[j].reTx && Quiet(s, j + 1, k)
  {
    j := NextReTx(s, lo, Min(hi, t.last + BURST_GAP + 2));
  }
}
