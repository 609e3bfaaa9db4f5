/** What the burst tracker is for: the extent of a burst, the bits it holds back, and
    why it does not matter in how many pieces the trace arrives. */
module BurstTheorems {
  import opened MachineInts
  import opened Tti
  import opened ReTxBurst
  import opened BurstStream

  // ---- the extent of a burst -------------------------------------------------

  /** Retransmissions l, ..., e with no gap of more than BURST_GAP slots between
      neighbours, and none within reach after e. */
  ghost predicate MaximalChain(s: Stream, l: nat, e: nat, hi: nat)
    requires hi <= |s.slots|
  {
    && l <= e < hi && s.slots[e].reTx
    && (forall k :: l <= k < e && s.slots[k].reTx ==> !Quiet(s, k + 1, Min(k + BURST_GAP, e) + 1))
    && Quiet(s, e + 1, Min(e + BURST_GAP + 1, hi))
  }

  lemma {:induction false} ChainEndIsMaximal(s: Stream, l: nat, hi: nat)
    requires l < hi <= |s.slots| && s.slots[l].reTx
    ensures MaximalChain(s, l, ChainEnd(s, l, hi), hi)
    decreases hi - l
  {
    var stop := Min(l + BURST_GAP + 1, hi);
    var j := NextReTx(s, l + 1, stop);
    if j < stop {
      ChainEndIsMaximal(s, j, hi);
      ChainLink(s, l, j, hi);
      var e := ChainEnd(s, j, hi);
      forall k | l <= k < e && s.slots[k].reTx
        ensures !Quiet(s, k + 1, Min(k + BURST_GAP, e) + 1)
      {
        if k < j {
          assert k == l;
          assert k + 1 <= j < Min(k + BURST_GAP, e) + 1;
        }
      }
    }
  }

  /** The end of the maximal chain is unique: ChainEnd is the only slot that qualifies. */
  lemma {:induction false} MaximalChainIsUnique(s: Stream, l: nat, e: nat, hi: nat)
    requires l < hi <= |s.slots| && s.slots[l].reTx && MaximalChain(s, l, e, hi)
    ensures e == ChainEnd(s, l, hi)
    decreases hi - l
  {
    var stop := Min(l + BURST_GAP + 1, hi);
    if l < e {
      var k :| l + 1 <= k < Min(l + BURST_GAP, e) + 1 && s.slots[k].reTx;
      assert NextReTx(s, l + 1, stop) <= k;
      MaximalChainIsUnique(s, NextReTx(s, l + 1, stop), e, hi);
    } else {
      NoNext(s, l + 1, stop);
    }
  }

  /** The bits of a stretch: the blocks of its ordinary slots and RETX_BITS for every
      retransmission. */
  ghost function OrdinaryBits(s: Stream, a: nat, b: nat): nat
    requires b <= |s.slots|
    decreases b
  {
    if a >= b then 0
    else OrdinaryBits(s, a, b - 1) + (if s.slots[b - 1].reTx then 0 else s.slots[b - 1].tbs)
  }

  ghost function ReTxSlots(s: Stream, a: nat, b: nat): set<int> {
    set k | a <= k < b && k < |s.slots| && s.slots[k].reTx
  }

  lemma {:induction false} WeightCountsEachSlotOnce(s: Stream, a: nat, b: nat)
    requires a <= b <= |s.slots|
    ensures Weight(s, a, b) == OrdinaryBits(s, a, b) + RETX_BITS * |ReTxSlots(s, a, b)|
    decreases b
  {
    if a == b {
      assert ReTxSlots(s, a, b) == {};
    } else {
      WeightCountsEachSlotOnce(s, a, b - 1);
      if s.slots[b - 1].reTx {
        assert ReTxSlots(s, a, b) == ReTxSlots(s, a, b - 1) + {b - 1};
      } else {
        assert ReTxSlots(s, a, b) == ReTxSlots(s, a, b - 1);
      }
    }
  }

  /** The buffer marks the maximal chain that begins at the first retransmission, and holds the
      bits of its slots and of the 8 slots before it. */
  ghost predicate HoldsBurst(b: BufState, s: Stream, lo: nat, hi: nat, i0: nat, ik: nat)
    requires lo <= hi <= |s.slots|
  {
    && lo <= i0 < hi && Quiet(s, lo, i0) && s.slots[i0].reTx && MaximalChain(s, i0, ik, hi)
    && b.ready && b.active && Marks(b, s, i0, ik)
    && b.size == OrdinaryBits(s, Max(lo, i0 - BURST_GAP), ik + 1) + RETX_BITS * |ReTxSlots(s, i0, ik + 1)|
  }

  /** From an initialised buffer, on a trace of at most half the TTI space: without a
      retransmission nothing happens; otherwise the buffer holds the burst that begins
      at the first one. */
  lemma FirstUpdate(s: Stream, lo: nat, hi: nat)
    requires SumsFit(s) && lo <= hi <= |s.slots| && hi - lo <= MAX_TTI / 2
    ensures var b := Updated(InitialBuf, s, lo, hi);
            if Quiet(s, lo, hi) then !b.ready && !b.active
            else exists i0: nat, ik: nat :: HoldsBurst(b, s, lo, hi, i0, ik)
  {
    UpdateRefinesAdvance(InitialBuf, s, lo, hi, Fresh);
    if Quiet(s, lo, hi) {
      NoNext(s, lo, hi);
    } else {
      var i0 := NextReTx(s, lo, hi);
      var ik := ChainEnd(s, i0, hi);
      var b := Updated(InitialBuf, s, lo, hi);
      FreshHoldsBurst(b, s, lo, i0, hi);
      assert HoldsBurst(b, s, lo, hi, i0, ik);
    }
  }

  lemma FreshHoldsBurst(b: BufState, s: Stream, lo: nat, i0: nat, hi: nat)
    requires lo <= i0 < hi <= |s.slots| && Quiet(s, lo, i0) && s.slots[i0].reTx
    requires Represents(b, s, NewBurst(s, lo, i0, hi))
    ensures HoldsBurst(b, s, lo, hi, i0, ChainEnd(s, i0, hi))
  {
    var ik, from := ChainEnd(s, i0, hi), Max(lo, i0 - BURST_GAP);
    ChainEndIsMaximal(s, i0, hi);
    WeightCountsEachSlotOnce(s, from, ik + 1);
    assert ReTxSlots(s, from, ik + 1) == ReTxSlots(s, i0, ik + 1);
  }

  // ---- one update, many updates ------------------------------------------------

  lemma NextOfLonger(s: Stream, i: nat, h1: nat, h2: nat)
    requires i <= h1 <= h2 <= |s.slots|
    ensures NextReTx(s, i, h1) < h1 ==> NextReTx(s, i, h2) == NextReTx(s, i, h1)
    ensures NextReTx(s, i, h1) == h1 ==> NextReTx(s, i, h2) == NextReTx(s, h1, h2)
    decreases h1 - i
  {
  }

  /** A chain followed in two stretches is the chain followed in one. */
  lemma {:induction false} ChainOfLonger(s: Stream, l: nat, h1: nat, h2: nat)
    requires l < h1 <= h2 <= |s.slots|
    ensures ChainEnd(s, ChainEnd(s, l, h1), h2) == ChainEnd(s, l, h2)
    decreases h1 - l
  {
    var stop1, stop2 := Min(l + BURST_GAP + 1, h1), Min(l + BURST_GAP + 1, h2);
    NextOfLonger(s, l + 1, stop1, stop2);
    var j := NextReTx(s, l + 1, stop1);
    if j < stop1 {
      ChainOfLonger(s, j, h1, h2);
      ChainLink(s, l, j, h1);
      ChainLink(s, l, j, h2);
    }
  }

  lemma ChainLink(s: Stream, l: nat, j: nat, hi: nat)
    requires l < hi <= |s.slots| && j == NextReTx(s, l + 1, Min(l + BURST_GAP + 1, hi)) < Min(l + BURST_GAP + 1, hi)
    ensures ChainEnd(s, l, hi) == ChainEnd(s, j, hi)
  {
  }

  lemma GrowTwice(s: Stream, a: nat, l: nat, h1: nat, h2: nat)
    requires a <= l + 1 && l < h1 <= h2 <= |s.slots|
    ensures var e1, e2 := ChainEnd(s, l, h1), ChainEnd(s, l, h2);
            && ChainEnd(s, e1, h2) == e2 && ChainEnd(s, e1, h1) == e1
            && Weight(s, a, e1 + 1) + Weight(s, e1 + 1, e2 + 1) == Weight(s, a, e2 + 1)
  {
    ChainOfLonger(s, l, h1, h1);
    ChainOfLonger(s, l, h1, h2);
    WeightSplits(s, a, ChainEnd(s, l, h1) + 1, ChainEnd(s, l, h2) + 1);
  }

  /** Splitting an update changes nothing: after one update up to h1, a second one on a
      window that reaches up to h2, and back at least to 8 slots before h1, ends where
      a single update up to h2 would have ended. */
  lemma UpdatesCompose(s: Stream, lo1: nat, h1: nat, lo2: nat, h2: nat, t: Track)
    requires lo1 <= lo2 <= Max(lo1, h1 - BURST_GAP) && lo1 <= h1 <= h2 <= |s.slots| && lo2 <= h2
    requires !t.Fresh? ==> t.last < h1
    ensures Advance(s, lo2, h2, Advance(s, lo1, h1, t)) == Advance(s, lo1, h2, t)
  {
    if !t.Live? {
      IdleUpdatesCompose(s, lo1, h1, lo2, h2, t);
    } else if lo1 <= t.last {
      GrownUpdatesCompose(s, lo1, h1, lo2, h2, t);
    } else {
      RejoinedUpdatesCompose(s, lo1, h1, lo2, h2, t);
    }
  }

  /** A burst that ends within h1 goes on growing, also when it has left the second window. */
  lemma GrownAgain(s: Stream, lo2: nat, h1: nat, h2: nat, t: Track)
    requires h1 <= h2 <= |s.slots| && lo2 <= h2 && t.Live? && t.last < h1 && ChainEnd(s, t.last, h1) == t.last
    requires lo2 <= t.last || lo2 <= h1 - BURST_GAP
    ensures Advance(s, lo2, h2, t) == Grown(s, h2, t)
  {
    if t.last < lo2 {
      var stop := t.last + BURST_GAP + 1;
      assert Quiet(s, t.last + 1, stop);
      NoNext(s, t.last + 1, stop);
      OneIsNotEnough(s, lo2, h2, t);
    }
  }

  /** A burst charged from slot a on, along the chain from l. */
  ghost function Charged(s: Stream, start: nat, size: int, a: nat, l: nat, hi: nat): Track
    requires l < hi <= |s.slots|
  {
    var e := ChainEnd(s, l, hi);
    Live(start, e, size + Weight(s, a, e + 1))
  }

  lemma ChargedGrows(s: Stream, start: nat, size: int, a: nat, l: nat, h1: nat, lo2: nat, h2: nat)
    requires a <= l + 1 && l < h1 <= h2 <= |s.slots| && lo2 <= h2 && (lo2 <= l || lo2 <= h1 - BURST_GAP)
    ensures Advance(s, lo2, h2, Charged(s, start, size, a, l, h1)) == Charged(s, start, size, a, l, h2)
  {
    GrowTwice(s, a, l, h1, h2);
    GrownAgain(s, lo2, h1, h2, Charged(s, start, size, a, l, h1));
  }

  lemma OneIsNotEnough(s: Stream, lo: nat, hi: nat, t: Track)
    requires lo <= hi <= |s.slots| && !t.Fresh? && t.last < lo && Quiet(s, t.last + 1, Min(hi, t.last + BURST_GAP + 1))
    ensures Second(s, lo, hi, t) == hi
  {
    var i := Min(hi, t.last + BURST_GAP + 2);
    if lo <= i {
      assert AtMostOne(s, lo, i);
      NoSecond(s, lo, hi, i, t);
    }
  }

  lemma GrownUpdatesCompose(s: Stream, lo1: nat, h1: nat, lo2: nat, h2: nat, t: Track)
    requires lo1 <= lo2 <= Max(lo1, h1 - BURST_GAP) && lo1 <= h1 <= h2 <= |s.slots| && lo2 <= h2
    requires t.Live? && lo1 <= t.last < h1
    ensures Advance(s, lo2, h2, Grown(s, h1, t)) == Grown(s, h2, t)
  {
    ChargedGrows(s, t.start, t.size, t.last + 1, t.last, h1, lo2, h2);
  }

  lemma RejoinedUpdatesCompose(s: Stream, lo1: nat, h1: nat, lo2: nat, h2: nat, t: Track)
    requires lo1 <= lo2 <= Max(lo1, h1 - BURST_GAP) && lo1 <= h1 <= h2 <= |s.slots| && lo2 <= h2
    requires t.Live? && t.last < lo1
    ensures Advance(s, lo2, h2, Advance(s, lo1, h1, t)) == Advance(s, lo1, h2, t)
  {
    if Second(s, lo1, h1, t) < h1 {
      RejoinedGrows(s, lo1, h1, lo2, h2, t);
    } else {
      NothingRejoined(s, lo1, h1, lo2, h2, t);
    }
  }

  lemma NothingRejoined(s: Stream, lo1: nat, h1: nat, lo2: nat, h2: nat, t: Track)
    requires lo1 <= lo2 <= Max(lo1, h1 - BURST_GAP) && lo1 <= h1 <= h2 <= |s.slots| && lo2 <= h2
    requires t.Live? && t.last < lo1 && Second(s, lo1, h1, t) == h1
    ensures Rejoined(s, lo1, h1, t) == t && Rejoined(s, lo2, h2, t) == Rejoined(s, lo1, h2, t)
  {
    if lo1 < lo2 { SecondOfShorter(s, lo1, h1, lo2, h2, t); }
  }

  lemma RejoinedGrows(s: Stream, lo1: nat, h1: nat, lo2: nat, h2: nat, t: Track)
    requires lo1 <= lo2 <= Max(lo1, h1 - BURST_GAP) && lo1 <= h1 <= h2 <= |s.slots| && lo2 <= h2
    requires t.Live? && t.last < lo1 && Second(s, lo1, h1, t) < h1
    ensures Advance(s, lo2, h2, Rejoined(s, lo1, h1, t)) == Rejoined(s, lo1, h2, t)
  {
    var k := Second(s, lo1, h1, t);
    SecondOfLonger(s, lo1, h1, h2, t);
    ChargedGrows(s, t.start, t.size + TbsSum(s, lo1, k), k, k, h1, lo2, h2);
  }

  lemma SecondOfLonger(s: Stream, lo: nat, h1: nat, h2: nat, t: Track)
    requires lo <= h1 <= h2 <= |s.slots| && !t.Fresh? && Second(s, lo, h1, t) < h1
    ensures Second(s, lo, h2, t) == Second(s, lo, h1, t)
  {
    var stop1, stop2 := Min(h1, t.last + BURST_GAP + 2), Min(h2, t.last + BURST_GAP + 2);
    NextOfLonger(s, lo, stop1, stop2);
    NextOfLonger(s, NextReTx(s, lo, stop1) + 1, stop1, stop2);
  }

  lemma SecondOfShorter(s: Stream, lo1: nat, h1: nat, lo2: nat, h2: nat, t: Track)
    requires lo1 <= lo2 <= h1 <= h2 <= |s.slots| && !t.Fresh? && t.last + BURST_GAP + 2 <= h1
    requires Second(s, lo1, h1, t) == h1
    ensures Second(s, lo1, h2, t) == h2 && Second(s, lo2, h2, t) == h2
  {
  }

  lemma IdleUpdatesCompose(s: Stream, lo1: nat, h1: nat, lo2: nat, h2: nat, t: Track)
    requires lo1 <= lo2 <= Max(lo1, h1 - BURST_GAP) && lo1 <= h1 <= h2 <= |s.slots| && lo2 <= h2
    requires t.Fresh? || (t.Drained? && t.last < h1)
    ensures Advance(s, lo2, h2, Advance(s, lo1, h1, t)) == Advance(s, lo1, h2, t)
  {
    var j := FirstHeard(s, lo1, h1, t);
    HeardLater(s, lo1, h1, lo2, h2, t);
    if j < h1 {
      TakenGrows(s, lo1, h1, lo2, h2, t, j);
    } else if FirstHeard(s, lo1, h2, t) < h2 {
      TakenMoves(s, lo1, h1, lo2, h2, t, FirstHeard(s, lo1, h2, t));
    }
  }

  lemma TakenGrows(s: Stream, lo1: nat, h1: nat, lo2: nat, h2: nat, t: Track, j: nat)
    requires lo1 <= j < h1 <= h2 <= |s.slots| && lo1 <= lo2 <= Max(lo1, h1 - BURST_GAP) && lo2 <= h2
    requires t.Fresh? || (t.Drained? && t.last < j)
    ensures Advance(s, lo2, h2, Taken(s, lo1, h1, t, j)) == Taken(s, lo1, h2, t, j)
  {
    if t.Drained? && lo1 <= t.last && j <= t.last + BURST_GAP {
      ChargedGrows(s, t.start, 0, t.last + 1, j, h1, lo2, h2);
    } else {
      ChargedGrows(s, j, 0, Max(lo1, j - BURST_GAP), j, h1, lo2, h2);
    }
  }

  lemma TakenMoves(s: Stream, lo1: nat, h1: nat, lo2: nat, h2: nat, t: Track, j: nat)
    requires lo1 <= lo2 <= Max(lo1, h1 - BURST_GAP) && lo1 <= h1 <= j < h2 <= |s.slots|
    requires t.Fresh? || (t.Drained? && t.last < h1)
    ensures lo2 <= j && Taken(s, lo2, h2, t, j) == Taken(s, lo1, h2, t, j)
  {
  }

  /** The first retransmission heard does not depend on where the search resumes. */
  lemma HeardLater(s: Stream, lo1: nat, h1: nat, lo2: nat, h2: nat, t: Track)
    requires lo1 <= lo2 <= Max(lo1, h1 - BURST_GAP) && lo1 <= h1 <= h2 <= |s.slots| && lo2 <= h2
    requires t.Fresh? || t.last < h1
    ensures var j := FirstHeard(s, lo1, h1, t);
            if j < h1 then FirstHeard(s, lo1, h2, t) == j
            else (FirstHeard(s, lo1, h2, t) < h2 ==> h1 <= FirstHeard(s, lo1, h2, t)) &&
                 FirstHeard(s, lo2, h2, t) == FirstHeard(s, lo1, h2, t)
  {
    var r1, r2, d1, d2 := Resume(lo1, t), Resume(lo2, t), Heard(s, h1, t), Heard(s, h2, t);
    if r1 <= d1 {
      NextOfLonger(s, r1, d1, d2);
      if r2 <= d1 { NextOfLonger(s, r2, d1, d2); }
    }
  }

  /** Two buffers that agree on everything the tracker computes. */
  ghost predicate SameBurst(x: BufState, y: BufState) {
    && x.ready == y.ready && x.active == y.active
    && (x.active ==> x.size == y.size)
    && (x.ready ==> x.startTti == y.startTti && x.lastTti == y.lastTti && x.startT == y.startT && x.lastT == y.lastT)
  }

  /** Running the update again on a trace that has grown to the right, or not at all,
      leaves the buffer as one run on the grown trace would. */
  lemma UpdateIsIncremental(b: BufState, s: Stream, lo: nat, h1: nat, h2: nat, t: Track)
    requires SumsFit(s) && Represents(b, s, t)
    requires InReach(s, lo, h1, t) && InReach(s, lo, h2, t) && h1 <= h2
    ensures SameBurst(Updated(Updated(b, s, lo, h1), s, lo, h2), Updated(b, s, lo, h2))
  {
    var t1 := Advance(s, lo, h1, t);
    var b1 := Updated(b, s, lo, h1);
    UpdateRefinesAdvance(b, s, lo, h2, t);
    UpdateRefinesAdvance(b, s, lo, h1, t);
    AdvanceStaysInReach(s, lo, h1, h2, t);
    UpdateRefinesAdvance(b1, s, lo, h2, t1);
    UpdatesCompose(s, lo, h1, lo, h2, t);
  }

  lemma AdvanceStaysInReach(s: Stream, lo: nat, h1: nat, h2: nat, t: Track)
    requires InReach(s, lo, h1, t) && InReach(s, lo, h2, t) && h1 <= h2
    ensures InReach(s, lo, h2, Advance(s, lo, h1, t))
  {
  }

  // ---- the limit of the wrapping comparison --------------------------------------

  /** A slot is skipped exactly when it lies, around the wheel, not after the last
      retransmission: also when it really is more than half a turn newer. */
  lemma SkippedExactly(b: BufState, s: Stream, lo: nat, hi: nat, i: nat, t: Track)
    requires Represents(b, s, t) && lo <= i < hi <= |s.slots|
    ensures Skips(b, Window(s, lo, hi), i - lo)
            <==> !t.Fresh? && (var d := (i - t.last) % MAX_TTI;
                               d == 0 || d > MAX_TTI / 2 || (d == MAX_TTI / 2 && Tag(s, i) < Tag(s, t.last)))
  {
    if !t.Fresh? {
      DifferenceOfResidues(s.base + i, s.base + t.last);
      assert s.base + i - (s.base + t.last) == i - t.last;
      assert Window(s, lo, hi).tti[i - lo] == Tag(s, i);
    }
  }

  /** After more than half and up to a whole turn without a retransmission the tracker is
      deaf: no window in that stretch changes the buffer, whatever retransmissions it has. */
  lemma StaleBurstHidesRetransmissions(b: BufState, s: Stream, lo: nat, hi: nat, t: Track)
    requires Represents(b, s, t) && !t.Fresh?
    requires Deaf(s, t.last) <= lo <= hi <= |s.slots| && hi <= t.last + MAX_TTI + 1
    ensures Scan(b, Window(s, lo, hi), 0, false) == ScanResult(b, false)
  {
    ScanIsDeaf(b, s, lo, hi, lo, t, false);
  }

  // ---- bursts that have left the window --------------------------------------------------------

  /** When the last retransmission of a live burst lies before the window, the scan continues the
      burst as its chain does exactly if no retransmission follows within reach, or if the scan
      meets two and its charge up to the second happens to be right. */
  lemma ScrolledBurst(b: BufState, s: Stream, lo: nat, hi: nat, t: Track)
    requires SumsFit(s) && Represents(b, s, t) && InReach(s, lo, hi, t) && t.Live? && t.last < lo
    ensures var k := Second(s, lo, hi, t);
            Represents(Updated(b, s, lo, hi), s, Grown(s, hi, t))
            <==> || Quiet(s, t.last + 1, Min(hi, t.last + BURST_GAP + 1))
                 || (k < hi && TbsSum(s, lo, k) == Weight(s, t.last + 1, k))
  {
    UpdateRefinesAdvance(b, s, lo, hi, t);
    ScrolledTracks(s, lo, hi, t);
  }

  lemma ScrolledTracks(s: Stream, lo: nat, hi: nat, t: Track)
    requires lo <= hi <= |s.slots| && t.Live? && t.last < lo && t.last < hi
    ensures var r, g, k := Rejoined(s, lo, hi, t), Grown(s, hi, t), Second(s, lo, hi, t);
            && (r == g <==> || Quiet(s, t.last + 1, Min(hi, t.last + BURST_GAP + 1))
                            || (k < hi && TbsSum(s, lo, k) == Weight(s, t.last + 1, k)))
            && (r.size == g.size ==> r == g)
  {
    var l, k := t.last, Second(s, lo, hi, t);
    var stop := Min(hi, l + BURST_GAP + 1);
    if Quiet(s, l + 1, stop) {
      NoNext(s, l + 1, stop);
      OneIsNotEnough(s, lo, hi, t);
    } else if k < hi {
      OnTheChain(s, l, k, hi);
      WeightSplits(s, l + 1, k, ChainEnd(s, k, hi) + 1);
    } else {
      GrownIsLarger(s, hi, t);
    }
  }

  lemma GrownIsLarger(s: Stream, hi: nat, t: Track)
    requires hi <= |s.slots| && t.Live? && t.last < hi && !Quiet(s, t.last + 1, Min(hi, t.last + BURST_GAP + 1))
    ensures Grown(s, hi, t).size > t.size
  {
    var stop := Min(hi, t.last + BURST_GAP + 1);
    var j := NextReTx(s, t.last + 1, stop);
    ChainLink(s, t.last, j, hi);
    BurstWeighs(s, t.last + 1, j, hi);
  }

  /** Every retransmission up to 9 slots after l is on the chain from l, if the chain goes on. */
  lemma OnTheChain(s: Stream, l: nat, k: nat, hi: nat)
    requires l < k < hi <= |s.slots| && k <= l + BURST_GAP + 1 && s.slots[k].reTx
    requires !Quiet(s, l + 1, Min(hi, l + BURST_GAP + 1))
    ensures ChainEnd(s, l, hi) == ChainEnd(s, k, hi)
  {
    var stop := Min(hi, l + BURST_GAP + 1);
    var j := NextReTx(s, l + 1, stop);
    ChainLink(s, l, j, hi);
    ReachedWithinGap(s, j, k, hi);
  }

  lemma {:induction false} ReachedWithinGap(s: Stream, j: nat, k: nat, hi: nat)
    requires j <= k < hi <= |s.slots| && k <= j + BURST_GAP && s.slots[k].reTx
    ensures ChainEnd(s, j, hi) == ChainEnd(s, k, hi)
    decreases k - j
  {
    if j < k {
      var n := NextReTx(s, j + 1, Min(j + BURST_GAP + 1, hi));
      ChainLink(s, j, n, hi);
      ReachedWithinGap(s, n, k, hi);
    }
  }

  /** A retransmission right after a burst that has just left the window is ignored, although it
      continues the burst. */
  lemma ScrolledBurstMissesRetransmission(b: BufState, s: Stream, lo: nat, t: Track)
    requires SumsFit(s) && Represents(b, s, t) && t.Live? && lo < |s.slots|
    requires t.last < lo <= t.last + BURST_GAP && s.slots[lo].reTx
    ensures Represents(Updated(b, s, lo, lo + 1), s, t)
            && !Represents(Updated(b, s, lo, lo + 1), s, Grown(s, lo + 1, t))
  {
    UpdateRefinesAdvance(b, s, lo, lo + 1, t);
    GrownIsLarger(s, lo + 1, t);
  }

  // ---- the bits of a whole run --------------------------------------------------------

  datatype Event =
    | Update(lo: nat, hi: nat)   // a new trace has been scanned
    | Drain(bits: nat)           // packets of that many bits have been charged to the buffer

  /** The track after bits have been taken out; an emptied buffer is reset. */
  ghost function DrainBy(t: Track, bits: nat): Track {
    match t
    case Live(start, last, size) =>
      if size - bits <= 0 then Drained(start, last) else Live(start, last, size - bits)
    case _ => t
  }

  /** The slot after the last one whose bits have been counted. */
  ghost function Mark(t: Track): nat { if t.Fresh? then 0 else t.last + 1 }

  ghost function Held(t: Track): int { if t.Live? then t.size else 0 }

  ghost predicate WellFormed(t: Track) {
    !t.Fresh? ==> t.start <= t.last && (t.Live? ==> t.size > 0)
  }

  /** The slots whose bits an update counts: from `first` on, those before `plain` with their
      own blocks, those from there up to the new mark by weight. */
  datatype Credit = Credit(first: nat, plain: nat)

  ghost function CreditOf(s: Stream, lo: nat, hi: nat, t: Track): Credit
    requires lo <= hi <= |s.slots| && (!t.Fresh? ==> t.last < hi)
  {
    var t' := Advance(s, lo, hi, t);
    if t' == t then Credit(Mark(t'), Mark(t'))
    else if t.Live? && t.last < lo then Credit(lo, Second(s, lo, hi, t))
    else if !t.Fresh? && t'.start == t.start then Credit(Mark(t), Mark(t))
    else Credit(Max(lo, t'.start - BURST_GAP), Max(lo, t'.start - BURST_GAP))
  }

  ghost function CreditedBits(s: Stream, c: Credit, mark: nat): nat
    requires c.plain <= mark <= |s.slots|
  {
    TbsSum(s, c.first, c.plain) + Weight(s, c.plain, mark)
  }

  /** An update counts exactly the slots of its credit, all of them beyond the old mark. */
  lemma UpdateCreditsNewSlots(s: Stream, lo: nat, hi: nat, t: Track)
    requires lo <= hi <= |s.slots| && WellFormed(t) && Mark(t) <= hi
    ensures var t', c := Advance(s, lo, hi, t), CreditOf(s, lo, hi, t);
            && Mark(t) <= c.first <= c.plain <= Mark(t') <= hi && WellFormed(t')
            && Held(t') == Held(t) + CreditedBits(s, c, Mark(t'))
  {
    if t.Live? {
      LiveCredits(s, lo, hi, t);
    } else if FirstHeard(s, lo, hi, t) < hi {
      IdleCredits(s, lo, hi, t);
    }
  }

  lemma IdleCredits(s: Stream, lo: nat, hi: nat, t: Track)
    requires lo <= hi <= |s.slots| && WellFormed(t) && !t.Live? && Mark(t) <= hi && FirstHeard(s, lo, hi, t) < hi
    ensures var t', c := Advance(s, lo, hi, t), CreditOf(s, lo, hi, t);
            && Mark(t) <= c.first <= c.plain <= Mark(t') <= hi && WellFormed(t')
            && Held(t') == Held(t) + CreditedBits(s, c, Mark(t'))
  {
    var j := FirstHeard(s, lo, hi, t);
    if t.Drained? && lo <= t.last && j <= t.last + BURST_GAP {
      BurstWeighs(s, t.last + 1, j, hi);
    } else {
      NewBurstCredits(s, lo, j, hi);
    }
  }

  lemma LiveCredits(s: Stream, lo: nat, hi: nat, t: Track)
    requires lo <= hi <= |s.slots| && WellFormed(t) && t.Live? && t.last < hi
    ensures var t', c := Advance(s, lo, hi, t), CreditOf(s, lo, hi, t);
            && Mark(t) <= c.first <= c.plain <= Mark(t') <= hi && WellFormed(t')
            && Held(t') == Held(t) + CreditedBits(s, c, Mark(t'))
  {
    if t.last < lo && Second(s, lo, hi, t) < hi { BurstWeighs(s, Second(s, lo, hi, t), Second(s, lo, hi, t), hi); }
  }

  lemma NewBurstCredits(s: Stream, lo: nat, j: nat, hi: nat)
    requires lo <= j < hi <= |s.slots| && s.slots[j].reTx
    ensures WellFormed(NewBurst(s, lo, j, hi))
  {
    BurstWeighs(s, Max(lo, j - BURST_GAP), j, hi);
  }

  lemma BurstWeighs(s: Stream, a: nat, j: nat, hi: nat)
    requires a <= j < hi <= |s.slots| && s.slots[j].reTx
    ensures Weight(s, a, ChainEnd(s, j, hi) + 1) > 0
  {
    WeightSplits(s, a, j, ChainEnd(s, j, hi) + 1);
    PositiveWeight(s, j, ChainEnd(s, j, hi) + 1);
  }

  lemma PositiveWeight(s: Stream, j: nat, b: nat)
    requires j < b <= |s.slots| && s.slots[j].reTx
    ensures Weight(s, j, b) > 0
  {
  }

  ghost predicate Scheduled(s: Stream, t: Track, es: seq<Event>)
    decreases |es|
  {
    es == [] || match es[0]
                case Update(lo, hi) =>
                  && InReach(s, lo, hi, t)
                  && Scheduled(s, Advance(s, lo, hi, t), es[1..])
                case Drain(bits) => Scheduled(s, DrainBy(t, bits), es[1..])
  }

  ghost function Run(s: Stream, t: Track, es: seq<Event>): Track
    requires Scheduled(s, t, es)
    decreases |es|
  {
    if es == [] then t
    else match es[0]
         case Update(lo, hi) => Run(s, Advance(s, lo, hi, t), es[1..])
         case Drain(bits) => Run(s, DrainBy(t, bits), es[1..])
  }

  /** Bits counted by the updates of a run. */
  ghost function Credited(s: Stream, t: Track, es: seq<Event>): nat
    requires Scheduled(s, t, es)
    decreases |es|
  {
    if es == [] then 0
    else match es[0]
         case Update(lo, hi) =>
           var t' := Advance(s, lo, hi, t);
           CreditedBits(s, CreditOf(s, lo, hi, t), Mark(t')) + Credited(s, t', es[1..])
         case Drain(bits) => Credited(s, DrainBy(t, bits), es[1..])
  }

  /** Bits taken out of a live buffer over a run; what a drain takes beyond the buffer's
      content is lost with the reset and not counted. */
  ghost function DrainedBits(s: Stream, t: Track, es: seq<Event>): nat
    requires Scheduled(s, t, es)
    decreases |es|
  {
    if es == [] then 0
    else match es[0]
         case Update(lo, hi) => DrainedBits(s, Advance(s, lo, hi, t), es[1..])
         case Drain(bits) =>
           (if t.Live? then Max(0, Min(bits, t.size)) else 0) + DrainedBits(s, DrainBy(t, bits), es[1..])
  }

  /** The most that a slot is ever charged: its own block or that of a retransmission. */
  ghost function Ceiling(s: Stream, a: nat, b: nat): (w: nat)
    requires b <= |s.slots|
    decreases b
  {
    if a >= b then 0
    else Ceiling(s, a, b - 1) + if s.slots[b - 1].reTx then Max(RETX_BITS, s.slots[b - 1].tbs) else s.slots[b - 1].tbs
  }

  lemma {:induction false} CeilingSplits(s: Stream, a: nat, m: nat, b: nat)
    requires a <= m <= b <= |s.slots|
    ensures Ceiling(s, a, b) == Ceiling(s, a, m) + Ceiling(s, m, b)
    decreases b
  {
    if m < b { CeilingSplits(s, a, m, b - 1); }
  }

  lemma {:induction false} ChargesAreBelow(s: Stream, a: nat, b: nat)
    requires a <= b <= |s.slots|
    ensures Weight(s, a, b) <= Ceiling(s, a, b) && TbsSum(s, a, b) <= Ceiling(s, a, b)
    decreases b
  {
    if a < b { ChargesAreBelow(s, a, b - 1); }
  }

  /** Where no retransmission has a block larger than its charge, the ceiling is the weight. */
  lemma {:induction false} CeilingIsWeight(s: Stream, a: nat, b: nat)
    requires a <= b <= |s.slots| && forall k :: a <= k < b && s.slots[k].reTx ==> s.slots[k].tbs <= RETX_BITS
    ensures Ceiling(s, a, b) == Weight(s, a, b)
    decreases b
  {
    if a < b { CeilingIsWeight(s, a, b - 1); }
  }

  lemma CreditIsBelow(s: Stream, c: Credit, m: nat, mark: nat)
    requires m <= c.first <= c.plain <= mark <= |s.slots|
    ensures CreditedBits(s, c, mark) <= Ceiling(s, m, mark)
  {
    CeilingSplits(s, m, c.first, mark);
    CeilingSplits(s, c.first, c.plain, mark);
    ChargesAreBelow(s, c.first, c.plain);
    ChargesAreBelow(s, c.plain, mark);
  }

  /** Over any run of updates and drains: the bits counted are the bits drained plus the
      bits still held, and no slot's bits are counted twice. */
  lemma {:induction false} BitsAreConserved(s: Stream, t: Track, es: seq<Event>)
    requires Scheduled(s, t, es) && WellFormed(t) && Mark(t) <= |s.slots|
    ensures var t' := Run(s, t, es);
            && WellFormed(t') && Mark(t) <= Mark(t') <= |s.slots|
            && Held(t) + Credited(s, t, es) == DrainedBits(s, t, es) + Held(t')
            && Credited(s, t, es) <= Ceiling(s, Mark(t), Mark(t'))
    decreases |es|
  {
    if es != [] {
      match es[0]
      case Update(lo, hi) =>
        var t1 := Advance(s, lo, hi, t);
        UpdateCreditsNewSlots(s, lo, hi, t);
        BitsAreConserved(s, t1, es[1..]);
        CreditIsBelow(s, CreditOf(s, lo, hi, t), Mark(t), Mark(t1));
        CeilingSplits(s, Mark(t), Mark(t1), Mark(Run(s, t, es)));
      case Drain(bits) =>
        BitsAreConserved(s, DrainBy(t, bits), es[1..]);
    }
  }
}
