/** Sliding extreme values of RTT samples (rtt-window.cc). */
module RttWindow {
  import opened Reals

  /** A sample: when it was taken and its value. */
  datatype Sample = Sample(time: real, val: real)

  // ---- specification ---------------------------------------------------------

  /** x is at least as extreme as y. */
  predicate AsGood(findMin: bool, x: real, y: real) {
    if findMin then x <= y else x >= y
  }

  ghost predicate InOrder(hist: seq<Sample>) {
    forall i, j :: 0 <= i < j < |hist| ==> hist[i].time <= hist[j].time
  }

  /** m is the extreme value of the samples from `start` on. */
  ghost predicate IsExtreme(findMin: bool, hist: seq<Sample>, start: nat, m: real) {
    && (exists i :: start <= i < |hist| && hist[i].val == m)
    && forall i :: start <= i < |hist| ==> AsGood(findMin, m, hist[i].val)
  }

  /** The samples from `start` on that no later one beats: the suffix minima (or maxima), in order. */
  ghost function SuffixExtremes(findMin: bool, hist: seq<Sample>, start: nat): seq<Sample>
    requires start <= |hist|
    decreases |hist| - start
  {
    if start == |hist| then []
    else
      var rest := SuffixExtremes(findMin, hist, start + 1);
      if rest == [] || AsGood(findMin, hist[start].val, rest[0].val) then [hist[start]] + rest else rest
  }

  /** The first of the suffix extremes is the extreme of all samples. */
  lemma {:induction false} FrontIsExtreme(findMin: bool, hist: seq<Sample>, start: nat)
    requires start < |hist|
    ensures var d := SuffixExtremes(findMin, hist, start);
            && d != [] && IsExtreme(findMin, hist, start, d[0].val)
            && d[|d| - 1] == hist[|hist| - 1]
    decreases |hist| - start
  {
    if start + 1 < |hist| { FrontIsExtreme(findMin, hist, start + 1); }
  }

  /** The suffix extremes are exactly the samples that no later one beats. */
  lemma {:induction false} SuffixExtremesAre(findMin: bool, hist: seq<Sample>, start: nat, s: Sample)
    requires start <= |hist|
    ensures s in SuffixExtremes(findMin, hist, start)
            <==> exists i :: start <= i < |hist| && hist[i] == s && Unbeaten(findMin, hist, i)
    decreases |hist| - start
  {
    if start < |hist| {
      SuffixExtremesAre(findMin, hist, start + 1, s);
      if start + 1 < |hist| { FrontIsExtreme(findMin, hist, start + 1); }
    }
  }

  ghost predicate Unbeaten(findMin: bool, hist: seq<Sample>, i: nat)
    requires i < |hist|
  {
    forall j :: i < j < |hist| ==> AsGood(findMin, hist[i].val, hist[j].val)
  }

  /** The deque after a sample has displaced the worse ones before it. */
  ghost function Pushed(findMin: bool, d: seq<Sample>, s: Sample): (d': seq<Sample>)
    ensures d' != [] && d'[|d'| - 1] == s
    decreases |d|
  {
    if d != [] && !AsGood(findMin, d[|d| - 1].val, s.val) then Pushed(findMin, d[..|d| - 1], s) else d + [s]
  }

  /** Along the deque the values get worse. */
  ghost predicate Monotone(findMin: bool, d: seq<Sample>) {
    forall i, j :: 0 <= i < j < |d| ==> AsGood(findMin, d[i].val, d[j].val)
  }

  lemma {:induction false} SuffixesAreMonotone(findMin: bool, hist: seq<Sample>, start: nat)
    requires start <= |hist|
    ensures Monotone(findMin, SuffixExtremes(findMin, hist, start))
    decreases |hist| - start
  {
    if start < |hist| { SuffixesAreMonotone(findMin, hist, start + 1); }
  }

  /** The new sample takes the front exactly when it beats the old front. */
  lemma {:induction false} PushedFront(findMin: bool, d: seq<Sample>, s: Sample)
    requires Monotone(findMin, d)
    ensures Pushed(findMin, d, s)[0] == if d != [] && AsGood(findMin, d[0].val, s.val) then d[0] else s
    decreases |d|
  {
    if d != [] && !AsGood(findMin, d[|d| - 1].val, s.val) {
      PushedFront(findMin, d[..|d| - 1], s);
    }
  }

  lemma {:induction false} PushPrepended(findMin: bool, x: Sample, rest: seq<Sample>, s: Sample)
    requires rest != [] && Monotone(findMin, [x] + rest)
    ensures var p := Pushed(findMin, rest, s);
            Pushed(findMin, [x] + rest, s) == if AsGood(findMin, x.val, p[0].val) then [x] + p else p
    decreases |rest|
  {
    var last := rest[|rest| - 1];
    assert ([x] + rest)[|rest|] == last;
    if AsGood(findMin, last.val, s.val) {
      assert ([x] + rest)[0] == x && ([x] + rest)[1] == rest[0];
      assert [x] + rest + [s] == [x] + (rest + [s]);
    } else {
      assert ([x] + rest)[..|rest|] == [x] + rest[..|rest| - 1];
      if |rest| > 1 {
        assert Monotone(findMin, [x] + rest[..|rest| - 1]) by {
          assert forall i :: 0 <= i < |rest| ==> ([x] + rest[..|rest| - 1])[i] == ([x] + rest)[i];
        }
        PushPrepended(findMin, x, rest[..|rest| - 1], s);
      } else {
        assert rest[..0] == [] && [x] + [] == [x] && [x][..0] == [];
      }
    }
  }

  /** Appending a sample to the history pushes it onto the suffix extremes. */
  lemma {:induction false} PushKeepsExtremes(findMin: bool, hist: seq<Sample>, start: nat, s: Sample)
    requires start <= |hist|
    ensures SuffixExtremes(findMin, hist + [s], start) == Pushed(findMin, SuffixExtremes(findMin, hist, start), s)
    decreases |hist| - start
  {
    if start < |hist| {
      PushKeepsExtremes(findMin, hist, start + 1, s);
      var x, rest := hist[start], SuffixExtremes(findMin, hist, start + 1);
      SuffixesAreMonotone(findMin, hist, start);
      SuffixesAreMonotone(findMin, hist, start + 1);
      PushedFront(findMin, rest, s);
      if rest == [] {
        assert [x][..0] == [];
      } else if AsGood(findMin, x.val, rest[0].val) {
        PushPrepended(findMin, x, rest, s);
      }
    }
  }

  /** The deque after samples before the cutoff have been dropped from its front, all but
      the last one. */
  ghost function DropOld(d: seq<Sample>, cutoff: real): seq<Sample> {
    if |d| > 1 && d[0].time < cutoff then DropOld(d[1..], cutoff) else d
  }

  /** The first sample from `start` on that is not before the cutoff, or the last one. */
  ghost function FirstKept(hist: seq<Sample>, start: nat, cutoff: real): (k: nat)
    requires start < |hist|
    ensures start <= k < |hist|
    ensures forall i :: start <= i < k ==> hist[i].time < cutoff
    ensures k == |hist| - 1 || hist[k].time >= cutoff
    decreases |hist| - start
  {
    if start + 1 == |hist| || hist[start].time >= cutoff then start else FirstKept(hist, start + 1, cutoff)
  }

  /** Every suffix extreme is one of the samples. */
  lemma {:induction false} ExtremesAreSamples(findMin: bool, hist: seq<Sample>, start: nat)
    requires start <= |hist|
    ensures forall s :: s in SuffixExtremes(findMin, hist, start) ==> s in hist
    decreases |hist| - start
  {
    if start < |hist| { ExtremesAreSamples(findMin, hist, start + 1); }
  }

  /** Dropping old samples from the deque leaves the suffix extremes of the samples kept. */
  lemma {:induction false} DropKeepsExtremes(findMin: bool, hist: seq<Sample>, start: nat, cutoff: real)
    requires InOrder(hist) && start < |hist|
    ensures DropOld(SuffixExtremes(findMin, hist, start), cutoff)
            == SuffixExtremes(findMin, hist, FirstKept(hist, start, cutoff))
    decreases |hist| - start
  {
    FrontIsExtreme(findMin, hist, start);
    if start + 1 < |hist| {
      FrontIsExtreme(findMin, hist, start + 1);
      if hist[start].time < cutoff {
        DropKeepsExtremes(findMin, hist, start + 1, cutoff);
      } else {
        FrontIsRecent(findMin, hist, start, cutoff);
      }
    }
  }

  lemma FrontIsRecent(findMin: bool, hist: seq<Sample>, start: nat, cutoff: real)
    requires InOrder(hist) && start < |hist| && hist[start].time >= cutoff
    ensures var d := SuffixExtremes(findMin, hist, start); d != [] ==> d[0].time >= cutoff
    decreases |hist| - start
  {
  }

  /** The history behind a window: all samples since the last clear and the first of them
      still kept; the greatest cutoff so far, and whether no horizon has been negative. */
  datatype Book = Book(hist: seq<Sample>, start: nat, cutoff: real, forward: bool)

  const EmptyBook: Book := Book([], 0, 0.0, true)

  ghost predicate Sound(b: Book) {
    && InOrder(b.hist) && (if b.hist == [] then b.start == 0 else b.start < |b.hist|)
    && (b.hist != [] && b.forward ==>
          b.cutoff <= b.hist[|b.hist| - 1].time && b.start == FirstKept(b.hist, 0, b.cutoff))
  }

  ghost predicate NotBefore(b: Book, now: real) {
    b.hist == [] || b.hist[|b.hist| - 1].time <= now
  }

  /** One more sample, under a horizon. */
  ghost function Entered(b: Book, s: Sample, horizon: real): Book
    requires b.start <= |b.hist|
  {
    Book(b.hist + [s], FirstKept(b.hist + [s], b.start, s.time - horizon),
         if b.hist == [] || b.cutoff < s.time - horizon then s.time - horizon else b.cutoff,
         b.forward && horizon >= 0.0)
  }

  lemma EnteredIsSound(b: Book, s: Sample, horizon: real)
    requires Sound(b) && NotBefore(b, s.time)
    ensures InOrder(b.hist + [s])
    ensures Sound(Entered(b, s, horizon))
  {
  }

  /** As long as no horizon is negative, the samples kept are exactly those taken at or
      after the greatest cutoff so far. */
  lemma KeptAreRecent(b: Book, i: nat)
    requires Sound(b) && b.forward && i < |b.hist|
    ensures b.start <= i <==> b.hist[i].time >= b.cutoff
  {
  }

  // ---- what the window reports ---------------------------------------------------

  /** Some sample was at least as extreme as the initial value. */
  ghost predicate Seen(findMin: bool, initial: real, hist: seq<Sample>) {
    exists i :: 0 <= i < |hist| && AsGood(findMin, hist[i].val, initial)
  }

  /** The reported value in terms of the deque. */
  ghost predicate Reports(seen: bool, findMin: bool, initial: real, vals: seq<Sample>, extreme: real) {
    if seen then vals != [] && extreme == vals[0].val
    else extreme == initial && forall i :: 0 <= i < |vals| ==> !AsGood(findMin, vals[i].val, initial)
  }

  lemma PushReports(findMin: bool, initial: real, hist: seq<Sample>, d: seq<Sample>, s: Sample, extreme: real)
    requires Monotone(findMin, d) && (forall x :: x in d ==> x in hist)
    requires Reports(Seen(findMin, initial, hist), findMin, initial, d, extreme)
    ensures Reports(Seen(findMin, initial, hist + [s]), findMin, initial, Pushed(findMin, d, s),
                    if AsGood(findMin, extreme, s.val) then extreme else s.val)
  {
    var h := hist + [s];
    PushedFront(findMin, d, s);
    assert h[|hist|] == s;
    assert forall i :: 0 <= i < |hist| ==> h[i] == hist[i];
    if Seen(findMin, initial, hist) {
      var i :| 0 <= i < |hist| && AsGood(findMin, hist[i].val, initial);
      assert AsGood(findMin, h[i].val, initial);
    } else {
      PushedMembers(findMin, d, s);
      if d != [] { assert d[0] in hist; }
    }
  }

  lemma {:induction false} PushedMembers(findMin: bool, d: seq<Sample>, s: Sample)
    ensures forall x :: x in Pushed(findMin, d, s) ==> x in d || x == s
    decreases |d|
  {
    if d != [] && !AsGood(findMin, d[|d| - 1].val, s.val) { PushedMembers(findMin, d[..|d| - 1], s); }
  }

  /** The deque and the reported value match the history. */
  ghost predicate Consistent(findMin: bool, initial: real, vals: seq<Sample>, extreme: real, b: Book) {
    && Sound(b) && vals == SuffixExtremes(findMin, b.hist, b.start)
    && Reports(Seen(findMin, initial, b.hist), findMin, initial, vals, extreme)
  }

  lemma PushIsConsistent(findMin: bool, initial: real, vals: seq<Sample>, extreme: real, b: Book, s: Sample)
    requires Consistent(findMin, initial, vals, extreme, b)
    ensures Pushed(findMin, vals, s) == SuffixExtremes(findMin, b.hist + [s], b.start)
    ensures Reports(Seen(findMin, initial, b.hist + [s]), findMin, initial, Pushed(findMin, vals, s),
                    if AsGood(findMin, extreme, s.val) then extreme else s.val)
  {
    PushKeepsExtremes(findMin, b.hist, b.start, s);
    SuffixesAreMonotone(findMin, b.hist, b.start);
    ExtremesAreSamples(findMin, b.hist, b.start);
    PushReports(findMin, initial, b.hist, vals, s, extreme);
  }

  lemma {:induction false} DropIsConsistent(findMin: bool, initial: real, pushed: seq<Sample>, extreme: real,
      b: Book, s: Sample, horizon: real)
    requires Sound(b) && NotBefore(b, s.time)
    requires pushed == SuffixExtremes(findMin, b.hist + [s], b.start)
    requires Reports(Seen(findMin, initial, b.hist + [s]), findMin, initial, DropOld(pushed, s.time - horizon), extreme)
    ensures Consistent(findMin, initial, DropOld(pushed, s.time - horizon), extreme, Entered(b, s, horizon))
  {
    var e := Entered(b, s, horizon);
    EnteredIsSound(b, s, horizon);
    EnteredIs(b, s, horizon);
    DropKeepsExtremes(findMin, b.hist + [s], b.start, s.time - horizon);
    assert DropOld(pushed, s.time - horizon) == SuffixExtremes(findMin, e.hist, e.start);
  }

  lemma EnteredIs(b: Book, s: Sample, horizon: real)
    requires Sound(b)
    ensures var h := b.hist + [s];
            b.start < |h| && Entered(b, s, horizon).hist == h
                && Entered(b, s, horizon).start == FirstKept(h, b.start, s.time - horizon)
  {
  }

  /** A window reports the extreme of exactly the samples it keeps, as soon as any sample was
      at least as extreme as the initial value; before that it reports the initial value. */
  lemma ReportIsExtreme(findMin: bool, initial: real, vals: seq<Sample>, extreme: real, b: Book)
    requires Consistent(findMin, initial, vals, extreme, b)
    ensures if Seen(findMin, initial, b.hist) then b.start < |b.hist| && IsExtreme(findMin, b.hist, b.start, extreme)
            else extreme == initial
  {
    if Seen(findMin, initial, b.hist) { FrontIsExtreme(findMin, b.hist, b.start); }
  }

  /** A sample together with the horizon in force when it arrived. */
  datatype Arrival = Arrival(sample: Sample, horizon: real)

  /** The book of a window that has seen the samples. */
  ghost function BookOf(run: seq<Arrival>): (b: Book)
    ensures b.start <= |b.hist| == |run|
    decreases |run|
  {
    if run == [] then EmptyBook
    else
      var last := run[|run| - 1];
      Entered(BookOf(run[..|run| - 1]), last.sample, last.horizon)
  }

  ghost predicate Ordered(run: seq<Arrival>) {
    forall i, j :: 0 <= i < j < |run| ==> run[i].sample.time <= run[j].sample.time
  }

  ghost predicate NoneNegative(run: seq<Arrival>) {
    forall i :: 0 <= i < |run| ==> run[i].horizon >= 0.0
  }

  ghost function CutoffAt(a: Arrival): real { a.sample.time - a.horizon }

  ghost predicate IsLatestCutoff(run: seq<Arrival>, c: real) {
    && (exists i :: 0 <= i < |run| && c == CutoffAt(run[i]))
    && forall i :: 0 <= i < |run| ==> CutoffAt(run[i]) <= c
  }

  lemma {:induction false} BookOfRun(run: seq<Arrival>)
    requires Ordered(run)
    ensures Sound(BookOf(run)) && forall i :: 0 <= i < |run| ==> BookOf(run).hist[i] == run[i].sample
    decreases |run|
  {
    if run != [] {
      var before, last := run[..|run| - 1], run[|run| - 1];
      BookOfRun(before);
      EnteredIsSound(BookOf(before), last.sample, last.horizon);
    }
  }

  lemma {:induction false} CutoffOfRun(run: seq<Arrival>)
    requires run != [] && NoneNegative(run)
    ensures BookOf(run).forward && IsLatestCutoff(run, BookOf(run).cutoff)
    decreases |run|
  {
    var n := |run| - 1;
    var before, b := run[..n], BookOf(run[..n]);
    assert BookOf(run).cutoff == if n == 0 || b.cutoff < CutoffAt(run[n]) then CutoffAt(run[n]) else b.cutoff;
    if n > 0 {
      CutoffOfRun(before);
      LatestOfLonger(run, b.cutoff);
    }
  }

  lemma LatestOfLonger(run: seq<Arrival>, c: real)
    requires |run| > 1 && IsLatestCutoff(run[..|run| - 1], c)
    ensures var last := CutoffAt(run[|run| - 1]); IsLatestCutoff(run, if c < last then last else c)
  {
  }

  /** After any run of samples under any non-negative horizons, the window reports the extreme
      of exactly the samples taken at or after the latest cutoff, `time - horizon`, of the run. */
  lemma {:induction false} ReportsExtremeOfRecent(findMin: bool, initial: real, vals: seq<Sample>, extreme: real,
      run: seq<Arrival>, c: real)
    requires run != [] && Ordered(run) && NoneNegative(run) && IsLatestCutoff(run, c)
    requires Consistent(findMin, initial, vals, extreme, BookOf(run)) && Seen(findMin, initial, BookOf(run).hist)
    ensures exists i :: 0 <= i < |run| && run[i].sample.time >= c && run[i].sample.val == extreme
    ensures forall i :: 0 <= i < |run| && run[i].sample.time >= c ==> AsGood(findMin, extreme, run[i].sample.val)
  {
    KeptOfRun(run, c);
    ReportIsExtreme(findMin, initial, vals, extreme, BookOf(run));
  }

  lemma {:induction false} KeptOfRun(run: seq<Arrival>, c: real)
    requires run != [] && Ordered(run) && NoneNegative(run) && IsLatestCutoff(run, c)
    ensures BookOf(run).start < |BookOf(run).hist|
    ensures forall i :: 0 <= i < |run| ==> BookOf(run).hist[i] == run[i].sample
    ensures forall i :: 0 <= i < |run| ==> (BookOf(run).start <= i <==> run[i].sample.time >= c)
  {
    var b := BookOf(run);
    BookOfRun(run);
    CutoffOfRun(run);
    assert c == b.cutoff;
    forall i | 0 <= i < |run| ensures b.start <= i <==> run[i].sample.time >= c {
      KeptAreRecent(b, i);
    }
  }

  ghost function NextCutoff(first: bool, cutoff: real, s: Sample, horizon: real): real {
    if first then s.time - horizon else Larger(cutoff, s.time - horizon)
  }

  /** What entering a sample does to the book, apart from the samples kept. */
  ghost predicate Booked(b: Book, s: Sample, horizon: real, b': Book) {
    && b'.hist == b.hist + [s] && b'.forward == (b.forward && horizon >= 0.0)
    && b'.cutoff == NextCutoff(b.hist == [], b.cutoff, s, horizon)
  }

  lemma EnteredIsBooked(b: Book, s: Sample, horizon: real)
    requires b.start <= |b.hist|
    ensures Booked(b, s, horizon, Entered(b, s, horizon))
  {
  }

  /** c is the latest of the cutoffs, `time - horizon`, of the first n samples. */
  ghost predicate LatestCutoff(hist: seq<Sample>, horizons: seq<real>, n: nat, c: real)
    requires n <= |hist| == |horizons|
  {
    && (exists k {:trigger horizons[k]} :: 0 <= k < n && c == hist[k].time - horizons[k])
    && forall k {:trigger horizons[k]} :: 0 <= k < n ==> hist[k].time - horizons[k] <= c
  }

  /** m is the extreme of exactly the samples taken at c or later. */
  ghost predicate ExtremeSince(findMin: bool, hist: seq<Sample>, c: real, m: real) {
    && (exists i :: 0 <= i < |hist| && hist[i].time >= c && hist[i].val == m)
    && forall i :: 0 <= i < |hist| && hist[i].time >= c ==> if findMin then m <= hist[i].val else m >= hist[i].val
  }

  /** A window whose horizons were never negative reports the extreme of exactly the samples
      at or after its greatest cutoff. */
  lemma {:induction false} ReportsSinceCutoff(findMin: bool, initial: real, vals: seq<Sample>, extreme: real, b: Book)
    requires Consistent(findMin, initial, vals, extreme, b) && b.forward && Seen(findMin, initial, b.hist)
    ensures ExtremeSince(findMin, b.hist, b.cutoff, extreme)
  {
    ReportIsExtreme(findMin, initial, vals, extreme, b);
    forall i | 0 <= i < |b.hist| ensures b.start <= i <==> b.hist[i].time >= b.cutoff {
      KeptAreRecent(b, i);
    }
  }

  class ExtremeWindow {
    const findMin: bool
    /** numeric_limits<double>::max() or ::min() */
    const initial: real
    var maxTime: real
    var vals: seq<Sample>
    var extreme: real
    ghost var book: Book

    ghost predicate Valid()
      reads this
    {
      Consistent(findMin, initial, vals, extreme, book)
    }

    constructor (findMin: bool, initial: real)
      ensures Valid() && book == EmptyBook && this.findMin == findMin && this.initial == initial && extreme == initial
    {
      this.findMin, this.initial := findMin, initial;
      maxTime, vals, extreme := 10000.0, [], initial;
      book := EmptyBook;
    }

    lemma Reported()
      requires Valid() && Seen(findMin, initial, book.hist) && book.forward
      ensures ExtremeSince(findMin, book.hist, book.cutoff, extreme)
    {
      ReportsSinceCutoff(findMin, initial, vals, extreme, book);
    }

    lemma ReportedLeast()
      requires Valid() && findMin && book.hist != [] && book.forward
      requires forall i :: 0 <= i < |book.hist| ==> book.hist[i].val <= initial
      ensures extreme == LeastSince(initial, book.hist, |book.hist|, book.cutoff)
    {
      assert AsGood(findMin, book.hist[0].val, initial);
      Reported();
      ExtremeIsBounded(initial, book.hist, book.cutoff, extreme);
      LeastIs(initial, book.hist, book.cutoff, extreme);
    }

    /** clear */
    method Clear()
      modifies this
      ensures Valid() && book == EmptyBook && maxTime == 10000.0 && extreme == initial
    {
      maxTime := 10000.0;
      vals := [];
      extreme := initial;
      book := EmptyBook;
    }

    /** update_max_time */
    method UpdateMaxTime(t: real)
      modifies `maxTime
      ensures maxTime == t
    {
      maxTime := t;
    }

    /** new_sample */
    method NewSample(val: real, now: real)
      requires Valid() && NotBefore(book, now)
      modifies this
      ensures Valid() && maxTime == old(maxTime)
      ensures book == Entered(old(book), Sample(now, val), maxTime)
    {
      ghost var s, b := Sample(now, val), book;
      PushIsConsistent(findMin, initial, vals, extreme, b, s);
      Push(val, now);
      ghost var pushed := vals;
      ClearOldHist(now, Seen(findMin, initial, b.hist + [s]));
      DropIsConsistent(findMin, initial, pushed, extreme, b, s, maxTime);
      book := Entered(b, s, maxTime);
    }

    /** The first part of new_sample: worse samples leave the back of the deque. */
    method Push(val: real, now: real)
      modifies `vals, `extreme
      ensures vals == Pushed(findMin, old(vals), Sample(now, val))
      ensures extreme == if AsGood(findMin, old(extreme), val) then old(extreme) else val
    {
      ghost var d, s := vals, Sample(now, val);
      while vals != [] && ((findMin && vals[|vals| - 1].val > val) || (!findMin && vals[|vals| - 1].val < val))
        invariant Pushed(findMin, vals, s) == Pushed(findMin, d, s)
        modifies `vals
        decreases |vals|
      {
        vals := vals[..|vals| - 1];
      }
      vals := vals + [Sample(now, val)];
      if (findMin && val < extreme) || (!findMin && val > extreme) {
        extreme := val;
      }
    }

    /** clear_old_hist */
    method ClearOldHist(now: real, ghost seen: bool)
      requires vals != [] && Reports(seen, findMin, initial, vals, extreme)
      modifies `vals, `extreme
      ensures vals == DropOld(old(vals), now - maxTime)
      ensures Reports(seen, findMin, initial, vals, extreme)
    {
      var recompute := false;
      while |vals| > 1 && vals[0].time < now - maxTime
        invariant vals != [] && DropOld(vals, now - maxTime) == DropOld(old(vals), now - maxTime)
        invariant if recompute then seen else Reports(seen, findMin, initial, vals, extreme)
        modifies `vals
        decreases |vals|
      {
        if (findMin && vals[0].val <= extreme) || (!findMin && vals[0].val >= extreme) {
          recompute := true;
        }
        vals := vals[1..];
      }
      if recompute {
        extreme := vals[0].val;
      }
    }
  }

  // ---- the four windows of one flow ----------------------------------------------------

  lemma ShorterWindowIsLessExtreme(hist: seq<Sample>, start1: nat, start2: nat, m1: real, m2: real)
    requires start1 <= start2 < |hist|
    requires IsExtreme(true, hist, start1, m1) && IsExtreme(true, hist, start2, m2)
    ensures m1 <= m2 <= hist[|hist| - 1].val
  {
  }

  /** The windows have seen the same samples, and each keeps a part of what the one before
      it keeps. */
  ghost predicate Nested(min: Book, copa: Book, unjittered: Book, copaMax: Book) {
    && min.hist == copa.hist == unjittered.hist == copaMax.hist
    && min.start <= copa.start <= unjittered.start && copaMax.start == copa.start
  }

  /** All values are at most the initial value, and the last one is the latest RTT. */
  ghost predicate InRange(hist: seq<Sample>, initial: real, latest: real) {
    && (hist != [] ==> latest == hist[|hist| - 1].val)
    && forall i :: 0 <= i < |hist| ==> hist[i].val <= initial
  }

  /** Horizons a >= b and a >= c, with b either at least c or, like c, negative. */
  lemma {:induction false} StillNested(min: Book, copa: Book, unjittered: Book, copaMax: Book, s: Sample, a: real,
      b: real, c: real)
    requires Sound(min) && Sound(copa) && Sound(unjittered) && Sound(copaMax)
    requires Nested(min, copa, unjittered, copaMax) && NotBefore(min, s.time)
    requires a >= b && a >= c && (b >= c || (b < 0.0 && c < 0.0))
    ensures Nested(Entered(min, s, a), Entered(copa, s, b), Entered(unjittered, s, c), Entered(copaMax, s, b))
  {
    var h := min.hist + [s];
    StartBound(unjittered);
    EnteredIsSound(min, s, a);
    StartsStayOrdered(h, min.start, copa.start, unjittered.start, s.time - a, s.time - b, s.time - c);
  }

  lemma {:induction false} AllEntered(min: Book, copa: Book, unjittered: Book, copaMax: Book, s: Sample,
      initial: real, a: real, b: real, c: real)
    requires Sound(min) && Sound(copa) && Sound(unjittered) && Sound(copaMax)
    requires Nested(min, copa, unjittered, copaMax) && NotBefore(min, s.time)
    requires a >= b && a >= c && (b >= c || (b < 0.0 && c < 0.0))
    requires forall i :: 0 <= i < |min.hist| ==> min.hist[i].val <= initial
    requires s.val <= initial
    ensures Nested(Entered(min, s, a), Entered(copa, s, b), Entered(unjittered, s, c), Entered(copaMax, s, b))
    ensures InRange(Entered(min, s, a).hist, initial, s.val)
    ensures NotBefore(copa, s.time) && NotBefore(unjittered, s.time) && NotBefore(copaMax, s.time)
  {
    EnteredIsBooked(min, s, a);
    StillNested(min, copa, unjittered, copaMax, s, a, b, c);
  }

  lemma StartsStayOrdered(h: seq<Sample>, i: nat, j: nat, k: nat, ca: real, cb: real, cc: real)
    requires i <= j <= k < |h| && InOrder(h) && ca <= cb
    requires cb <= cc || (h[|h| - 1].time < cb && h[|h| - 1].time < cc)
    ensures FirstKept(h, i, ca) <= FirstKept(h, j, cb) <= FirstKept(h, k, cc)
  {
  }

  lemma StartBound(b: Book)
    requires Sound(b)
    ensures b.start < |b.hist| + 1
  {
  }

  // ---- the four windows, as functions of the first n samples since the last clear ------

  /** The smoothed RTT. */
  ghost function Smoothed(hist: seq<Sample>, n: nat): real
    requires n <= |hist|
  {
    if n == 0 then 0.0 else NextSrtt(Smoothed(hist, n - 1), hist[n - 1].val)
  }

  ghost function NextSrtt(srtt: real, rtt: real): real {
    rtt / 16.0 + (1.0 - 1.0 / 16.0) * (if srtt == 0.0 then rtt else srtt)
  }

  /** The least value of the samples taken at c or later, if that is below `initial`. */
  ghost function LeastSince(initial: real, hist: seq<Sample>, n: nat, c: real): real
    requires n <= |hist|
  {
    if n == 0 then initial
    else
      var least, last := LeastSince(initial, hist, n - 1, c), hist[n - 1];
      if last.time >= c && last.val < least then last.val else least
  }

  /** The minimum RTT. */
  ghost function MinRtt(initial: real, hist: seq<Sample>, n: nat): real
    requires n <= |hist|
    decreases n, 1
  {
    LeastSince(initial, hist, n, MinCutoff(initial, hist, n))
  }

  ghost function MinHorizon(min: real): real { Larger(10000.0, 20.0 * min) }

  /** The greatest cutoff of the minimum window: its horizon follows the minimum RTT before
      each sample. */
  ghost function MinCutoff(initial: real, hist: seq<Sample>, n: nat): real
    requires n <= |hist|
    decreases n, 0
  {
    if n == 0 then 0.0
    else NextCutoff(n == 1, MinCutoff(initial, hist, n - 1), hist[n - 1], MinHorizon(MinRtt(initial, hist, n - 1)))
  }

  /** The unjittered window has the short horizon, the is_copa windows the long one. */
  ghost function Scale(short: bool, srtt: real): real { if short then srtt * 0.5 else srtt * 4.0 }

  /** The horizon of such a window when the k-th sample enters it: a multiple of the smoothed RTT,
      but at most that of the minimum window. */
  ghost function ScaledHorizon(initial: real, short: bool, hist: seq<Sample>, k: nat): real
    requires k < |hist|
  {
    Smaller(MinHorizon(MinRtt(initial, hist, k)), Scale(short, Smoothed(hist, k + 1)))
  }

  ghost function ScaledCutoff(initial: real, short: bool, hist: seq<Sample>, n: nat): real
    requires n <= |hist|
  {
    if n == 0 then 0.0
    else NextCutoff(n == 1, ScaledCutoff(initial, short, hist, n - 1), hist[n - 1],
                    ScaledHorizon(initial, short, hist, n - 1))
  }

  ghost predicate Positive(hist: seq<Sample>) {
    forall i :: 0 <= i < |hist| ==> hist[i].val > 0.0
  }

  /** The smoothed RTT is the first sample, and every later one moves it a sixteenth of the
      way towards itself. */
  lemma {:induction false} SmoothedIsMovingAverage(hist: seq<Sample>, n: nat)
    requires Positive(hist) && n < |hist|
    ensures n == 0 ==> Smoothed(hist, n + 1) == hist[n].val
    ensures n > 0 ==> 16.0 * (Smoothed(hist, n + 1) - Smoothed(hist, n)) == hist[n].val - Smoothed(hist, n)
  {
    if n > 0 { SmoothedIsPositive(hist, n); }
  }

  lemma {:induction false} SmoothedIsPositive(hist: seq<Sample>, n: nat)
    requires 0 < n <= |hist| && Positive(hist)
    ensures Smoothed(hist, n) > 0.0
  {
    if n > 1 { SmoothedIsPositive(hist, n - 1); }
  }

  /** The smoothed RTT lies within any positive bounds of the samples. */
  lemma {:induction false} SmoothedIsBetween(hist: seq<Sample>, n: nat, lo: real, hi: real)
    requires 0 < n <= |hist| && 0.0 < lo
    requires forall i :: 0 <= i < n ==> lo <= hist[i].val <= hi
    ensures lo <= Smoothed(hist, n) <= hi
  {
    if n > 1 { SmoothedIsBetween(hist, n - 1, lo, hi); }
  }

  lemma {:induction false} LeastIs(initial: real, hist: seq<Sample>, c: real, m: real)
    requires m <= initial && ExtremeSince(true, hist, c, m)
    ensures LeastSince(initial, hist, |hist|, c) == m
  {
    LeastIsAtLeast(initial, hist, |hist|, c, m);
    var i :| 0 <= i < |hist| && hist[i].time >= c && hist[i].val == m;
    LeastIsAtMost(initial, hist, |hist|, c, i);
  }

  lemma {:induction false} LeastIsAtLeast(initial: real, hist: seq<Sample>, n: nat, c: real, m: real)
    requires n <= |hist| && m <= initial && forall i :: 0 <= i < n && hist[i].time >= c ==> m <= hist[i].val
    ensures m <= LeastSince(initial, hist, n, c)
  {
    if n > 0 { LeastIsAtLeast(initial, hist, n - 1, c, m); }
  }

  lemma {:induction false} LeastIsAtMost(initial: real, hist: seq<Sample>, n: nat, c: real, i: nat)
    requires i < n <= |hist| && hist[i].time >= c
    ensures LeastSince(initial, hist, n, c) <= hist[i].val
  {
    if i < n - 1 { LeastIsAtMost(initial, hist, n - 1, c, i); }
  }

  lemma {:induction false} LeastIsTaken(initial: real, hist: seq<Sample>, n: nat, c: real)
    requires n <= |hist|
    ensures var m := LeastSince(initial, hist, n, c);
            m == initial || exists i :: 0 <= i < n && hist[i].time >= c && hist[i].val == m
  {
    if n > 0 { LeastIsTaken(initial, hist, n - 1, c); }
  }

  lemma LeastIsExtreme(initial: real, hist: seq<Sample>, c: real, k: nat)
    requires k < |hist| && hist[k].time >= c && forall i :: 0 <= i < |hist| ==> hist[i].val <= initial
    ensures ExtremeSince(true, hist, c, LeastSince(initial, hist, |hist|, c))
  {
    LeastIsTaken(initial, hist, |hist|, c);
    forall i | 0 <= i < |hist| && hist[i].time >= c ensures LeastSince(initial, hist, |hist|, c) <= hist[i].val {
      LeastIsAtMost(initial, hist, |hist|, c, i);
    }
  }

  // Later samples change nothing about the first n.

  ghost predicate SameStart(hist: seq<Sample>, longer: seq<Sample>, n: nat) {
    n <= |hist| && n <= |longer| && forall i :: 0 <= i < n ==> hist[i] == longer[i]
  }

  lemma {:induction false} SmoothedOfStart(hist: seq<Sample>, longer: seq<Sample>, n: nat)
    requires SameStart(hist, longer, n)
    ensures Smoothed(hist, n) == Smoothed(longer, n)
  {
    if n > 0 { SmoothedOfStart(hist, longer, n - 1); }
  }

  lemma {:induction false} LeastOfStart(initial: real, hist: seq<Sample>, longer: seq<Sample>, n: nat, c: real)
    requires SameStart(hist, longer, n)
    ensures LeastSince(initial, hist, n, c) == LeastSince(initial, longer, n, c)
  {
    if n > 0 { LeastOfStart(initial, hist, longer, n - 1, c); }
  }

  lemma {:induction false} MinOfStart(initial: real, hist: seq<Sample>, longer: seq<Sample>, n: nat)
    requires SameStart(hist, longer, n)
    ensures MinCutoff(initial, hist, n) == MinCutoff(initial, longer, n)
    ensures MinRtt(initial, hist, n) == MinRtt(initial, longer, n)
  {
    if n > 0 { MinOfStart(initial, hist, longer, n - 1); }
    LeastOfStart(initial, hist, longer, n, MinCutoff(initial, hist, n));
  }

  lemma {:induction false} ScaledOfStart(initial: real, short: bool, hist: seq<Sample>, longer: seq<Sample>, n: nat)
    requires SameStart(hist, longer, n)
    ensures ScaledCutoff(initial, short, hist, n) == ScaledCutoff(initial, short, longer, n)
  {
    if n > 0 {
      ScaledOfStart(initial, short, hist, longer, n - 1);
      MinOfStart(initial, hist, longer, n - 1);
      SmoothedOfStart(hist, longer, n);
    }
  }

  // The cutoffs are the latest ones of the run.

  lemma {:induction false} MinCutoffIsLatest(initial: real, hist: seq<Sample>, horizons: seq<real>, n: nat)
    requires 0 < n <= |hist| && |horizons| == |hist|
    requires forall k {:trigger horizons[k]} :: 0 <= k < |hist| ==>
               horizons[k] == Larger(10000.0, 20.0 * MinRtt(initial, hist, k))
    ensures LatestCutoff(hist, horizons, n, MinCutoff(initial, hist, n))
  {
    assert horizons[n - 1] == MinHorizon(MinRtt(initial, hist, n - 1));
    var c := if n == 1 then 0.0 else MinCutoff(initial, hist, n - 1);
    if n > 1 { MinCutoffIsLatest(initial, hist, horizons, n - 1); }
    LatestOfOneMore(hist, horizons, n, c);
  }

  lemma {:induction false} ScaledCutoffIsLatest(initial: real, short: bool, hist: seq<Sample>, horizons: seq<real>,
      n: nat)
    requires 0 < n <= |hist| && |horizons| == |hist|
    requires forall k {:trigger horizons[k]} :: 0 <= k < |hist| ==>
               horizons[k] == ScaledHorizon(initial, short, hist, k)
    ensures LatestCutoff(hist, horizons, n, ScaledCutoff(initial, short, hist, n))
  {
    assert horizons[n - 1] == ScaledHorizon(initial, short, hist, n - 1);
    var c := if n == 1 then 0.0 else ScaledCutoff(initial, short, hist, n - 1);
    if n > 1 { ScaledCutoffIsLatest(initial, short, hist, horizons, n - 1); }
    LatestOfOneMore(hist, horizons, n, c);
  }

  lemma LatestOfOneMore(hist: seq<Sample>, horizons: seq<real>, n: nat, cutoff: real)
    requires 0 < n <= |hist| && |horizons| == |hist|
    requires n > 1 ==> LatestCutoff(hist, horizons, n - 1, cutoff)
    ensures LatestCutoff(hist, horizons, n, NextCutoff(n == 1, cutoff, hist[n - 1], horizons[n - 1]))
  {
  }

  lemma LatestIsUnique(hist: seq<Sample>, horizons: seq<real>, n: nat, c: real, d: real)
    requires n <= |hist| == |horizons|
    requires LatestCutoff(hist, horizons, n, c) && LatestCutoff(hist, horizons, n, d)
    ensures c == d
  {
  }

  /** The minimum RTT of a run of samples is that of exactly the samples not before the latest
      `time - max(10000, 20 * minimum before the sample)`. */
  lemma {:induction false} MinRttIsRecentMinimum(initial: real, hist: seq<Sample>, horizons: seq<real>, c: real)
    requires hist != [] && |horizons| == |hist| && LatestCutoff(hist, horizons, |hist|, c)
    requires forall k :: 0 <= k < |hist| ==> hist[k].val <= initial
    requires forall k {:trigger horizons[k]} :: 0 <= k < |hist| ==>
               horizons[k] == Larger(10000.0, 20.0 * MinRtt(initial, hist, k))
    ensures MinRtt(initial, hist, 0) == initial
    ensures ExtremeSince(true, hist, c, MinRtt(initial, hist, |hist|))
  {
    MinCutoffIsLatest(initial, hist, horizons, |hist|);
    LatestIsUnique(hist, horizons, |hist|, c, MinCutoff(initial, hist, |hist|));
    var k :| 0 <= k < |hist| && c == hist[k].time - horizons[k];
    assert horizons[k] >= 0.0;
    LeastIsExtreme(initial, hist, c, k);
  }

  lemma {:induction false} ScaledCutoffIs(initial: real, short: bool, hist: seq<Sample>, minHorizons: seq<real>,
      horizons: seq<real>, c: real)
    requires hist != [] && |horizons| == |minHorizons| == |hist| && LatestCutoff(hist, horizons, |hist|, c)
    requires forall k {:trigger minHorizons[k]} :: 0 <= k < |hist| ==>
               minHorizons[k] == Larger(10000.0, 20.0 * MinRtt(initial, hist, k))
    requires forall k {:trigger horizons[k]} :: 0 <= k < |hist| ==>
               horizons[k] == Smaller(minHorizons[k], (if short then 0.5 else 4.0) * Smoothed(hist, k + 1))
    ensures c == ScaledCutoff(initial, short, hist, |hist|)
  {
    forall k | 0 <= k < |hist| ensures horizons[k] == ScaledHorizon(initial, short, hist, k) {
      assert minHorizons[k] == MinHorizon(MinRtt(initial, hist, k));
    }
    ScaledCutoffIsLatest(initial, short, hist, horizons, |hist|);
    LatestIsUnique(hist, horizons, |hist|, c, ScaledCutoff(initial, short, hist, |hist|));
  }

  /** The windows report the minima of exactly the samples at or after their cutoffs. */
  ghost predicate ReportRecent(initial: real, hist: seq<Sample>, min: real, unjittered: real, copaMin: real) {
    && min == MinRtt(initial, hist, |hist|) && (forall k :: 0 <= k < |hist| ==> hist[k].val <= initial)
    && ExtremeSince(true, hist, ScaledCutoff(initial, true, hist, |hist|), unjittered)
    && ExtremeSince(true, hist, ScaledCutoff(initial, false, hist, |hist|), copaMin)
  }

  /** Then the minimum RTT is that of exactly the samples taken at or after the latest
      `time - max(10000, 20 * minimum before)` of the run, the unjittered RTT that since the latest
      `time - min(max(10000, 20 * minimum before), srtt / 2)`, and the is_copa minimum that with
      4 * srtt in place of srtt / 2. */
  lemma {:induction false} RecentMinima(initial: real, hist: seq<Sample>, min: real, unjittered: real, copaMin: real,
      minHorizons: seq<real>, horizons: seq<real>, copaHorizons: seq<real>, c: real, d: real, e: real)
    requires hist != [] && |minHorizons| == |horizons| == |copaHorizons| == |hist|
    requires ReportRecent(initial, hist, min, unjittered, copaMin)
    requires forall k {:trigger minHorizons[k]} :: 0 <= k < |hist| ==>
               minHorizons[k] == Larger(10000.0, 20.0 * MinRtt(initial, hist, k))
    requires forall k {:trigger horizons[k]} :: 0 <= k < |hist| ==>
               horizons[k] == Smaller(minHorizons[k], 0.5 * Smoothed(hist, k + 1))
    requires forall k {:trigger copaHorizons[k]} :: 0 <= k < |hist| ==>
               copaHorizons[k] == Smaller(minHorizons[k], 4.0 * Smoothed(hist, k + 1))
    requires LatestCutoff(hist, minHorizons, |hist|, c) && LatestCutoff(hist, horizons, |hist|, d)
    requires LatestCutoff(hist, copaHorizons, |hist|, e)
    ensures ExtremeSince(true, hist, c, min) && ExtremeSince(true, hist, d, unjittered)
    ensures ExtremeSince(true, hist, e, copaMin)
    ensures e == ScaledCutoff(initial, false, hist, |hist|)
  {
    MinRttIsRecentMinimum(initial, hist, minHorizons, c);
    ScaledCutoffIs(initial, true, hist, minHorizons, horizons, d);
    ScaledCutoffIs(initial, false, hist, minHorizons, copaHorizons, e);
  }

  /** The smoothed RTT and the minimum window are those of the samples. */
  ghost predicate Followed(initial: real, hist: seq<Sample>, srtt: real, extreme: real, b: Book) {
    && srtt == Smoothed(hist, |hist|) && extreme == MinRtt(initial, hist, |hist|)
    && b.forward && b.cutoff == MinCutoff(initial, hist, |hist|)
  }

  /** A window whose horizon is a multiple of the smoothed RTT has cut off what it should. */
  ghost predicate Scaled(initial: real, short: bool, b: Book) {
    b.forward && b.cutoff == ScaledCutoff(initial, short, b.hist, |b.hist|)
  }

  lemma {:induction false} MinFollows(initial: real, srtt: real, extreme: real, b: Book, s: Sample, after: real,
      b': Book)
    requires Followed(initial, b.hist, srtt, extreme, b) && Booked(b, s, MinHorizon(extreme), b')
    requires b'.forward ==> after == LeastSince(initial, b'.hist, |b'.hist|, b'.cutoff)
    ensures Followed(initial, b'.hist, NextSrtt(srtt, s.val), after, b')
  {
    var h, n := b'.hist, |b.hist|;
    SmoothedOfStart(b.hist, h, n);
    MinOfStart(initial, b.hist, h, n);
  }

  lemma ExtremeIsBounded(initial: real, hist: seq<Sample>, c: real, m: real)
    requires ExtremeSince(true, hist, c, m) && forall i :: 0 <= i < |hist| ==> hist[i].val <= initial
    ensures m <= initial
  {
  }

  lemma {:induction false} ScaledFollows(initial: real, short: bool, extreme: real, b: Book, s: Sample, srtt: real,
      b': Book)
    requires Positive(b'.hist) && (Positive(b.hist) ==> Scaled(initial, short, b))
    requires extreme == MinRtt(initial, b.hist, |b.hist|) && srtt == Smoothed(b'.hist, |b'.hist|)
    requires Booked(b, s, Smaller(MinHorizon(extreme), Scale(short, srtt)), b')
    ensures Scaled(initial, short, b')
  {
    var h, n := b'.hist, |b.hist|;
    assert Positive(b.hist) by { assert forall i :: 0 <= i < n ==> b.hist[i] == h[i]; }
    MinOfStart(initial, b.hist, h, n);
    ScaledOfStart(initial, short, b.hist, h, n);
    SmoothedIsPositive(h, n + 1);
  }

  lemma AllFollow(initial: real, extreme: real, srtt: real, s: Sample, unjittered: Book, copa: Book, copaMax: Book,
      unjittered': Book, copa': Book, copaMax': Book)
    requires unjittered.hist == copa.hist == copaMax.hist
    requires unjittered'.hist == copa'.hist == copaMax'.hist
    requires Positive(copa.hist) ==>
               Scaled(initial, true, unjittered) && Scaled(initial, false, copa) && Scaled(initial, false, copaMax)
    requires extreme == MinRtt(initial, copa.hist, |copa.hist|) && srtt == Smoothed(copa'.hist, |copa'.hist|)
    requires Booked(unjittered, s, Smaller(MinHorizon(extreme), srtt * 0.5), unjittered')
    requires Booked(copa, s, Smaller(MinHorizon(extreme), srtt * 4.0), copa')
    requires Booked(copaMax, s, Smaller(MinHorizon(extreme), srtt * 4.0), copaMax')
    ensures Positive(copa'.hist) ==>
              Scaled(initial, true, unjittered') && Scaled(initial, false, copa') && Scaled(initial, false, copaMax')
  {
    if Positive(copa'.hist) {
      ScaledFollows(initial, true, extreme, unjittered, s, srtt, unjittered');
      ScaledFollows(initial, false, extreme, copa, s, srtt, copa');
      ScaledFollows(initial, false, extreme, copaMax, s, srtt, copaMax');
    }
  }

  class RTTWindow {
    var srtt: real
    var latestRtt: real
    const minRtt: ExtremeWindow
    const unjitteredRtt: ExtremeWindow
    const isCopaMin: ExtremeWindow
    const isCopaMax: ExtremeWindow

    ghost function Repr(): set<object> { {this, minRtt, unjitteredRtt, isCopaMin, isCopaMax} }

    ghost predicate Apart() {
      && minRtt != unjitteredRtt && minRtt != isCopaMin && minRtt != isCopaMax
      && unjitteredRtt != isCopaMin && unjitteredRtt != isCopaMax && isCopaMin != isCopaMax
    }

    ghost predicate Valid()
      reads Repr()
    {
      && WindowsValid()
      && Nested(minRtt.book, isCopaMin.book, unjitteredRtt.book, isCopaMax.book)
      && InRange(minRtt.book.hist, minRtt.initial, latestRtt)
      && Followed(minRtt.initial, Samples(), srtt, minRtt.extreme, minRtt.book)
      && (Positive(Samples()) ==> Scaled(minRtt.initial, true, unjitteredRtt.book)
                                  && Scaled(minRtt.initial, false, isCopaMin.book)
                                  && Scaled(minRtt.initial, false, isCopaMax.book))
    }

    ghost predicate WindowsValid()
      reads Repr()
    {
      && Apart() && minRtt.Valid() && unjitteredRtt.Valid() && isCopaMin.Valid() && isCopaMax.Valid()
      && minRtt.findMin && unjitteredRtt.findMin && isCopaMin.findMin && !isCopaMax.findMin
      && minRtt.initial == unjitteredRtt.initial == isCopaMin.initial
    }

    lemma BooksAreSound()
      requires WindowsValid()
      ensures Sound(minRtt.book) && Sound(isCopaMin.book) && Sound(unjitteredRtt.book) && Sound(isCopaMax.book)
    {
    }

    /** The samples of the flow so far. */
    ghost function Samples(): seq<Sample>
      reads minRtt
    {
      minRtt.book.hist
    }

    constructor (dblMax: real, dblMin: real)
      ensures Valid() && Samples() == [] && fresh(Repr()) && minRtt.initial == dblMax
    {
      srtt, latestRtt := 0.0, 0.0;
      minRtt := new ExtremeWindow(true, dblMax);
      unjitteredRtt := new ExtremeWindow(true, dblMax);
      isCopaMin := new ExtremeWindow(true, dblMax);
      isCopaMax := new ExtremeWindow(false, dblMin);
    }

    /** clear: the latest RTT is kept. */
    method Clear()
      requires Valid()
      modifies Repr()
      ensures Valid() && Samples() == [] && latestRtt == old(latestRtt)
    {
      srtt := 0.0;
      minRtt.Clear();
      unjitteredRtt.Clear();
      isCopaMin.Clear();
      isCopaMax.Clear();
    }

    /** new_rtt_sample, for an RTT in the range of a double. */
    method NewRttSample(rtt: real, now: real)
      requires Valid() && rtt <= minRtt.initial && NotBefore(minRtt.book, now)
      modifies Repr()
      ensures Valid() && Samples() == old(Samples()) + [Sample(now, rtt)] && latestRtt == rtt
      ensures old(srtt) == 0.0 ==> srtt == rtt
      ensures old(srtt) != 0.0 ==> 16.0 * (srtt - old(srtt)) == rtt - old(srtt)
      ensures InSequence()
    {
      ghost var s, srtt0, extreme0, latest := Sample(now, rtt), srtt, minRtt.extreme, latestRtt;
      ghost var min, unjittered, copa, copaMax := minRtt.book, unjitteredRtt.book, isCopaMin.book, isCopaMax.book;
      UpdateHorizons(rtt);
      ghost var a, b, c := minRtt.maxTime, unjitteredRtt.maxTime, isCopaMin.maxTime;
      FeedAll(rtt, now, latest);
      StaysValid(srtt0, extreme0, s, min, unjittered, copa, copaMax, a, b, c);
    }

    /** Windows that took the sample under their horizons still follow the samples. */
    lemma StaysValid(srtt0: real, extreme0: real, s: Sample, min: Book, unjittered: Book, copa: Book, copaMax: Book,
        a: real, b: real, c: real)
      requires WindowsValid() && Nested(minRtt.book, isCopaMin.book, unjitteredRtt.book, isCopaMax.book)
      requires InRange(minRtt.book.hist, minRtt.initial, latestRtt) && min.hist == unjittered.hist == copa.hist
      requires copaMax.hist == copa.hist && srtt == NextSrtt(srtt0, s.val)
      requires Followed(minRtt.initial, min.hist, srtt0, extreme0, min)
      requires Positive(copa.hist) ==> Scaled(minRtt.initial, true, unjittered)
                                       && Scaled(minRtt.initial, false, copa) && Scaled(minRtt.initial, false, copaMax)
      requires a == MinHorizon(extreme0) && b == Smaller(a, srtt * 0.5) && c == Smaller(a, srtt * 4.0)
      requires Booked(min, s, a, minRtt.book) && Booked(unjittered, s, b, unjitteredRtt.book)
      requires Booked(copa, s, c, isCopaMin.book) && Booked(copaMax, s, c, isCopaMax.book)
      ensures Valid() && InSequence()
    {
      minRtt.ReportedLeast();
      MinFollows(minRtt.initial, srtt0, extreme0, min, s, minRtt.extreme, minRtt.book);
      AllFollow(minRtt.initial, extreme0, srtt, s, unjittered, copa, copaMax, unjitteredRtt.book, isCopaMin.book,
                isCopaMax.book);
      WindowsInSequence();
    }

    /** The sample enters the four windows, which stay nested. */
    method FeedAll(rtt: real, now: real, ghost latest: real)
      requires WindowsValid() && Nested(minRtt.book, isCopaMin.book, unjitteredRtt.book, isCopaMax.book)
      requires InRange(minRtt.book.hist, minRtt.initial, latest) && rtt <= minRtt.initial
      requires NotBefore(minRtt.book, now)
      requires minRtt.maxTime >= isCopaMin.maxTime && minRtt.maxTime >= unjitteredRtt.maxTime
      requires isCopaMin.maxTime >= unjitteredRtt.maxTime || (isCopaMin.maxTime < 0.0 && unjitteredRtt.maxTime < 0.0)
      requires isCopaMax.maxTime == isCopaMin.maxTime
      modifies minRtt, unjitteredRtt, isCopaMin, isCopaMax
      ensures WindowsValid() && Nested(minRtt.book, isCopaMin.book, unjitteredRtt.book, isCopaMax.book)
      ensures InRange(minRtt.book.hist, minRtt.initial, rtt)
      ensures Booked(old(minRtt.book), Sample(now, rtt), old(minRtt.maxTime), minRtt.book)
      ensures Booked(old(unjitteredRtt.book), Sample(now, rtt), old(unjitteredRtt.maxTime), unjitteredRtt.book)
      ensures Booked(old(isCopaMin.book), Sample(now, rtt), old(isCopaMin.maxTime), isCopaMin.book)
      ensures Booked(old(isCopaMax.book), Sample(now, rtt), old(isCopaMax.maxTime), isCopaMax.book)
    {
      ghost var s := Sample(now, rtt);
      BooksAreSound();
      AllEntered(minRtt.book, isCopaMin.book, unjitteredRtt.book, isCopaMax.book, s, minRtt.initial,
                 minRtt.maxTime, isCopaMin.maxTime, unjitteredRtt.maxTime);
      EnteredIsBooked(minRtt.book, s, minRtt.maxTime);
      EnteredIsBooked(unjitteredRtt.book, s, unjitteredRtt.maxTime);
      EnteredIsBooked(isCopaMin.book, s, isCopaMin.maxTime);
      EnteredIsBooked(isCopaMax.book, s, isCopaMax.maxTime);
      Feed(rtt, now);
    }

    /** The second part of new_rtt_sample: the sample enters the four windows. */
    method Feed(rtt: real, now: real)
      requires WindowsValid() && NotBefore(minRtt.book, now) && NotBefore(isCopaMin.book, now)
      requires NotBefore(unjitteredRtt.book, now) && NotBefore(isCopaMax.book, now)
      modifies minRtt, unjitteredRtt, isCopaMin, isCopaMax
      ensures WindowsValid()
      ensures minRtt.book == Entered(old(minRtt.book), Sample(now, rtt), old(minRtt.maxTime))
      ensures unjitteredRtt.book == Entered(old(unjitteredRtt.book), Sample(now, rtt), old(unjitteredRtt.maxTime))
      ensures isCopaMin.book == Entered(old(isCopaMin.book), Sample(now, rtt), old(isCopaMin.maxTime))
      ensures isCopaMax.book == Entered(old(isCopaMax.book), Sample(now, rtt), old(isCopaMax.maxTime))
    {
      minRtt.NewSample(rtt, now);
      unjitteredRtt.NewSample(rtt, now);
      isCopaMin.NewSample(rtt, now);
      isCopaMax.NewSample(rtt, now);
    }

    /** The first part of new_rtt_sample: the smoothed RTT and the horizons. */
    method UpdateHorizons(rtt: real)
      requires Apart()
      modifies `srtt, `latestRtt, minRtt`maxTime, unjitteredRtt`maxTime, isCopaMin`maxTime, isCopaMax`maxTime
      ensures latestRtt == rtt
      ensures srtt == NextSrtt(old(srtt), rtt) && minRtt.maxTime == MinHorizon(minRtt.extreme)
      ensures unjitteredRtt.maxTime == Smaller(minRtt.maxTime, srtt * 0.5)
      ensures isCopaMin.maxTime == Smaller(minRtt.maxTime, srtt * 4.0)
      ensures minRtt.maxTime >= isCopaMin.maxTime && minRtt.maxTime >= unjitteredRtt.maxTime
      ensures isCopaMin.maxTime >= unjitteredRtt.maxTime || (isCopaMin.maxTime < 0.0 && unjitteredRtt.maxTime < 0.0)
      ensures isCopaMax.maxTime == isCopaMin.maxTime
    {
      if srtt == 0.0 {
        srtt := rtt;
      }
      srtt := rtt / 16.0 + (1.0 - 1.0 / 16.0) * srtt;
      latestRtt := rtt;
      var maxTime := Larger(10000.0, 20.0 * minRtt.extreme);
      minRtt.UpdateMaxTime(maxTime);
      unjitteredRtt.UpdateMaxTime(Smaller(maxTime, srtt * 0.5));
      isCopaMin.UpdateMaxTime(Smaller(maxTime, srtt * 4.0));
      isCopaMax.UpdateMaxTime(Smaller(maxTime, srtt * 4.0));
    }

    /** min_rtt <= is_copa_min <= unjittered_rtt <= latest_rtt <= is_copa_max */
    ghost predicate InSequence()
      reads Repr()
    {
      minRtt.extreme <= isCopaMin.extreme <= unjitteredRtt.extreme <= latestRtt <= isCopaMax.extreme
    }

    /** The windows keep nested sets of samples, so their extremes are ordered. */
    lemma WindowsInSequence()
      requires Valid() && Samples() != []
      ensures InSequence()
    {
      var h := Samples();
      assert AsGood(true, h[0].val, minRtt.initial);
      ReportIsExtreme(true, minRtt.initial, minRtt.vals, minRtt.extreme, minRtt.book);
      ReportIsExtreme(true, isCopaMin.initial, isCopaMin.vals, isCopaMin.extreme, isCopaMin.book);
      ReportIsExtreme(true, unjitteredRtt.initial, unjitteredRtt.vals, unjitteredRtt.extreme, unjitteredRtt.book);
      ReportIsExtreme(false, isCopaMax.initial, isCopaMax.vals, isCopaMax.extreme, isCopaMax.book);
      ShorterWindowIsLessExtreme(h, minRtt.book.start, isCopaMin.book.start, minRtt.extreme, isCopaMin.extreme);
      ShorterWindowIsLessExtreme(h, isCopaMin.book.start, unjitteredRtt.book.start, isCopaMin.extreme,
          unjitteredRtt.extreme);
      LastIsBounded(h, isCopaMax.book.start, isCopaMax.initial, isCopaMax.extreme);
    }

    /** After any run of positive samples, each window reports the extreme of those at or after
        its cutoff. */
    lemma WindowsReportRecent()
      requires Valid() && Samples() != [] && Positive(Samples())
      ensures srtt == Smoothed(Samples(), |Samples()|)
      ensures ReportRecent(minRtt.initial, Samples(), minRtt.extreme, unjitteredRtt.extreme, isCopaMin.extreme)
      ensures Samples()[0].val >= isCopaMax.initial ==>
                ExtremeSince(false, Samples(), ScaledCutoff(minRtt.initial, false, Samples(), |Samples()|),
                             isCopaMax.extreme)
    {
      assert AsGood(true, Samples()[0].val, minRtt.initial);
      unjitteredRtt.Reported();
      isCopaMin.Reported();
      if Samples()[0].val >= isCopaMax.initial {
        assert AsGood(false, Samples()[0].val, isCopaMax.initial);
        isCopaMax.Reported();
      }
    }

    /** is_copa */
    function IsCopa(): bool
      reads Repr()
    {
      isCopaMin.extreme < minRtt.extreme + 0.1 * (isCopaMax.extreme - minRtt.extreme)
    }
  }

  lemma LastIsBounded(hist: seq<Sample>, start: nat, initial: real, m: real)
    requires start < |hist|
    requires if Seen(false, initial, hist) then IsExtreme(false, hist, start, m) else m == initial
    ensures hist[|hist| - 1].val <= m
  {
  }
}
