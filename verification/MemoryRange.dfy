/** Boxes of congestion-signal memory and their bisection (memory-default.hh,
    memory-default.cc, memoryrange.cc). */
module MemoryRange {
  import opened Wrappers

  const AXES: nat := 4

  /** The fields of a sender's memory that rules depend on. */
  datatype Memory = Memory(recSend: real, recRec: real, rttRatio: real, slowRecRec: real) {

    /** field */
    function Field(axis: nat): real {
      if axis == 0 then recSend else if axis == 1 then recRec else if axis == 2 then rttRatio else slowRecRec
    }

    /** Assignment through mutable_field. */
    function WithField(axis: nat, v: real): Memory {
      if axis == 0 then this.(recSend := v) else if axis == 1 then this.(recRec := v)
      else if axis == 2 then this.(rttRatio := v) else this.(slowRecRec := v)
    }

    /** operator>= */
    predicate AtLeast(other: Memory) {
      && recSend >= other.recSend && recRec >= other.recRec
      && rttRatio >= other.rttRatio && slowRecRec >= other.slowRecRec
    }

    /** operator< */
    predicate Below(other: Memory) {
      && recSend < other.recSend && recRec < other.recRec
      && rttRatio < other.rttRatio && slowRecRec < other.slowRecRec
    }

    /** operator==, which compares axis 1 with itself. */
    predicate Same(other: Memory) {
      recSend == other.recSend && recRec == recRec && rttRatio == other.rttRatio && slowRecRec == other.slowRecRec
    }
  }

  const MaxMemory: Memory := Memory(163840.0, 163840.0, 163840.0, 163840.0)

  datatype MemoryRange = MemoryRange(lower: Memory, upper: Memory, count: nat) {

    /** contains */
    predicate Contains(q: Memory) {
      q.AtLeast(lower) && q.Below(upper)
    }

    /** operator== */
    predicate Same(other: MemoryRange) {
      lower.Same(other.lower) && upper.Same(other.upper)
    }

    predicate NonEmpty() {
      lower.Below(upper)
    }

    predicate SameBox(other: MemoryRange) {
      lower == other.lower && upper == other.upper
    }
  }

  /** range_median: the midpoint of every axis. */
  method RangeMedian(x: MemoryRange) returns (r: Memory)
    ensures r == Center(x)
  {
    r := x.lower;
    var i := 0;
    while i < AXES
      invariant 0 <= i <= AXES
      invariant forall j :: 0 <= j < i ==> r.Field(j) == (x.lower.Field(j) + x.upper.Field(j)) / 2.0
      invariant forall j :: i <= j < AXES ==> r.Field(j) == x.lower.Field(j)
    {
      r := r.WithField(i, (x.lower.Field(i) + x.upper.Field(i)) / 2.0);
      i := i + 1;
    }
    assert r.Field(0) == Center(x).recSend && r.Field(1) == Center(x).recRec;
    assert r.Field(2) == Center(x).rttRatio && r.Field(3) == Center(x).slowRecRec;
  }

  function Center(x: MemoryRange): (r: Memory)
    ensures x.NonEmpty() ==> x.Contains(r)
    ensures x.Contains(r) ==> x.NonEmpty()
  {
    Memory((x.lower.recSend + x.upper.recSend) / 2.0, (x.lower.recRec + x.upper.recRec) / 2.0,
           (x.lower.rttRatio + x.upper.rttRatio) / 2.0, (x.lower.slowRecRec + x.upper.slowRecRec) / 2.0)
  }

  // ---- bisection -----------------------------------------------------------------

  /** One box divided on one axis, or None if an assertion of bisect fails. */
  function Doubled(x: MemoryRange, axis: nat, medians: Memory): Option<seq<MemoryRange>> {
    var at := if x.lower.Same(x.upper.WithField(axis, medians.Field(axis)))
              then (x.lower.Field(axis) + x.upper.Field(axis)) / 2.0 else medians.Field(axis);
    var l, u := x.lower.WithField(axis, at), x.upper.WithField(axis, at);
    if !x.lower.Same(u) then Some([MemoryRange(x.lower, u, 0), MemoryRange(l, x.upper, 0)])
    else if l.Same(x.upper) || !x.lower.Same(l) then None
    else Some([x])
  }

  function DoubledAll(xs: seq<MemoryRange>, axis: nat, medians: Memory): Option<seq<MemoryRange>> {
    if xs == [] then Some([])
    else match DoubledAll(xs[..|xs| - 1], axis, medians)
      case None => None
      case Some(before) => match Doubled(xs[|xs| - 1], axis, medians)
        case None => None
        case Some(last) => Some(before + last)
  }

  function Bisected(xs: seq<MemoryRange>, axis: nat, medians: Memory): Option<seq<MemoryRange>>
    requires axis <= AXES
    decreases AXES - axis
  {
    if axis == AXES then Some(xs)
    else match DoubledAll(xs, axis, medians)
      case None => None
      case Some(ys) => Bisected(ys, axis + 1, medians)
  }

  /** bisect: None stands for a failed assertion. */
  method Bisect(x: MemoryRange, medians: Memory) returns (r: Option<seq<MemoryRange>>)
    ensures r == Bisected([x], 0, medians)
  {
    var ret := [x];
    var i := 0;
    while i < AXES
      invariant 0 <= i <= AXES
      invariant Bisected(ret, i, medians) == Bisected([x], 0, medians)
    {
      var doubled := [];
      var k := 0;
      while k < |ret|
        invariant 0 <= k <= |ret|
        invariant DoubledAll(ret[..k], i, medians) == Some(doubled)
      {
        assert ret[..k + 1][..k] == ret[..k];
        var pieces := BisectAxis(ret[k], i, medians);
        if pieces == None {
          BlockedPrefix(ret, k + 1, i, medians);
          return None;
        }
        doubled := doubled + pieces.value;
        k := k + 1;
      }
      assert ret[..k] == ret;
      ret := doubled;
      i := i + 1;
    }
    return Some(ret);
  }

  /** The body of the inner loop of bisect. */
  method BisectAxis(x: MemoryRange, axis: nat, medians: Memory) returns (r: Option<seq<MemoryRange>>)
    ensures r == Doubled(x, axis, medians)
  {
    var ersatzLower := x.lower.WithField(axis, medians.Field(axis));
    var ersatzUpper := x.upper.WithField(axis, medians.Field(axis));
    if x.lower.Same(ersatzUpper) {
      var mid := (x.lower.Field(axis) + x.upper.Field(axis)) / 2.0;
      ersatzLower := x.lower.WithField(axis, mid);
      ersatzUpper := x.upper.WithField(axis, mid);
    }
    if x.lower.Same(ersatzUpper) {
      if ersatzLower.Same(x.upper) || !x.lower.Same(ersatzLower) { return None; }
      return Some([x]);
    }
    return Some([MemoryRange(x.lower, ersatzUpper, 0), MemoryRange(ersatzLower, x.upper, 0)]);
  }

  lemma {:induction false} BlockedPrefix(xs: seq<MemoryRange>, k: nat, axis: nat, medians: Memory)
    requires k <= |xs| && DoubledAll(xs[..k], axis, medians) == None
    ensures DoubledAll(xs, axis, medians) == None
    decreases |xs|
  {
    if k < |xs| {
      assert xs[..|xs| - 1][..k] == xs[..k];
      BlockedPrefix(xs[..|xs| - 1], k, axis, medians);
    } else {
      assert xs[..k] == xs;
    }
  }

  // ---- how many pieces hold a point ---------------------------------------------------

  predicate InAxis(x: MemoryRange, q: Memory, axis: nat) {
    x.lower.Field(axis) <= q.Field(axis) < x.upper.Field(axis)
  }

  /** q is between the bounds of x on the first n axes. */
  predicate InAxes(x: MemoryRange, q: Memory, n: nat)
    requires n <= AXES
  {
    && (n > 0 ==> InAxis(x, q, 0)) && (n > 1 ==> InAxis(x, q, 1))
    && (n > 2 ==> InAxis(x, q, 2)) && (n > 3 ==> InAxis(x, q, 3))
  }

  /** How many boxes hold q, looking at the first n axes only. */
  ghost function HoldersOn(xs: seq<MemoryRange>, q: Memory, n: nat): nat
    requires n <= AXES
  {
    if xs == [] then 0
    else HoldersOn(xs[..|xs| - 1], q, n) + if InAxes(xs[|xs| - 1], q, n) then 1 else 0
  }

  /** How many boxes hold q. */
  ghost function Holders(xs: seq<MemoryRange>, q: Memory): nat {
    if xs == [] then 0 else Holders(xs[..|xs| - 1], q) + if xs[|xs| - 1].Contains(q) then 1 else 0
  }

  lemma {:induction false} HoldersIsOnAll(xs: seq<MemoryRange>, q: Memory)
    ensures Holders(xs, q) == HoldersOn(xs, q, AXES)
    decreases |xs|
  {
    if xs != [] { HoldersIsOnAll(xs[..|xs| - 1], q); }
  }

  lemma {:induction false} HoldersOnAppend(xs: seq<MemoryRange>, ys: seq<MemoryRange>, q: Memory, n: nat)
    requires n <= AXES
    ensures HoldersOn(xs + ys, q, n) == HoldersOn(xs, q, n) + HoldersOn(ys, q, n)
    decreases |ys|
  {
    if ys == [] {
      assert xs + ys == xs;
    } else {
      assert (xs + ys)[..|xs + ys| - 1] == xs + ys[..|ys| - 1];
      HoldersOnAppend(xs, ys[..|ys| - 1], q, n);
    }
  }

  /** Of the two halves of [l, u) cut at m, how many hold v. */
  function AxisHolders(l: real, m: real, u: real, v: real): nat {
    (if l <= v < m then 1 else 0) + (if m <= v < u then 1 else 0)
  }

  function CutOn(box: MemoryRange, medians: Memory, q: Memory, axis: nat): nat {
    AxisHolders(box.lower.Field(axis), medians.Field(axis), box.upper.Field(axis), q.Field(axis))
  }

  /** From `axis` on, all boxes still have the bounds of the original box. */
  ghost predicate UncutFrom(xs: seq<MemoryRange>, box: MemoryRange, axis: nat) {
    forall k, j :: 0 <= k < |xs| && axis <= j < AXES ==> Uncut(xs[k], box, j)
  }

  predicate Uncut(x: MemoryRange, box: MemoryRange, axis: nat) {
    x.lower.Field(axis) == box.lower.Field(axis) && x.upper.Field(axis) == box.upper.Field(axis)
  }

  lemma DoublingOne(x: MemoryRange, box: MemoryRange, axis: nat, medians: Memory)
    requires axis < AXES && box.NonEmpty() && forall j :: axis <= j < AXES ==> Uncut(x, box, j)
    ensures var ys := Doubled(x, axis, medians);
            && ys.Some? && |ys.value| == 2 && UncutFrom(ys.value, box, axis + 1)
            && forall q: Memory ::
                 HoldersOn(ys.value, q, axis + 1)
                 == if InAxes(x, q, axis) then CutOn(box, medians, q, axis) else 0
  {
    assert Uncut(x, box, axis) && Uncut(x, box, 3);
    var ys := Doubled(x, axis, medians).value;
    forall k, j | 0 <= k < |ys| && axis + 1 <= j < AXES ensures Uncut(ys[k], box, j) {
      assert Uncut(x, box, j);
    }
    forall q: Memory
      ensures HoldersOn(ys, q, axis + 1)
              == if InAxes(x, q, axis) then CutOn(box, medians, q, axis) else 0
    {
      HoldersOfTwo(ys[0], ys[1], q, axis + 1);
      assert ys == [ys[0], ys[1]];
      assert InAxes(ys[0], q, axis + 1) <==> InAxes(x, q, axis) && InAxis(ys[0], q, axis);
      assert InAxes(ys[1], q, axis + 1) <==> InAxes(x, q, axis) && InAxis(ys[1], q, axis);
    }
  }

  lemma HoldersOfTwo(x: MemoryRange, y: MemoryRange, q: Memory, n: nat)
    requires n <= AXES
    ensures HoldersOn([x, y], q, n) == (if InAxes(x, q, n) then 1 else 0) + if InAxes(y, q, n) then 1 else 0
  {
    assert [x, y][..1] == [x] && [x][..0] == [];
    assert HoldersOn([x, y], q, n) == HoldersOn([x], q, n) + if InAxes(y, q, n) then 1 else 0;
    assert HoldersOn([x], q, n) == HoldersOn([], q, n) + if InAxes(x, q, n) then 1 else 0;
  }

  lemma {:induction false} DoublingAll(xs: seq<MemoryRange>, box: MemoryRange, axis: nat, medians: Memory)
    requires axis < AXES && box.NonEmpty() && UncutFrom(xs, box, axis)
    ensures var ys := DoubledAll(xs, axis, medians);
            && ys.Some? && |ys.value| == 2 * |xs| && UncutFrom(ys.value, box, axis + 1)
            && forall q: Memory ::
                 HoldersOn(ys.value, q, axis + 1) == HoldersOn(xs, q, axis) * CutOn(box, medians, q, axis)
    decreases |xs|
  {
    if xs != [] {
      var n := |xs| - 1;
      DoublingAll(xs[..n], box, axis, medians);
      DoublingOne(xs[n], box, axis, medians);
      var before, last := DoubledAll(xs[..n], axis, medians).value, Doubled(xs[n], axis, medians).value;
      forall q: Memory
        ensures HoldersOn(before + last, q, axis + 1) == HoldersOn(xs, q, axis) * CutOn(box, medians, q, axis)
      {
        HoldersOnAppend(before, last, q, axis + 1);
        OneMore(HoldersOn(xs[..n], q, axis), if InAxes(xs[n], q, axis) then 1 else 0, CutOn(box, medians, q, axis));
      }
    }
  }

  lemma OneMore(n: nat, d: nat, c: nat)
    requires d <= 1
    ensures (n + d) * c == n * c + if d == 1 then c else 0
  {
  }

  /** The number of pieces with q, if each axis were cut on its own. */
  ghost function CutHolders(box: MemoryRange, medians: Memory, q: Memory, n: nat): nat {
    if n == 0 then 1 else CutHolders(box, medians, q, n - 1) * CutOn(box, medians, q, n - 1)
  }

  ghost function Pieces(axis: nat): nat {
    if axis == 0 then 1 else 2 * Pieces(axis - 1)
  }

  lemma {:induction false} BisectedHolders(xs: seq<MemoryRange>, box: MemoryRange, axis: nat, medians: Memory)
    requires axis <= AXES && box.NonEmpty() && UncutFrom(xs, box, axis) && |xs| == Pieces(axis)
    requires forall q: Memory :: HoldersOn(xs, q, axis) == CutHolders(box, medians, q, axis)
    ensures var ys := Bisected(xs, axis, medians);
            && ys.Some? && |ys.value| == Pieces(AXES)
            && forall q: Memory :: Holders(ys.value, q) == CutHolders(box, medians, q, AXES)
    decreases AXES - axis
  {
    if axis == AXES {
      forall q: Memory ensures Holders(xs, q) == CutHolders(box, medians, q, AXES) { HoldersIsOnAll(xs, q); }
    } else {
      DoublingAll(xs, box, axis, medians);
      BisectedHolders(DoubledAll(xs, axis, medians).value, box, axis + 1, medians);
    }
  }

  /** Bisecting a non-empty box never fails, gives 16 pieces, and a point is held by as many of
      them as the product over the axes of the halves that hold its coordinate, whatever the
      medians and although boxes are compared without axis 1. */
  lemma BisectHolds(x: MemoryRange, medians: Memory)
    requires x.NonEmpty()
    ensures var ys := Bisected([x], 0, medians);
            && ys.Some? && |ys.value| == 16
            && forall q: Memory :: Holders(ys.value, q) == CutOn(x, medians, q, 0) * CutOn(x, medians, q, 1)
                                                          * CutOn(x, medians, q, 2) * CutOn(x, medians, q, 3)
  {
    forall q: Memory ensures HoldersOn([x], q, 0) == CutHolders(x, medians, q, 0) {
      assert [x][..0] == [];
    }
    BisectedHolders([x], x, 0, medians);
    assert Pieces(1) == 2;
    assert Pieces(2) == 4;
    assert Pieces(3) == 8;
    assert AXES == 4 && Pieces(4) == 16;
    forall q: Memory
      ensures CutHolders(x, medians, q, AXES)
              == CutOn(x, medians, q, 0) * CutOn(x, medians, q, 1) * CutOn(x, medians, q, 2) * CutOn(x, medians, q, 3)
    {
      assert CutHolders(x, medians, q, 1) == CutOn(x, medians, q, 0);
      assert CutHolders(x, medians, q, 2) == CutOn(x, medians, q, 0) * CutOn(x, medians, q, 1);
    }
  }

  /** Every point is in exactly as many boxes as it is in `x`: once or not at all. */
  ghost predicate Partitions(x: MemoryRange, xs: seq<MemoryRange>) {
    forall q: Memory :: Holders(xs, q) == if x.Contains(q) then 1 else 0
  }

  /** Whatever the medians, the pieces cover the box and do not overlap inside it. */
  lemma BisectCoversInside(x: MemoryRange, medians: Memory, q: Memory)
    requires x.NonEmpty() && x.Contains(q)
    ensures Bisected([x], 0, medians).Some? && Holders(Bisected([x], 0, medians).value, q) == 1
  {
    BisectHolds(x, medians);
    assert InAxis(x, q, 0) && InAxis(x, q, 1) && InAxis(x, q, 2) && InAxis(x, q, 3);
    assert CutOn(x, medians, q, 0) == CutOn(x, medians, q, 1) == 1;
    assert CutOn(x, medians, q, 2) == CutOn(x, medians, q, 3) == 1;
  }

  ghost predicate MedianInside(x: MemoryRange, medians: Memory, axis: nat) {
    x.lower.Field(axis) <= medians.Field(axis) <= x.upper.Field(axis)
  }

  ghost predicate MediansInside(x: MemoryRange, medians: Memory) {
    && MedianInside(x, medians, 0) && MedianInside(x, medians, 1)
    && MedianInside(x, medians, 2) && MedianInside(x, medians, 3)
  }

  /** The pieces partition the box exactly when every median lies within its bounds. */
  lemma BisectPartitions(x: MemoryRange, medians: Memory)
    requires x.NonEmpty()
    ensures Bisected([x], 0, medians).Some?
    ensures Partitions(x, Bisected([x], 0, medians).value) <==> MediansInside(x, medians)
  {
    BisectHolds(x, medians);
    var ys := Bisected([x], 0, medians).value;
    if MediansInside(x, medians) {
      forall q: Memory ensures Holders(ys, q) == if x.Contains(q) then 1 else 0 {
        InsideMedianSplits(x, medians, q, 0);
        InsideMedianSplits(x, medians, q, 1);
        InsideMedianSplits(x, medians, q, 2);
        InsideMedianSplits(x, medians, q, 3);
      }
    } else {
      var q := Memory(Stray(x, medians, 0), Stray(x, medians, 1), Stray(x, medians, 2), Stray(x, medians, 3));
      StrayIsHeld(x, medians, q, 0);
      StrayIsHeld(x, medians, q, 1);
      StrayIsHeld(x, medians, q, 2);
      StrayIsHeld(x, medians, q, 3);
      assert Holders(ys, q) == 1 && !x.Contains(q);
    }
  }

  lemma InsideMedianSplits(x: MemoryRange, medians: Memory, q: Memory, axis: nat)
    requires MedianInside(x, medians, axis)
    ensures CutOn(x, medians, q, axis) == if InAxis(x, q, axis) then 1 else 0
  {
  }

  /** A coordinate in one of the halves, outside the box if the median is. */
  ghost function Stray(x: MemoryRange, medians: Memory, axis: nat): real {
    if medians.Field(axis) < x.upper.Field(axis) then medians.Field(axis)
    else if medians.Field(axis) == x.upper.Field(axis) then x.lower.Field(axis) else x.upper.Field(axis)
  }

  lemma StrayIsHeld(x: MemoryRange, medians: Memory, q: Memory, axis: nat)
    requires axis < AXES && x.NonEmpty() && q.Field(axis) == Stray(x, medians, axis)
    ensures CutOn(x, medians, q, axis) == 1
    ensures InAxis(x, q, axis) <==> MedianInside(x, medians, axis)
  {
  }

  // ---- saved form ---------------------------------------------------------------------

  /** The protobuf message of a Memory: every field is optional. */
  datatype MemoryDna = MemoryDna(recSend: Option<real>, recRec: Option<real>, rttRatio: Option<real>,
      slowRecRec: Option<real>) {
    function Field(axis: nat): Option<real> {
      if axis == 0 then recSend else if axis == 1 then recRec else if axis == 2 then rttRatio else slowRecRec
    }
  }

  datatype RangeDna = RangeDna(lower: Option<MemoryDna>, upper: Option<MemoryDna>)

  const EmptyMemoryDna: MemoryDna := MemoryDna(None, None, None, None)

  /** get_val_or_default */
  function Limit(v: Option<real>, isLower: bool): real {
    if v.Some? then v.value else if isLower then 0.0 else 163840.0
  }

  function MemoryToDna(m: Memory): MemoryDna {
    MemoryDna(Some(m.recSend), Some(m.recRec), Some(m.rttRatio), Some(m.slowRecRec))
  }

  function MemoryFromDna(isLower: bool, d: MemoryDna): Memory {
    Memory(Limit(d.recSend, isLower), Limit(d.recRec, isLower), Limit(d.rttRatio, isLower),
        Limit(d.slowRecRec, isLower))
  }

  function RangeToDna(x: MemoryRange): RangeDna {
    RangeDna(Some(MemoryToDna(x.lower)), Some(MemoryToDna(x.upper)))
  }

  /** An absent sub-message reads as one without fields. */
  function RangeFromDna(d: RangeDna): MemoryRange {
    MemoryRange(MemoryFromDna(true, d.lower.UnwrapOr(EmptyMemoryDna)),
        MemoryFromDna(false, d.upper.UnwrapOr(EmptyMemoryDna)), 0)
  }

  /** Saving a box writes all its bounds, each under its own name. */
  lemma RangeSavesAs(x: MemoryRange)
    ensures var d := RangeToDna(x);
            && d.lower.Some? && d.lower.value.recSend == Some(x.lower.recSend)
            && d.lower.value.recRec == Some(x.lower.recRec) && d.lower.value.rttRatio == Some(x.lower.rttRatio)
            && d.lower.value.slowRecRec == Some(x.lower.slowRecRec)
            && d.upper.Some? && d.upper.value.recSend == Some(x.upper.recSend)
            && d.upper.value.recRec == Some(x.upper.recRec) && d.upper.value.rttRatio == Some(x.upper.rttRatio)
            && d.upper.value.slowRecRec == Some(x.upper.slowRecRec)
  {
  }

  lemma RangeRoundTrip(x: MemoryRange)
    ensures RangeFromDna(RangeToDna(x)) == x.(count := 0)
  {
  }

  /** A field absent from both bounds leaves its axis unconstrained over the whole domain. */
  lemma AbsentFieldsAreWildcards(d: RangeDna, axis: nat, q: Memory, v: real)
    requires axis < AXES && 0.0 <= q.Field(axis) < 163840.0 && 0.0 <= v < 163840.0
    requires d.lower.UnwrapOr(EmptyMemoryDna).Field(axis) == None
             && d.upper.UnwrapOr(EmptyMemoryDna).Field(axis) == None
    ensures RangeFromDna(d).Contains(q) <==> RangeFromDna(d).Contains(q.WithField(axis, v))
  {
  }
}
