/** Arithmetic on transmission time intervals (ngscope_util.cc): subframe counters
    that are only known modulo MAX_TTI. */
module Tti {
  import opened MachineInts

  const MAX_TTI: int := 10240

  function WrapTti(tti: uint16): (r: uint16)
    ensures r < MAX_TTI
    ensures tti < MAX_TTI ==> r == tti
  {
    tti % MAX_TTI
  }

  /** The residue of an unbounded subframe counter: what the air interface shows of it. */
  function Residue(counter: int): (r: uint16)
    ensures r < MAX_TTI
  {
    counter % MAX_TTI
  }

  // ---- unwrapping -------------------------------------------------------

  ghost predicate IsMax(s: seq<int>, m: int) {
    m in s && forall x :: x in s ==> x <= m
  }

  function MaxOf(s: seq<uint16>): (m: uint16)
    requires s != []
    ensures IsMax(s, m)
  {
    if |s| == 1 then s[0]
    else
      var m := MaxOf(s[1..]);
      assert s == [s[0]] + s[1..];
      if s[0] < m then m else s[0]
  }

  /** One element of the array after unwrapping against the maximum `m`; the
      addition is truncated to 16 bits as the store into the array does. */
  function UnwrapAgainst(m: uint16, x: uint16): uint16 {
    if Abs(m - x) > Abs(m - (x + MAX_TTI)) then (x + MAX_TTI) % TWO16 else x
  }

  function Unwrapped(s: seq<uint16>): (u: seq<uint16>)
    requires s != []
    ensures |u| == |s|
  {
    seq(|s|, i requires 0 <= i < |s| => UnwrapAgainst(MaxOf(s), s[i]))
  }

  method MaxInArray(a: array<uint16>) returns (m: uint16)
    requires a.Length > 0
    ensures m == MaxOf(a[..])
  {
    m := a[0];
    for i := 0 to a.Length
      invariant m in a[..]
      invariant forall j :: 0 <= j < i ==> a[j] <= m
    {
      if a[i] > m { m := a[i]; }
    }
    assert forall x :: x in a[..] ==> x <= m;
  }

  method UnwrapTtiArray(a: array<uint16>)
    requires a.Length > 0
    modifies a
    ensures a[..] == Unwrapped(old(a[..]))
  {
    if a.Length == 1 {
      assert a[..] == [a[0]];
      return;
    }
    var m := MaxInArray(a);
    for i := 0 to a.Length
      invariant forall j :: i <= j < a.Length ==> a[j] == old(a[j])
      invariant forall j :: 0 <= j < i ==> a[j] == UnwrapAgainst(m, old(a[j]))
    {
      if Abs(m - a[i]) > Abs(m - (a[i] + MAX_TTI)) {
        a[i] := (a[i] + MAX_TTI) % TWO16;
      }
    }
  }

  /** The counters behind an array of residues. */
  ghost predicate ResiduesOf(s: seq<uint16>, counters: seq<int>) {
    |s| == |counters| && forall i :: 0 <= i < |s| ==> s[i] == Residue(counters[i])
  }

  ghost predicate SpanAtMost(counters: seq<int>, d: nat) {
    forall i, j :: 0 <= i < |counters| && 0 <= j < |counters| ==> counters[i] - counters[j] <= d
  }

  /** Two residues of counters less than half the TTI space apart differ by the
      counters' difference, give or take one turn of the wheel. */
  lemma ResidueGap(a: int, b: int)
    requires 0 <= a - b < MAX_TTI
    ensures Residue(a) - Residue(b) == a - b || Residue(a) - Residue(b) == a - b - MAX_TTI
  {
  }

  /** For counters spanning less than half the TTI space, unwrapping their residues
      restores every difference, hence every order. */
  lemma UnwrapPreservesDifferences(s: seq<uint16>, counters: seq<int>, i: nat, j: nat)
    requires s != [] && ResiduesOf(s, counters) && SpanAtMost(counters, MAX_TTI / 2 - 1)
    requires i < |s| && j < |s|
    ensures (Unwrapped(s)[i] as int) - (Unwrapped(s)[j] as int) == counters[i] - counters[j]
  {
    var m := MaxOf(s);
    var k :| 0 <= k < |s| && s[k] == m;
    UnwrapOffset(s, counters, k, i);
    UnwrapOffset(s, counters, k, j);
  }

  /** Relative to the position `k` of the largest residue, every unwrapped value sits
      at its counter's own distance. */
  lemma UnwrapOffset(s: seq<uint16>, counters: seq<int>, k: nat, i: nat)
    requires s != [] && ResiduesOf(s, counters) && SpanAtMost(counters, MAX_TTI / 2 - 1)
    requires i < |s| && k < |s| && s[k] == MaxOf(s)
    ensures (Unwrapped(s)[i] as int) - (s[k] as int) == counters[i] - counters[k]
  {
    assert s[i] in s;
    UnwrapOne(counters[k], counters[i]);
  }

  lemma UnwrapOne(m: int, c: int)
    requires -(MAX_TTI / 2) < m - c < MAX_TTI / 2 && Residue(c) <= Residue(m)
    ensures UnwrapAgainst(Residue(m), Residue(c)) as int - Residue(m) as int == c - m
  {
  }

  /** max_tti_in_array: an array of one is returned as it is, an empty one gives 0. */
  method MaxTtiInArray(a: array<uint16>) returns (r: uint16)
    modifies a
    ensures a.Length == 0 ==> r == 0
    ensures a.Length == 1 ==> r == old(a[0])
    ensures a.Length > 1 ==> r == WrapTti(MaxOf(Unwrapped(old(a[..]))))
  {
    if a.Length == 1 {
      return a[0];
    } else if a.Length <= 0 {
      return 0;
    }
    UnwrapTtiArray(a);
    var m := MaxInArray(a);
    r := WrapTti(m);
  }

  lemma UnwrapKeepsResidue(m: uint16, x: uint16)
    requires x < MAX_TTI
    ensures WrapTti(UnwrapAgainst(m, x)) == x
  {
  }

  /** The largest unwrapped value sits where the latest counter does. */
  lemma LatestIsLargest(s: seq<uint16>, counters: seq<int>, l: nat)
    requires s != [] && ResiduesOf(s, counters) && SpanAtMost(counters, MAX_TTI / 2 - 1)
    requires l < |s| && IsMax(counters, counters[l])
    ensures MaxOf(Unwrapped(s)) == Unwrapped(s)[l]
  {
    var u := Unwrapped(s);
    forall i | 0 <= i < |u| ensures u[i] <= u[l] {
      assert counters[i] in counters;
      UnwrapPreservesDifferences(s, counters, l, i);
    }
    assert u[l] in u;
  }

  /** The value max_tti_in_array computes is the residue of the true latest counter. */
  lemma MaxTtiIsLatest(s: seq<uint16>, counters: seq<int>, latest: int)
    requires s != [] && ResiduesOf(s, counters) && SpanAtMost(counters, MAX_TTI / 2 - 1)
    requires IsMax(counters, latest)
    ensures WrapTti(MaxOf(Unwrapped(s))) == Residue(latest)
  {
    var l :| 0 <= l < |s| && counters[l] == latest;
    LatestIsLargest(s, counters, l);
    UnwrapKeepsResidue(MaxOf(s), s[l]);
  }

  // ---- pairwise comparison ------------------------------------------------

  /** What a comparison of two TTIs looks at: the difference of the unwrapped pair. */
  function UnwrappedGap(a: uint16, b: uint16): int {
    (Unwrapped([a, b])[0] as int) - (Unwrapped([a, b])[1] as int)
  }

  method UnwrapPair(a: uint16, b: uint16) returns (x: uint16, y: uint16)
    ensures x - y == UnwrappedGap(a, b)
  {
    var pair := new uint16[2];
    pair[0], pair[1] := a, b;
    assert pair[..] == [a, b];
    UnwrapTtiArray(pair);
    x, y := pair[0], pair[1];
    assert pair[..][0] == x && pair[..][1] == y;
  }

  /** The distance around the wheel: the representative of a - b modulo MAX_TTI of least
      magnitude. At exactly half a turn the raw residues decide. */
  function WheelGap(a: uint16, b: uint16): int {
    var d := (a as int - b as int) % MAX_TTI;
    if d < MAX_TTI / 2 then d
    else if d > MAX_TTI / 2 then d - MAX_TTI
    else a as int - b as int
  }

  /** Unwrapping two residues is the same as looking at their distance around the wheel. */
  lemma UnwrappedGapIsWheelGap(a: uint16, b: uint16)
    requires a < MAX_TTI && b < MAX_TTI
    ensures UnwrappedGap(a, b) == WheelGap(a, b)
  {
  }

  method TtiLarger(a: uint16, b: uint16) returns (r: bool)
    ensures r <==> UnwrappedGap(a, b) > 0
    ensures a < MAX_TTI && b < MAX_TTI ==> (r <==> WheelGap(a, b) > 0)
  {
    var x, y := UnwrapPair(a, b);
    r := x > y;
    if a < MAX_TTI && b < MAX_TTI { UnwrappedGapIsWheelGap(a, b); }
  }

  method TtiLargerOrEqual(a: uint16, b: uint16) returns (r: bool)
    ensures r <==> UnwrappedGap(a, b) >= 0
    ensures a < MAX_TTI && b < MAX_TTI ==> (r <==> WheelGap(a, b) >= 0)
  {
    var x, y := UnwrapPair(a, b);
    r := x >= y;
    if a < MAX_TTI && b < MAX_TTI { UnwrappedGapIsWheelGap(a, b); }
  }

  method TtiSmaller(a: uint16, b: uint16) returns (r: bool)
    ensures r <==> UnwrappedGap(a, b) < 0
    ensures a < MAX_TTI && b < MAX_TTI ==> (r <==> WheelGap(a, b) < 0)
  {
    var x, y := UnwrapPair(a, b);
    r := x < y;
    if a < MAX_TTI && b < MAX_TTI { UnwrappedGapIsWheelGap(a, b); }
  }

  method TtiSmallerOrEqual(a: uint16, b: uint16) returns (r: bool)
    ensures r <==> UnwrappedGap(a, b) <= 0
    ensures a < MAX_TTI && b < MAX_TTI ==> (r <==> WheelGap(a, b) <= 0)
  {
    var x, y := UnwrapPair(a, b);
    r := x <= y;
    if a < MAX_TTI && b < MAX_TTI { UnwrappedGapIsWheelGap(a, b); }
  }

  lemma DifferenceOfResidues(a: int, b: int)
    ensures (Residue(a) as int - Residue(b) as int) % MAX_TTI == (a - b) % MAX_TTI
  {
  }

  /** Two counters less than half the TTI space apart are compared as they should be. */
  lemma WheelGapOfNearCounters(a: int, b: int)
    requires -(MAX_TTI / 2) < a - b < MAX_TTI / 2
    ensures WheelGap(Residue(a), Residue(b)) == a - b
  {
  }

  /** Counters more than half and less than a whole turn apart are compared the wrong way
      round; half a turn apart, exactly when the wheel wrapped between them. */
  lemma WheelGapOfFarCounters(a: int, b: int)
    requires MAX_TTI / 2 <= a - b < MAX_TTI
    ensures WheelGap(Residue(a), Residue(b)) <= 0
            <==> a - b > MAX_TTI / 2 || Residue(a) < Residue(b)
  {
  }

  // ---- distance --------------------------------------------------------------

  /** Number of TTIs from `start` to `end`, both included. */
  function TtiDistance(start: uint16, end: uint16): int {
    if start < end then end - start + 1 else end + MAX_TTI - start + 1
  }

  /** The distance between two residues is the length of the counter interval they
      delimit, for every interval of 2 to MAX_TTI + 1 counters. A single counter is
      measured as a whole turn more. */
  lemma TtiDistanceOfCounters(first: int, last: int)
    requires first <= last <= first + MAX_TTI
    ensures TtiDistance(Residue(first), Residue(last))
            == if first == last then MAX_TTI + 1 else last - first + 1
  {
  }
}
