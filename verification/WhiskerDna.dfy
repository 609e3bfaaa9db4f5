/** The saved form of a rule table (dna.proto, the DNA pairs of whisker.cc and whiskertree.cc). */
module WhiskerDna {
  import opened Wrappers
  import opened MemoryRange
  import opened WhiskerTree

  datatype WhiskerDna = WhiskerDna(windowIncrement: Option<int>, windowMultiple: Option<real>,
      intersend: Option<real>, domain: Option<RangeDna>)

  datatype TreeDna = TreeDna(domain: Option<RangeDna>, children: seq<TreeDna>, leaf: Option<WhiskerDna>)

  const EmptyRangeDna: RangeDna := RangeDna(None, None)

  function WhiskerToDna(w: Whisker): WhiskerDna {
    WhiskerDna(Some(w.windowIncrement), Some(w.windowMultiple), Some(w.intersend), Some(RangeToDna(w.domain)))
  }

  function WhiskerFromDna(d: WhiskerDna): Whisker {
    Whisker(0, d.windowIncrement.UnwrapOr(0), d.windowMultiple.UnwrapOr(0.0), d.intersend.UnwrapOr(0.0),
            RangeFromDna(d.domain.UnwrapOr(EmptyRangeDna)))
  }

  function ToDna(t: Tree): TreeDna
    decreases t
  {
    match t
    case Leaf(domain, rule) => TreeDna(Some(RangeToDna(domain)), [], Some(WhiskerToDna(rule)))
    case Node(domain, children) => TreeDna(Some(RangeToDna(domain)), AllToDna(children), None)
  }

  function AllToDna(ts: seq<Tree>): (ds: seq<TreeDna>)
    ensures |ds| == |ts|
    decreases ts
  {
    if ts == [] then [] else AllToDna(ts[..|ts| - 1]) + [ToDna(ts[|ts| - 1])]
  }

  /** The constructor from a saved tree, or None if one of its assertions fails. */
  function FromDna(d: TreeDna): Option<Tree>
    decreases d
  {
    var domain := RangeFromDna(d.domain.UnwrapOr(EmptyRangeDna));
    if d.leaf.Some? then
      if d.children == [] then Some(Leaf(domain, WhiskerFromDna(d.leaf.value))) else None
    else if d.children == [] then None
    else match AllFromDna(d.children)
      case None => None
      case Some(ts) => Some(Node(domain, ts))
  }

  function AllFromDna(ds: seq<TreeDna>): Option<seq<Tree>>
    decreases ds
  {
    if ds == [] then Some([])
    else match AllFromDna(ds[..|ds| - 1])
      case None => None
      case Some(ts) => match FromDna(ds[|ds| - 1])
        case None => None
        case Some(t) => Some(ts + [t])
  }

  // ---- what messages mean ----------------------------------------------------------------

  ghost function Read<T>(field: Option<T>, default: T): T {
    match field case Some(v) => v case None => default
  }

  /** What a saved rule reads as, field by field: an absent action is 0, an absent bound is the
      edge of the domain, and neither generation nor use count is saved. */
  lemma RuleReadsAs(d: WhiskerDna, lower: MemoryDna, upper: MemoryDna)
    requires d.domain == Some(RangeDna(Some(lower), Some(upper)))
    ensures var w, r := WhiskerFromDna(d), WhiskerFromDna(d).domain;
            && w.windowIncrement == Read(d.windowIncrement, 0) && w.generation == 0 && r.count == 0
            && w.windowMultiple == Read(d.windowMultiple, 0.0) && w.intersend == Read(d.intersend, 0.0)
            && r.lower.recSend == Read(lower.recSend, 0.0) && r.upper.recSend == Read(upper.recSend, 163840.0)
            && r.lower.recRec == Read(lower.recRec, 0.0) && r.upper.recRec == Read(upper.recRec, 163840.0)
            && r.lower.rttRatio == Read(lower.rttRatio, 0.0) && r.upper.rttRatio == Read(upper.rttRatio, 163840.0)
            && r.lower.slowRecRec == Read(lower.slowRecRec, 0.0)
            && r.upper.slowRecRec == Read(upper.slowRecRec, 163840.0)
  {
  }

  /** A rule saved without a box holds in the whole domain. */
  lemma AbsentBoxIsDomain(d: WhiskerDna)
    requires d.domain == None || d.domain == Some(RangeDna(None, None))
    ensures WhiskerFromDna(d).domain
            == MemoryRange(Memory(0.0, 0.0, 0.0, 0.0), Memory(163840.0, 163840.0, 163840.0, 163840.0), 0)
  {
  }

  /** What saving writes: a leaf its rule and no children, any other node its children in order and
      no rule; of a rule its actions and its box. */
  lemma SavesAs(t: Tree)
    ensures ToDna(t).domain == Some(RangeToDna(t.domain))
    ensures t.Leaf? ==> ToDna(t).children == [] && ToDna(t).leaf.Some?
    ensures t.Leaf? ==>
              var w := ToDna(t).leaf.value;
              && w.windowIncrement == Some(t.rule.windowIncrement) && w.windowMultiple == Some(t.rule.windowMultiple)
              && w.intersend == Some(t.rule.intersend) && w.domain == Some(RangeToDna(t.rule.domain))
    ensures t.Node? ==> ToDna(t).leaf == None && |ToDna(t).children| == |t.children|
    ensures t.Node? ==> forall i :: 0 <= i < |t.children| ==> ToDna(t).children[i] == ToDna(t.children[i])
  {
    if t.Node? { SavesInOrder(t.children); }
  }

  lemma {:induction false} SavesInOrder(ts: seq<Tree>)
    ensures forall i :: 0 <= i < |ts| ==> AllToDna(ts)[i] == ToDna(ts[i])
    decreases |ts|
  {
    if ts != [] { SavesInOrder(ts[..|ts| - 1]); }
  }

  /** What a saved tree reads as: a rule without children is a leaf, children without a rule are a node
      if each of them can be read, in their order, and anything else is refused. */
  lemma TreeReadsAs(d: TreeDna)
    ensures var domain := RangeFromDna(d.domain.UnwrapOr(EmptyRangeDna));
            if d.leaf.Some? && d.children == [] then FromDna(d) == Some(Leaf(domain, WhiskerFromDna(d.leaf.value)))
            else if d.leaf == None && d.children != []
                    && forall i :: 0 <= i < |d.children| ==> FromDna(d.children[i]).Some? then
              && FromDna(d).Some? && FromDna(d).value.Node? && FromDna(d).value.domain == domain
              && |FromDna(d).value.children| == |d.children|
              && forall i :: 0 <= i < |d.children| ==> FromDna(d.children[i]) == Some(FromDna(d).value.children[i])
            else FromDna(d) == None
  {
    ReadsInOrder(d.children);
  }

  lemma {:induction false} ReadsInOrder(ds: seq<TreeDna>)
    ensures AllFromDna(ds).Some? <==> forall i :: 0 <= i < |ds| ==> FromDna(ds[i]).Some?
    ensures AllFromDna(ds).Some? ==> |AllFromDna(ds).value| == |ds|
    ensures AllFromDna(ds).Some? ==> forall i :: 0 <= i < |ds| ==> FromDna(ds[i]) == Some(AllFromDna(ds).value[i])
    decreases |ds|
  {
    if ds != [] {
      var n := |ds| - 1;
      ReadsInOrder(ds[..n]);
      assert forall i :: 0 <= i < n ==> ds[..n][i] == ds[i];
    }
  }

  // ---- round trips -------------------------------------------------------------------

  /** What the saved form leaves out: use counts and generations. */
  ghost function ErasedRule(w: Whisker): Whisker {
    w.(generation := 0, domain := w.domain.(count := 0))
  }

  ghost function Erased(t: Tree): Tree {
    match t
    case Leaf(domain, rule) => Leaf(domain.(count := 0), ErasedRule(rule))
    case Node(domain, children) =>
      Node(domain.(count := 0), seq(|children|, i requires 0 <= i < |children| => Erased(children[i])))
  }

  /** Every node has children. */
  ghost predicate Complete(t: Tree) {
    t.Node? ==> t.children != [] && forall i :: 0 <= i < |t.children| ==> Complete(t.children[i])
  }

  /** Saving a tree and reading it back gives the same shape, boxes and actions; reading back
      fails exactly for a tree with a childless node. */
  lemma {:induction false} RoundTrip(t: Tree)
    ensures FromDna(ToDna(t)) == if Complete(t) then Some(Erased(t)) else None
    decreases t
  {
    match t
    case Leaf(_, _) =>
    case Node(_, children) =>
      RoundTripAll(children);
      if children != [] && AllComplete(children) {
        assert AllErased(children) == Erased(t).children;
      }
  }

  ghost predicate AllComplete(ts: seq<Tree>) {
    forall i :: 0 <= i < |ts| ==> Complete(ts[i])
  }

  ghost function AllErased(ts: seq<Tree>): seq<Tree> {
    seq(|ts|, i requires 0 <= i < |ts| => Erased(ts[i]))
  }

  lemma {:induction false} RoundTripAll(ts: seq<Tree>)
    ensures AllFromDna(AllToDna(ts)) == if AllComplete(ts) then Some(AllErased(ts)) else None
    decreases ts
  {
    if ts != [] {
      var n := |ts| - 1;
      RoundTripAll(ts[..n]);
      RoundTrip(ts[n]);
      assert AllToDna(ts)[..n] == AllToDna(ts[..n]);
      OneMoreErased(ts, n);
    } else {
      assert AllErased(ts) == [];
    }
  }

  lemma OneMoreErased(ts: seq<Tree>, n: nat)
    requires n + 1 == |ts|
    ensures AllErased(ts) == AllErased(ts[..n]) + [Erased(ts[n])]
    ensures AllComplete(ts) <==> AllComplete(ts[..n]) && Complete(ts[n])
  {
    assert forall i :: 0 <= i < n ==> ts[..n][i] == ts[i];
  }

  ghost function ErasedAnswer(f: Found): Found {
    if f.Rule? then Rule(ErasedRule(f.rule)) else f
  }

  /** The reread tree answers every lookup with the same box and actions. */
  lemma {:induction false} ErasedLookup(t: Tree, q: Memory)
    ensures Lookup(Erased(t), q) == ErasedAnswer(Lookup(t, q))
    decreases t
  {
    if t.Node? {
      assert Erased(t).children == AllErased(t.children);
      ErasedLookupIn(t.children, q);
    }
  }

  lemma {:induction false} ErasedLookupIn(ts: seq<Tree>, q: Memory)
    ensures LookupIn(AllErased(ts), q) == ErasedAnswer(LookupIn(ts, q))
    decreases ts
  {
    if ts != [] {
      ErasedLookup(ts[0], q);
      ErasedLookupIn(ts[1..], q);
      assert AllErased(ts)[1..] == AllErased(ts[1..]);
    }
  }

  lemma {:induction false} ErasedIsWellFormed(t: Tree)
    requires WellFormed(t)
    ensures WellFormed(Erased(t)) && Complete(t)
    decreases t
  {
    if t.Node? {
      var us := Erased(t).children;
      forall i | 0 <= i < |us|
        ensures WellFormed(us[i]) && Complete(t.children[i]) && us[i].domain.SameBox(t.children[i].domain)
      {
        ErasedIsWellFormed(t.children[i]);
      }
      forall q: Memory ensures Holders(Boxes(us), q) == if t.domain.Contains(q) then 1 else 0 {
        SameBoxesHold(Boxes(us), Boxes(t.children), q);
      }
    }
  }

  /** A well-formed tree can always be read back, and looks up the same rules. */
  lemma SavedTreeWorks(t: Tree, q: Memory)
    requires WellFormed(t)
    ensures var r := FromDna(ToDna(t));
            r.Some? && WellFormed(r.value) && Lookup(r.value, q) == ErasedAnswer(Lookup(t, q))
  {
    ErasedIsWellFormed(t);
    RoundTrip(t);
    ErasedLookup(t, q);
  }
}
