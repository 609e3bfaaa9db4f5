/** The tree of rules as it is kept and edited in place (whiskertree.cc). */
module RuleTree {
  import opened Wrappers
  import opened MemoryRange
  import opened WhiskerTree
  import opened WhiskerDna

  /** What replace returns: false, true, or nothing because an assertion failed. */
  datatype Outcome = False | True | Aborted

  class RuleTree {
    var domain: MemoryRange
    var children: seq<RuleTree>
    var leaf: seq<Whisker>

    ghost var Repr: set<RuleTree>
    /** The value of the tree. */
    ghost var tree: Tree

    ghost predicate Valid()
      reads this, Repr
      decreases Repr
    {
      && this in Repr
      && (forall i :: 0 <= i < |children| ==>
            children[i] in Repr && children[i].Repr <= Repr - {this} && children[i].Valid())
      && (forall i, j :: 0 <= i < j < |children| ==> children[i].Repr !! children[j].Repr)
      && Matches(domain, children, leaf, tree)
    }

    /** WhiskerTree(whisker, false) */
    constructor (w: Whisker)
      ensures Valid() && fresh(Repr) && tree == Planted(w)
    {
      domain, children, leaf := w.domain, [], [w];
      Repr, tree := {this}, Planted(w);
    }

    constructor Assign(domain: MemoryRange, children: seq<RuleTree>, leaf: seq<Whisker>, ghost repr: set<RuleTree>,
        ghost tree: Tree)
      requires AllValid(children, repr) && Matches(domain, children, leaf, tree)
      ensures Valid() && Repr == {this} + repr && this.tree == tree && fresh(this)
    {
      this.domain, this.children, this.leaf := domain, children, leaf;
      Repr, this.tree := {this} + repr, tree;
    }

    /** is_leaf */
    predicate IsLeaf()
      reads this
    {
      leaf != []
    }

    /** whisker: the rule for a point, with the const reference as a copy. */
    method Find(q: Memory) returns (found: Found)
      requires Valid()
      ensures found == Lookup(tree, q)
      decreases Repr
    {
      if !domain.Contains(q) { return Nothing; }
      if IsLeaf() { return Rule(leaf[0]); }
      var i := 0;
      while i < |children|
        invariant 0 <= i <= |children| && LookupIn(tree.children, q) == LookupIn(tree.children[i..], q)
      {
        var ret := children[i].Find(q);
        if ret != Nothing { return ret; }
        i := i + 1;
      }
      return Broken;
    }

    /** Only child i may not match the value any more. */
    ghost predicate ValidBut(i: nat)
      reads this, children, set j, o | 0 <= j < |children| && o in children[j].Repr :: o
    {
      && this in Repr && leaf == [] && tree.Node? && tree.domain == domain && |tree.children| == |children|
      && (forall j :: 0 <= j < |children| ==> children[j].Valid() && this !in children[j].Repr)
      && (forall j :: 0 <= j < |children| && j != i ==>
            children[j].Repr <= Repr && children[j].tree == tree.children[j])
      && (forall j, k :: 0 <= j < k < |children| ==> children[j].Repr !! children[k].Repr)
    }

    /** A child that has changed within its own objects, or fresh ones, leaves its siblings as
        they were. */
    twostate lemma SiblingsAreKept(i: nat)
      requires old(Valid()) && old(leaf) == [] && i < |old(children)| && unchanged(old(Repr) - old(children[i].Repr))
      requires old(children)[i].Valid() && fresh(old(children)[i].Repr - old(children[i].Repr))
      ensures ValidBut(i)
    {
      forall j | 0 <= j < |children| && j != i
        ensures children[j].Valid() && children[j].Repr == old(children[j].Repr)
                && children[j].tree == old(children[j].tree)
      {
        assert unchanged(old(children[j].Repr));
      }
    }

    /** The tree after child i has changed within its own objects. */
    ghost method Regrown(i: nat)
      requires i < |children| && ValidBut(i)
      modifies `Repr, `tree
      ensures Valid() && Repr == old(Repr) + children[i].Repr
      ensures tree == Node(domain, old(tree).children[i := children[i].tree])
    {
      Repr := Repr + children[i].Repr;
      tree := Node(domain, tree.children[i := children[i].tree]);
    }

    /** The step of the loop of replace for one child. */
    method ReplaceInChild(i: nat, w: Whisker) returns (r: Outcome)
      requires Valid() && leaf == [] && i < |children|
      modifies Repr
      ensures Valid() && fresh(Repr - old(Repr)) && domain == old(domain) && children == old(children) && leaf == []
      ensures r != True ==> Repr == old(Repr)
      ensures var e := Replaced(old(tree.children[i]), w.domain, SetRule(w));
              r == OutcomeOf(e) && tree == if e.Done? then Node(domain, old(tree.children)[i := e.value]) else old(tree)
      decreases Repr, 0
    {
      r := children[i].Replace(w);
      SiblingsAreKept(i);
      if r == True { Regrown(i); }
    }

    method ReplaceByInChild(i: nat, src: Whisker, dst: RuleTree) returns (r: Outcome)
      requires Valid() && leaf == [] && i < |children| && dst.Valid() && dst.Repr !! Repr
      modifies Repr
      ensures Valid() && fresh(Repr - old(Repr)) && domain == old(domain) && children == old(children) && leaf == []
      ensures r != True ==> Repr == old(Repr)
      ensures var e := Replaced(old(tree.children[i]), src.domain, Graft(dst.tree));
              r == OutcomeOf(e) && tree == if e.Done? then Node(domain, old(tree.children)[i := e.value]) else old(tree)
      ensures dst.Valid() && dst.Repr == old(dst.Repr) && dst.tree == old(dst.tree)
      decreases Repr, 0
    {
      r := children[i].ReplaceBy(src, dst);
      SiblingsAreKept(i);
      if r == True { Regrown(i); }
    }

    method UseInChild(i: nat, q: Memory) returns (found: Found)
      requires Valid() && leaf == [] && i < |children|
      modifies Repr
      ensures Valid() && Repr == old(Repr) && domain == old(domain) && children == old(children) && leaf == []
      ensures found == Lookup(old(tree.children[i]), q)
      ensures tree == if found != Nothing then Node(domain, old(tree.children)[i := Used(old(tree.children[i]), q)])
              else old(tree)
      decreases Repr, 0
    {
      ghost var before := tree;
      found := children[i].UseWhisker(q);
      SiblingsAreKept(i);
      if found != Nothing { Regrown(i); } else { UnusedChild(before.children[i], q); }
    }

    /** replace(w): a new rule for the leaf over the same box. */
    method Replace(w: Whisker) returns (r: Outcome)
      requires Valid()
      modifies Repr
      ensures Valid() && fresh(Repr - old(Repr)) && (r != True ==> Repr == old(Repr))
      ensures r == OutcomeOf(Replaced(old(tree), w.domain, SetRule(w)))
      ensures tree == ResultOf(old(tree), Replaced(old(tree), w.domain, SetRule(w)))
      decreases Repr, 1
    {
      var center := RangeMedian(w.domain);
      if !domain.Contains(center) { return False; }
      if IsLeaf() {
        if !w.domain.Same(leaf[0].domain) { return Aborted; }
        leaf := [w];
        tree := Leaf(domain, w);
        return True;
      }
      var i := 0;
      ghost var a := SetRule(w);
      while i < |children|
        invariant 0 <= i <= |children| && Valid() && Repr == old(Repr) && tree == old(tree) && leaf == []
        invariant children == old(children) && domain == old(domain)
        invariant AllMissed(tree.children, w.domain, a, i)
      {
        if Replaced(tree.children[i], w.domain, a) != Missed { ReplacedHere(tree.children, w.domain, a, i); }
        r := ReplaceInChild(i, w);
        if r != False { return; }
        i := i + 1;
      }
      ReplacedNowhere(tree.children, w.domain, a);
      return Aborted;
    }

    /** replace(src, dst): a copy of the tree dst for the leaf over src's box. */
    method ReplaceBy(src: Whisker, dst: RuleTree) returns (r: Outcome)
      requires Valid() && dst.Valid() && dst.Repr !! Repr
      modifies Repr
      ensures Valid() && fresh(Repr - old(Repr)) && (r != True ==> Repr == old(Repr))
      ensures r == OutcomeOf(Replaced(old(tree), src.domain, Graft(dst.tree)))
      ensures tree == ResultOf(old(tree), Replaced(old(tree), src.domain, Graft(dst.tree)))
      decreases Repr, 2
    {
      var center := RangeMedian(src.domain);
      if !domain.Contains(center) { return False; }
      if IsLeaf() {
        if !src.domain.Same(leaf[0].domain) { return Aborted; }
        Become(dst);
        return True;
      }
      r := ReplaceByInChildren(src, dst);
    }

    /** The loop of replace over the children. */
    method ReplaceByInChildren(src: Whisker, dst: RuleTree) returns (r: Outcome)
      requires Valid() && leaf == [] && dst.Valid() && dst.Repr !! Repr
      modifies Repr
      ensures Valid() && fresh(Repr - old(Repr)) && (r != True ==> Repr == old(Repr))
      ensures match ReplacedIn(old(tree.children), src.domain, Graft(dst.tree))
              case Done(us) => r == True && tree == Node(old(domain), us)
              case _ => r == Aborted && tree == old(tree)
      decreases Repr, 1
    {
      var i := 0;
      ghost var a := Graft(dst.tree);
      while i < |children|
        invariant 0 <= i <= |children| && Valid() && Repr == old(Repr) && tree == old(tree) && leaf == []
        invariant children == old(children) && domain == old(domain)
        invariant dst.Valid() && dst.Repr == old(dst.Repr) && a == Graft(dst.tree)
        invariant AllMissed(tree.children, src.domain, a, i)
      {
        if Replaced(tree.children[i], src.domain, a) != Missed { ReplacedHere(tree.children, src.domain, a, i); }
        r := ReplaceByInChild(i, src, dst);
        if r != False { return; }
        i := i + 1;
      }
      ReplacedNowhere(tree.children, src.domain, a);
      return Aborted;
    }

    /** Assignment of a whole tree, which copies it. */
    method Become(dst: RuleTree)
      requires Valid() && dst.Valid() && dst.Repr !! Repr
      modifies this
      ensures Valid() && fresh(Repr - old(Repr)) && tree == dst.tree
    {
      var copies, repr := CopyAll(dst.children, dst.Repr - {dst});
      Adopt(dst.domain, copies, dst.leaf, repr, dst.tree);
    }

    method Adopt(domain: MemoryRange, children: seq<RuleTree>, leaf: seq<Whisker>, ghost repr: set<RuleTree>,
        ghost tree: Tree)
      requires AllValid(children, repr) && Matches(domain, children, leaf, tree) && this !in repr
      modifies this
      ensures Valid() && Repr == {this} + repr && this.tree == tree
    {
      this.domain, this.children, this.leaf := domain, children, leaf;
      Repr, this.tree := {this} + repr, tree;
    }

    /** use_whisker: finds the rule for a point and counts its use. */
    method UseWhisker(q: Memory) returns (found: Found)
      requires Valid()
      modifies Repr
      ensures Valid() && Repr == old(Repr)
      ensures found == Lookup(old(tree), q) && tree == Used(old(tree), q)
      decreases Repr, 1
    {
      if !domain.Contains(q) { return Nothing; }
      if IsLeaf() {
        found := Rule(leaf[0]);
        leaf := [Bumped(leaf[0])];
        tree := Leaf(domain, leaf[0]);
        return;
      }
      var i := 0;
      while i < |children|
        invariant 0 <= i <= |children| && Valid() && Repr == old(Repr) && tree == old(tree) && leaf == []
        invariant children == old(children) && domain == old(domain)
        invariant PassedOver(tree.children, q, i)
      {
        if Lookup(tree.children[i], q) != Nothing { UsedHere(tree.children, q, i); }
        found := UseInChild(i, q);
        if found != Nothing { return; }
        i := i + 1;
      }
      UsedNowhere(tree.children, q);
      return Broken;
    }
  }

  /** The fields make up the tree. */
  ghost predicate Matches(domain: MemoryRange, children: seq<RuleTree>, leaf: seq<Whisker>, tree: Tree)
    reads children
  {
    match tree
    case Leaf(d, rule) => d == domain && leaf == [rule] && children == []
    case Node(d, ts) => d == domain && leaf == [] && HaveTrees(children, ts)
  }

  ghost predicate AllValid(ts: seq<RuleTree>, repr: set<RuleTree>)
    reads ts, repr
  {
    && (forall i :: 0 <= i < |ts| ==> ts[i] in repr && ts[i].Repr <= repr && ts[i].Valid())
    && (forall i, j :: 0 <= i < j < |ts| ==> ts[i].Repr !! ts[j].Repr)
  }

  /** Copies of trees, sharing nothing with them. */
  method CopyAll(ts: seq<RuleTree>, ghost within: set<RuleTree>) returns (us: seq<RuleTree>, ghost repr: set<RuleTree>)
    requires AllValid(ts, within)
    ensures |us| == |ts| && fresh(repr) && AllValid(us, repr)
    ensures forall i :: 0 <= i < |us| ==> us[i].tree == ts[i].tree
    decreases within, 1
  {
    us, repr := [], {};
    while |us| < |ts|
      invariant |us| <= |ts| && fresh(repr) && AllValid(us, repr)
      invariant forall i :: 0 <= i < |us| ==> us[i].tree == ts[i].tree
    {
      var u := Copy(ts[|us|]);
      us, repr := us + [u], repr + u.Repr;
    }
  }

  method Copy(t: RuleTree) returns (u: RuleTree)
    requires t.Valid()
    ensures u.Valid() && fresh(u.Repr) && u.tree == t.tree
    decreases t.Repr, 0
  {
    var copies, repr := CopyAll(t.children, t.Repr - {t});
    u := new RuleTree.Assign(t.domain, copies, t.leaf, repr, t.tree);
  }

  lemma UnusedChild(t: Tree, q: Memory)
    requires Lookup(t, q) == Nothing
    ensures Used(t, q) == t
  {
    if t.Node? { InIsNeverNothing(t.children, q); }
  }

  lemma {:induction false} InIsNeverNothing(ts: seq<Tree>, q: Memory)
    ensures LookupIn(ts, q) != Nothing
    decreases |ts|
  {
    if ts != [] { InIsNeverNothing(ts[1..], q); }
  }

  /** No rule has been found in the first i children. */
  ghost predicate PassedOver(ts: seq<Tree>, q: Memory, i: nat)
    requires i <= |ts|
  {
    forall j :: 0 <= j < i ==> Lookup(ts[j], q) == Nothing
  }

  lemma {:induction false} UsedHere(ts: seq<Tree>, q: Memory, i: nat)
    requires i < |ts| && PassedOver(ts, q, i) && Lookup(ts[i], q) != Nothing
    ensures LookupIn(ts, q) == Lookup(ts[i], q) && UsedIn(ts, q) == ts[i := Used(ts[i], q)]
    decreases i
  {
    if i > 0 {
      assert PassedOver(ts[1..], q, i - 1);
      UsedHere(ts[1..], q, i - 1);
    }
  }

  lemma {:induction false} UsedNowhere(ts: seq<Tree>, q: Memory)
    requires PassedOver(ts, q, |ts|)
    ensures LookupIn(ts, q) == Broken && UsedIn(ts, q) == ts
    decreases |ts|
  {
    if ts != [] {
      assert PassedOver(ts[1..], q, |ts| - 1);
      UsedNowhere(ts[1..], q);
    }
  }

  /** Whisker::bisect: the rule once for each piece of its bisected box. */
  method BisectWhisker(w: Whisker, medians: Memory) returns (r: Option<seq<Whisker>>)
    ensures r == match Bisected([w.domain], 0, medians)
                 case None => None
                 case Some(xs) => Some(seq(|xs|, i requires 0 <= i < |xs| => w.(domain := xs[i])))
  {
    var pieces := Bisect(w.domain, medians);
    if pieces == None { return None; }
    var xs, ret := pieces.value, [];
    for i := 0 to |xs|
      invariant |ret| == i && forall j :: 0 <= j < i ==> ret[j] == w.(domain := xs[j])
    {
      ret := ret + [w.(domain := xs[i])];
    }
    assert ret == seq(|xs|, i requires 0 <= i < |xs| => w.(domain := xs[i]));
    return Some(ret);
  }

  /** The loop of WhiskerTree(whisker, true): a leaf for every rule. */
  method PlantAll(ws: seq<Whisker>) returns (children: seq<RuleTree>, ghost repr: set<RuleTree>)
    ensures |children| == |ws| && fresh(repr) && AllValid(children, repr)
    ensures forall j :: 0 <= j < |ws| ==> children[j].tree == Planted(ws[j])
  {
    children, repr := [], {};
    for i := 0 to |ws|
      invariant |children| == i && fresh(repr) && AllValid(children, repr)
      invariant forall j :: 0 <= j < i ==> children[j].tree == Planted(ws[j])
    {
      var c := new RuleTree(ws[i]);
      children, repr := children + [c], repr + c.Repr;
    }
  }

  /** WhiskerTree(whisker, true), or null if an assertion of bisect fails. */
  method Divide(w: Whisker, medians: Memory) returns (t: RuleTree?)
    ensures t == null <==> Divided(w, medians) == None
    ensures t != null ==> t.Valid() && fresh(t.Repr) && t.tree == Divided(w, medians).value
  {
    var ws := BisectWhisker(w, medians);
    if ws == None { return null; }
    var children, repr := PlantAll(ws.value);
    t := new RuleTree.Assign(w.domain, children, [], repr, Divided(w, medians).value);
  }

  /** One step of a run on the tree in place: a better rule, or the rule's box divided. */
  method Perform(root: RuleTree, s: Step) returns (r: Outcome)
    requires root.Valid()
    modifies root.Repr
    ensures root.Valid() && fresh(root.Repr - old(root.Repr))
    ensures r == OutcomeOf(Applied(old(root.tree), s))
            && root.tree == ResultOf(old(root.tree), Applied(old(root.tree), s))
  {
    match s
    case Improve(w) =>
      r := root.Replace(w);
    case Split(w, medians) =>
      var dst := Divide(w, medians);
      if dst == null { return Aborted; }
      r := root.ReplaceBy(w, dst);
  }

  /** DNA */
  method Save(t: RuleTree) returns (d: TreeDna)
    requires t.Valid()
    ensures d == ToDna(t.tree)
    decreases t.Repr
  {
    if t.IsLeaf() {
      return TreeDna(Some(RangeToDna(t.domain)), [], Some(WhiskerToDna(t.leaf[0])));
    }
    var ds: seq<TreeDna> := [];
    ghost var ts := t.tree.children;
    for i := 0 to |t.children|
      invariant ds == AllToDna(ts[..i])
    {
      var child := Save(t.children[i]);
      assert ts[..i + 1][..i] == ts[..i];
      ds := ds + [child];
    }
    assert ts[..|ts|] == ts;
    return TreeDna(Some(RangeToDna(t.domain)), ds, None);
  }

  /** The constructor from a saved tree, or null if an assertion fails. */
  method Load(d: TreeDna) returns (t: RuleTree?)
    ensures t == null <==> FromDna(d) == None
    ensures t != null ==> t.Valid() && fresh(t.Repr) && t.tree == FromDna(d).value
    decreases d
  {
    var domain := RangeFromDna(d.domain.UnwrapOr(EmptyRangeDna));
    if d.leaf.Some? {
      if d.children != [] { return null; }
      var rule := WhiskerFromDna(d.leaf.value);
      t := new RuleTree.Assign(domain, [], [rule], {}, Leaf(domain, rule));
      return;
    }
    if d.children == [] { return null; }
    var children, ok, repr := LoadAll(d.children);
    if !ok { return null; }
    t := new RuleTree.Assign(domain, children, [], repr, Node(domain, AllFromDna(d.children).value));
  }

  /** The loop of the constructor from a saved tree. */
  method LoadAll(ds: seq<TreeDna>) returns (children: seq<RuleTree>, ok: bool, ghost repr: set<RuleTree>)
    ensures ok <==> AllFromDna(ds).Some?
    ensures ok ==> fresh(repr) && AllValid(children, repr) && HaveTrees(children, AllFromDna(ds).value)
    decreases ds
  {
    children, repr := [], {};
    ghost var ts: seq<Tree> := [];
    for i := 0 to |ds|
      invariant fresh(repr) && AllValid(children, repr) && AllFromDna(ds[..i]) == Some(ts) && HaveTrees(children, ts)
    {
      assert ds[..i + 1][..i] == ds[..i];
      var c := Load(ds[i]);
      if c == null {
        LostChild(ds, i + 1);
        return children, false, repr;
      }
      children, repr, ts := children + [c], repr + c.Repr, ts + [c.tree];
    }
    assert ds[..|ds|] == ds;
    ok := true;
  }

  ghost predicate HaveTrees(children: seq<RuleTree>, ts: seq<Tree>)
    reads children
  {
    |children| == |ts| && forall i :: 0 <= i < |ts| ==> children[i].tree == ts[i]
  }

  lemma {:induction false} LostChild(ds: seq<TreeDna>, k: nat)
    requires k <= |ds| && AllFromDna(ds[..k]) == None
    ensures AllFromDna(ds) == None
    decreases |ds|
  {
    if k < |ds| {
      assert ds[..|ds| - 1][..k] == ds[..k];
      LostChild(ds[..|ds| - 1], k);
    } else {
      assert ds[..k] == ds;
    }
  }

  ghost function OutcomeOf(e: Edit<Tree>): Outcome {
    match e case Missed => False case Done(_) => True case Failed => Aborted
  }

  ghost function ResultOf(t: Tree, e: Edit<Tree>): Tree {
    if e.Done? then e.value else t
  }

  /** The children before i were passed over. */
  ghost predicate AllMissed(ts: seq<Tree>, src: MemoryRange, a: Action, i: nat)
    requires i <= |ts|
  {
    forall j :: 0 <= j < i ==> Replaced(ts[j], src, a) == Missed
  }

  lemma {:induction false} ReplacedHere(ts: seq<Tree>, src: MemoryRange, a: Action, i: nat)
    requires i < |ts| && AllMissed(ts, src, a, i) && Replaced(ts[i], src, a) != Missed
    ensures var e := Replaced(ts[i], src, a);
            ReplacedIn(ts, src, a) == if e.Done? then Done(ts[i := e.value]) else Failed
    decreases i
  {
    var e := Replaced(ts[i], src, a);
    if i > 0 {
      assert AllMissed(ts[1..], src, a, i - 1);
      ReplacedHere(ts[1..], src, a, i - 1);
      if e.Done? { assert [ts[0]] + ts[1..][i - 1 := e.value] == ts[i := e.value]; }
    } else if e.Done? {
      assert [e.value] + ts[1..] == ts[0 := e.value];
    }
  }

  lemma {:induction false} ReplacedNowhere(ts: seq<Tree>, src: MemoryRange, a: Action)
    requires AllMissed(ts, src, a, |ts|)
    ensures ReplacedIn(ts, src, a) == Missed
    decreases |ts|
  {
    if ts != [] {
      assert AllMissed(ts[1..], src, a, |ts| - 1);
      ReplacedNowhere(ts[1..], src, a);
    }
  }
}
