/** The table of congestion-control rules as a tree of boxes (whisker.cc, whiskertree.cc). */
module WhiskerTree {
  import opened Wrappers
  import opened MemoryRange

  datatype Whisker = Whisker(generation: nat, windowIncrement: int, windowMultiple: real, intersend: real,
      domain: MemoryRange)

  /** A tree holds either one rule or children. */
  datatype Tree = Leaf(domain: MemoryRange, rule: Whisker) | Node(domain: MemoryRange, children: seq<Tree>)

  function Boxes(ts: seq<Tree>): seq<MemoryRange> {
    seq(|ts|, i requires 0 <= i < |ts| => ts[i].domain)
  }

  /** The children's boxes partition the parent's, all the way down, and every leaf's rule is
      for the leaf's box. */
  ghost predicate WellFormed(t: Tree) {
    match t
    case Leaf(domain, rule) => rule.domain.SameBox(domain)
    case Node(domain, children) =>
      && children != [] && Partitions(domain, Boxes(children))
      && forall i :: 0 <= i < |children| ==> WellFormed(children[i])
  }

  // ---- rules of a tree -------------------------------------------------------------

  ghost function Rules(t: Tree): seq<Whisker> {
    match t
    case Leaf(_, rule) => [rule]
    case Node(_, children) => RulesOf(children)
  }

  ghost function RulesOf(ts: seq<Tree>): seq<Whisker> {
    if ts == [] then [] else RulesOf(ts[..|ts| - 1]) + Rules(ts[|ts| - 1])
  }

  ghost function Domains(ws: seq<Whisker>): seq<MemoryRange> {
    seq(|ws|, i requires 0 <= i < |ws| => ws[i].domain)
  }

  lemma {:induction false} HoldersAppend(xs: seq<MemoryRange>, ys: seq<MemoryRange>, q: Memory)
    ensures Holders(xs + ys, q) == Holders(xs, q) + Holders(ys, q)
    decreases |ys|
  {
    if ys == [] {
      assert xs + ys == xs;
    } else {
      assert (xs + ys)[..|xs + ys| - 1] == xs + ys[..|ys| - 1];
      HoldersAppend(xs, ys[..|ys| - 1], q);
    }
  }

  lemma HoldersOfOne(x: MemoryRange, q: Memory)
    ensures Holders([x], q) == if x.Contains(q) then 1 else 0
  {
  }

  /** The rules' boxes partition the box of the tree. */
  lemma {:induction false} RulesPartition(t: Tree, q: Memory)
    requires WellFormed(t)
    ensures Holders(Domains(Rules(t)), q) == if t.domain.Contains(q) then 1 else 0
    decreases t
  {
    match t
    case Leaf(_, rule) =>
      assert Domains(Rules(t)) == [rule.domain];
      HoldersOfOne(rule.domain, q);
    case Node(_, children) => RulesOfPartition(children, q);
  }

  lemma {:induction false} RulesOfPartition(ts: seq<Tree>, q: Memory)
    requires forall i :: 0 <= i < |ts| ==> WellFormed(ts[i])
    ensures Holders(Domains(RulesOf(ts)), q) == Holders(Boxes(ts), q)
    decreases ts
  {
    if ts != [] {
      var n := |ts| - 1;
      RulesOfPartition(ts[..n], q);
      RulesPartition(ts[n], q);
      DomainsAppend(RulesOf(ts[..n]), Rules(ts[n]));
      HoldersAppend(Domains(RulesOf(ts[..n])), Domains(Rules(ts[n])), q);
      assert Boxes(ts)[..n] == Boxes(ts[..n]);
    }
  }

  lemma DomainsAppend(vs: seq<Whisker>, ws: seq<Whisker>)
    ensures Domains(vs + ws) == Domains(vs) + Domains(ws)
  {
  }

  lemma {:induction false} HoldersAtLeast(xs: seq<MemoryRange>, q: Memory, k: nat)
    requires k < |xs| && xs[k].Contains(q)
    ensures Holders(xs, q) >= 1
    decreases |xs|
  {
    if k < |xs| - 1 { HoldersAtLeast(xs[..|xs| - 1], q, k); }
  }

  /** Boxes that hold a point at most once hold it at one place only. */
  lemma {:induction false} HolderIsUnique(xs: seq<MemoryRange>, q: Memory, j: nat, k: nat)
    requires j < |xs| && k < |xs| && xs[j].Contains(q) && xs[k].Contains(q) && Holders(xs, q) <= 1
    ensures j == k
    decreases |xs|
  {
    var n := |xs| - 1;
    if j < n && k < n { HolderIsUnique(xs[..n], q, j, k); }
    else if j < n { HoldersAtLeast(xs[..n], q, j); }
    else if k < n { HoldersAtLeast(xs[..n], q, k); }
  }

  lemma {:induction false} SomeHolder(xs: seq<MemoryRange>, q: Memory) returns (k: nat)
    requires Holders(xs, q) >= 1
    ensures k < |xs| && xs[k].Contains(q)
    decreases |xs|
  {
    if xs[|xs| - 1].Contains(q) { k := |xs| - 1; } else { k := SomeHolder(xs[..|xs| - 1], q); }
  }

  // ---- lookup ----------------------------------------------------------------------

  /** The outcome of `whisker`: null, a rule, or a failed assertion. */
  datatype Found = Nothing | Rule(rule: Whisker) | Broken

  function Lookup(t: Tree, q: Memory): Found
    decreases t
  {
    if !t.domain.Contains(q) then Nothing
    else match t
      case Leaf(_, rule) => Rule(rule)
      case Node(_, children) => LookupIn(children, q)
  }

  function LookupIn(ts: seq<Tree>, q: Memory): Found
    decreases ts
  {
    if ts == [] then Broken
    else var first := Lookup(ts[0], q); if first != Nothing then first else LookupIn(ts[1..], q)
  }

  /** The descent goes into the only child whose box holds the point. */
  lemma {:induction false} LookupInChild(ts: seq<Tree>, q: Memory, k: nat)
    requires k < |ts| && (forall j :: 0 <= j < k ==> !ts[j].domain.Contains(q)) && Lookup(ts[k], q) != Nothing
    ensures LookupIn(ts, q) == Lookup(ts[k], q)
    decreases k
  {
    if k > 0 { LookupInChild(ts[1..], q, k - 1); }
  }

  ghost predicate IsRuleAt(t: Tree, q: Memory, w: Whisker) {
    w in Rules(t) && w.domain.Contains(q)
  }

  /** Lookup finds nothing exactly outside the domain, and inside it the rule whose box holds
      the point; no assertion fails. */
  lemma {:induction false} LookupFinds(t: Tree, q: Memory)
    requires WellFormed(t)
    ensures !t.domain.Contains(q) ==> Lookup(t, q) == Nothing
    ensures t.domain.Contains(q) ==> Lookup(t, q).Rule? && IsRuleAt(t, q, Lookup(t, q).rule)
    decreases t
  {
    match t
    case Leaf(_, _) =>
    case Node(domain, children) =>
      if domain.Contains(q) {
        var k := ChildAt(t, q);
        LookupFinds(children[k], q);
        LookupInChild(children, q, k);
        RulesOfChild(children, k);
      }
  }

  lemma {:induction false} RulesOfChild(ts: seq<Tree>, k: nat)
    requires k < |ts|
    ensures forall w :: w in Rules(ts[k]) ==> w in RulesOf(ts)
    decreases |ts|
  {
    if k < |ts| - 1 { RulesOfChild(ts[..|ts| - 1], k); }
  }

  /** Exactly one child holds a point of the parent's box. */
  lemma {:induction false} ChildAt(t: Tree, q: Memory) returns (k: nat)
    requires t.Node? && WellFormed(t) && t.domain.Contains(q)
    ensures k < |t.children| && forall j :: 0 <= j < |t.children| ==> (t.children[j].domain.Contains(q) <==> j == k)
  {
    k := SomeHolder(Boxes(t.children), q);
    forall j | 0 <= j < |t.children| && t.children[j].domain.Contains(q) ensures j == k {
      HolderIsUnique(Boxes(t.children), q, j, k);
    }
  }

  /** No two rules of a tree apply to the same point. */
  lemma RuleIsUnique(t: Tree, q: Memory, i: nat, j: nat)
    requires WellFormed(t) && i < |Rules(t)| && j < |Rules(t)|
    requires Rules(t)[i].domain.Contains(q) && Rules(t)[j].domain.Contains(q)
    ensures i == j && Lookup(t, q) == Rule(Rules(t)[i])
  {
    RulesPartition(t, q);
    HolderIsUnique(Domains(Rules(t)), q, i, j);
    RulesAreInside(t, q, i);
    LookupFinds(t, q);
    var w := Lookup(t, q).rule;
    var k :| 0 <= k < |Rules(t)| && Rules(t)[k] == w;
    HolderIsUnique(Domains(Rules(t)), q, i, k);
  }

  lemma RulesAreInside(t: Tree, q: Memory, i: nat)
    requires WellFormed(t) && i < |Rules(t)| && Rules(t)[i].domain.Contains(q)
    ensures t.domain.Contains(q)
  {
    RulesPartition(t, q);
    HoldersAtLeast(Domains(Rules(t)), q, i);
  }

  // ---- replace ---------------------------------------------------------------------

  /** What the two forms of replace do to the leaf they find. */
  datatype Action = SetRule(w: Whisker) | Graft(dst: Tree)

  /** The outcome of replace: false, the edited tree, or a failed assertion. */
  datatype Edit<T> = Missed | Done(value: T) | Failed

  function Replaced(t: Tree, src: MemoryRange, a: Action): Edit<Tree>
    decreases t
  {
    if !t.domain.Contains(Center(src)) then Missed
    else match t
      case Leaf(domain, rule) =>
        if !src.Same(rule.domain) then Failed
        else Done(match a case SetRule(w) => Leaf(domain, w) case Graft(dst) => dst)
      case Node(domain, children) =>
        match ReplacedIn(children, src, a)
        case Done(us) => Done(Node(domain, us))
        case _ => Failed
  }

  function ReplacedIn(ts: seq<Tree>, src: MemoryRange, a: Action): Edit<seq<Tree>>
    decreases ts
  {
    if ts == [] then Missed
    else match Replaced(ts[0], src, a)
      case Failed => Failed
      case Done(u) => Done([u] + ts[1..])
      case Missed => match ReplacedIn(ts[1..], src, a)
        case Done(us) => Done([ts[0]] + us)
        case other => other
  }

  /** src is the box of one of the rules. */
  ghost predicate IsRuleBox(t: Tree, src: MemoryRange) {
    exists i :: 0 <= i < |Rules(t)| && Rules(t)[i].domain.SameBox(src)
  }

  /** The replacement is for the box src. */
  ghost predicate Fits(a: Action, src: MemoryRange) {
    match a
    case SetRule(w) => w.domain.SameBox(src)
    case Graft(dst) => WellFormed(dst) && dst.domain.SameBox(src)
  }

  ghost function Answer(a: Action, q: Memory): Found {
    match a case SetRule(w) => Rule(w) case Graft(dst) => Lookup(dst, q)
  }

  /** Lookups in u are those in t, redirected inside src. */
  ghost predicate Redirects(t: Tree, u: Tree, src: MemoryRange, a: Action) {
    forall q: Memory :: Lookup(u, q) == if src.Contains(q) then Answer(a, q) else Lookup(t, q)
  }

  /** The child that a rule box belongs to is the one holding the box's center. */
  lemma {:induction false} RuleBoxInChild(t: Tree, src: MemoryRange) returns (k: nat)
    requires t.Node? && WellFormed(t) && src.NonEmpty() && IsRuleBox(t, src)
    ensures k < |t.children| && IsRuleBox(t.children[k], src) && t.domain.Contains(Center(src))
    ensures forall j :: 0 <= j < |t.children| ==> (t.children[j].domain.Contains(Center(src)) <==> j == k)
  {
    var i :| 0 <= i < |Rules(t)| && Rules(t)[i].domain.SameBox(src);
    var c := Center(src);
    RulesAreInside(t, c, i);
    k := ChildAt(t, c);
    LookupFinds(t.children[k], c);
    var w := Lookup(t.children[k], c).rule;
    LookupInChild(t.children, c, k);
    RuleIsUnique(t, c, i, i);
    assert w == Rules(t)[i];
    var n :| 0 <= n < |Rules(t.children[k])| && Rules(t.children[k])[n] == w;
  }

  lemma {:induction false} ReplacedInChild(ts: seq<Tree>, src: MemoryRange, a: Action, k: nat)
    requires k < |ts| && (forall j :: 0 <= j < k ==> !ts[j].domain.Contains(Center(src)))
             && Replaced(ts[k], src, a).Done?
    ensures ReplacedIn(ts, src, a) == Done(ts[k := Replaced(ts[k], src, a).value])
    decreases k
  {
    var u := Replaced(ts[k], src, a).value;
    if k > 0 {
      ReplacedInChild(ts[1..], src, a, k - 1);
      assert [ts[0]] + ts[1..][k - 1 := u] == ts[k := u];
    } else {
      assert [u] + ts[1..] == ts[0 := u];
    }
  }

  lemma {:induction false} LookupInAgrees(ts: seq<Tree>, us: seq<Tree>, q: Memory)
    requires |ts| == |us| && forall j :: 0 <= j < |ts| ==> Lookup(ts[j], q) == Lookup(us[j], q)
    ensures LookupIn(ts, q) == LookupIn(us, q)
    decreases |ts|
  {
    if ts != [] { LookupInAgrees(ts[1..], us[1..], q); }
  }

  lemma {:induction false} SameBoxesHold(xs: seq<MemoryRange>, ys: seq<MemoryRange>, q: Memory)
    requires |xs| == |ys| && forall j :: 0 <= j < |xs| ==> xs[j].SameBox(ys[j])
    ensures Holders(xs, q) == Holders(ys, q)
    decreases |xs|
  {
    if xs != [] { SameBoxesHold(xs[..|xs| - 1], ys[..|xs| - 1], q); }
  }

  /** Replacing at the box of a rule succeeds, keeps the tree well formed over the same box,
      redirects the lookups inside that box and changes no other. */
  lemma {:induction false} ReplaceRedirects(t: Tree, src: MemoryRange, a: Action)
    requires WellFormed(t) && src.NonEmpty() && IsRuleBox(t, src) && Fits(a, src)
    ensures var r := Replaced(t, src, a);
            r.Done? && WellFormed(r.value) && r.value.domain.SameBox(t.domain) && Redirects(t, r.value, src, a)
    decreases t
  {
    match t
    case Leaf(_, _) => ReplaceLeaf(t, src, a);
    case Node(domain, children) =>
      var k := RuleBoxInChild(t, src);
      ReplaceRedirects(children[k], src, a);
      ReplacedInChild(children, src, a, k);
      NodeRedirects(t, Replaced(children[k], src, a).value, src, a, k);
  }

  lemma ReplaceLeaf(t: Tree, src: MemoryRange, a: Action)
    requires t.Leaf? && WellFormed(t) && src.NonEmpty() && IsRuleBox(t, src) && Fits(a, src)
    ensures var r := Replaced(t, src, a);
            r.Done? && WellFormed(r.value) && r.value.domain.SameBox(t.domain) && Redirects(t, r.value, src, a)
  {
  }

  lemma NodeRedirects(t: Tree, u: Tree, src: MemoryRange, a: Action, k: nat)
    requires t.Node? && WellFormed(t) && k < |t.children| && IsRuleBox(t.children[k], src)
    requires WellFormed(u) && u.domain.SameBox(t.children[k].domain) && Redirects(t.children[k], u, src, a)
    ensures var t' := Node(t.domain, t.children[k := u]);
            WellFormed(t') && Redirects(t, t', src, a)
  {
    var us := t.children[k := u];
    var t' := Node(t.domain, us);
    forall q: Memory ensures Holders(Boxes(us), q) == if t.domain.Contains(q) then 1 else 0 {
      SameBoxesHold(Boxes(us), Boxes(t.children), q);
    }
    assert WellFormed(t');
    forall q: Memory ensures Lookup(t', q) == if src.Contains(q) then Answer(a, q) else Lookup(t, q) {
      if src.Contains(q) {
        var i :| 0 <= i < |Rules(t.children[k])| && Rules(t.children[k])[i].domain.SameBox(src);
        RulesAreInside(t.children[k], q, i);
        HoldersAtLeast(Boxes(t.children), q, k);
        var c := ChildAt(t', q);
        assert us[k].domain.Contains(q) && c == k;
        LookupFinds(u, q);
        LookupInChild(us, q, k);
      } else {
        LookupInAgrees(t.children, us, q);
      }
    }
  }

  // ---- splitting a rule ---------------------------------------------------------------

  /** The constructors from a rule: a leaf, or a node with a leaf for each piece of the
      bisected box. */
  function Planted(w: Whisker): Tree {
    Leaf(w.domain, w)
  }

  function Divided(w: Whisker, medians: Memory): Option<Tree> {
    match Bisected([w.domain], 0, medians)
    case None => None
    case Some(xs) => Some(Node(w.domain, seq(|xs|, i requires 0 <= i < |xs| => Planted(w.(domain := xs[i])))))
  }

  /** Dividing a rule gives a well-formed tree exactly when the medians lie in its box. */
  lemma DividedIsWellFormed(w: Whisker, medians: Memory)
    requires w.domain.NonEmpty()
    ensures Divided(w, medians).Some? && Divided(w, medians).value.domain == w.domain
    ensures WellFormed(Divided(w, medians).value) <==> MediansInside(w.domain, medians)
  {
    BisectPartitions(w.domain, medians);
    BisectHolds(w.domain, medians);
    var xs, t := Bisected([w.domain], 0, medians).value, Divided(w, medians).value;
    assert Boxes(t.children) == xs;
    assert forall i :: 0 <= i < |t.children| ==> WellFormed(t.children[i]);
  }

  /** Inside the box, each piece carries on the actions of the divided rule. */
  lemma DividedActsTheSame(w: Whisker, medians: Memory, q: Memory)
    requires w.domain.Contains(q)
    ensures Divided(w, medians).Some?
    ensures var f := Lookup(Divided(w, medians).value, q);
            f.Rule? && f.rule.domain.Contains(q) && f.rule == w.(domain := f.rule.domain)
  {
    BisectCoversInside(w.domain, medians, q);
    BisectHolds(w.domain, medians);
    var xs, t := Bisected([w.domain], 0, medians).value, Divided(w, medians).value;
    var k := SomeHolder(xs, q);
    forall j | 0 <= j < k ensures !t.children[j].domain.Contains(q) {
      if xs[j].Contains(q) { HolderIsUnique(xs, q, j, k); }
    }
    LookupInChild(t.children, q, k);
  }

  // ---- runs ------------------------------------------------------------------------

  datatype Step = Improve(w: Whisker) | Split(w: Whisker, medians: Memory)

  function Applied(t: Tree, s: Step): Edit<Tree> {
    match s
    case Improve(w) => Replaced(t, w.domain, SetRule(w))
    case Split(w, medians) =>
      match Divided(w, medians)
      case None => Failed
      case Some(d) => Replaced(t, w.domain, Graft(d))
  }

  /** The step is for a rule of the tree with a non-empty box, and a split has its medians
      in that box. */
  ghost predicate Legal(t: Tree, s: Step) {
    && s.w.domain.NonEmpty() && IsRuleBox(t, s.w.domain)
    && (s.Split? ==> MediansInside(s.w.domain, s.medians))
  }

  lemma StepKeepsWellFormed(t: Tree, s: Step)
    requires WellFormed(t) && Legal(t, s)
    ensures var r := Applied(t, s);
            r.Done? && WellFormed(r.value) && r.value.domain.SameBox(t.domain)
    ensures forall q: Memory :: !s.w.domain.Contains(q) ==> Lookup(Applied(t, s).value, q) == Lookup(t, q)
    ensures forall q: Memory :: s.w.domain.Contains(q) ==> ActsLike(Lookup(Applied(t, s).value, q), s.w)
  {
    match s
    case Improve(w) => ReplaceRedirects(t, w.domain, SetRule(w));
    case Split(w, medians) =>
      DividedIsWellFormed(w, medians);
      ReplaceRedirects(t, w.domain, Graft(Divided(w, medians).value));
      forall q: Memory | w.domain.Contains(q) ensures ActsLike(Lookup(Applied(t, s).value, q), w) {
        DividedActsTheSame(w, medians, q);
      }
  }

  /** The rule found has the actions of w. */
  ghost predicate ActsLike(f: Found, w: Whisker) {
    f.Rule? && f.rule == w.(domain := f.rule.domain)
  }

  function Run(t: Tree, steps: seq<Step>): Edit<Tree>
    decreases |steps|
  {
    if steps == [] then Done(t)
    else match Run(t, steps[..|steps| - 1])
      case Done(u) => Applied(u, steps[|steps| - 1])
      case other => other
  }

  /** Every step is legal for the tree it is applied to. */
  ghost predicate LegalRun(t: Tree, steps: seq<Step>) {
    forall i :: 0 <= i < |steps| ==> LegalAt(t, steps, i)
  }

  ghost predicate LegalAt(t: Tree, steps: seq<Step>, i: nat)
    requires i < |steps|
  {
    Run(t, steps[..i]).Done? ==> Legal(Run(t, steps[..i]).value, steps[i])
  }

  /** In every tree reached by legal steps the leaves partition the root's box: lookups find
      exactly one rule inside it and nothing outside, and no assertion fails on the way. */
  lemma {:induction false} RunsAreSafe(t: Tree, steps: seq<Step>)
    requires WellFormed(t) && LegalRun(t, steps)
    ensures var r := Run(t, steps);
            && r.Done? && WellFormed(r.value) && r.value.domain.SameBox(t.domain)
            && forall q: Memory :: if t.domain.Contains(q) then Lookup(r.value, q).Rule?
               else Lookup(r.value, q) == Nothing
    decreases |steps|
  {
    if steps != [] {
      var n := |steps| - 1;
      forall i | 0 <= i < n ensures LegalAt(t, steps[..n], i) {
        assert LegalAt(t, steps, i);
        assert steps[..n][..i] == steps[..i];
      }
      RunsAreSafe(t, steps[..n]);
      assert LegalAt(t, steps, n);
      StepKeepsWellFormed(Run(t, steps[..n]).value, steps[n]);
    }
    var r := Run(t, steps).value;
    forall q: Memory ensures if t.domain.Contains(q) then Lookup(r, q).Rule? else Lookup(r, q) == Nothing {
      LookupFinds(r, q);
    }
  }

  /** The first tree: one rule for the whole memory, with the default actions. */
  function Initial(): (t: Tree)
    ensures WellFormed(t)
    ensures forall q: Memory :: t.domain.Contains(q) <==> q.AtLeast(Memory(0.0, 0.0, 0.0, 0.0)) && q.Below(MaxMemory)
    ensures t.domain.upper == Memory(163840.0, 163840.0, 163840.0, 163840.0)
    ensures t.Leaf? && t.rule.windowIncrement == 1 && t.rule.windowMultiple == 1.0 && t.rule.intersend == 3.0
  {
    Planted(Whisker(0, 1, 1.0, 3.0, MemoryRange(Memory(0.0, 0.0, 0.0, 0.0), MaxMemory, 0)))
  }

  // ---- where the assertions of replace are weaker than they look --------------------------

  predicate AgreeOffAxis1(x: MemoryRange, y: MemoryRange) {
    && x.lower.recSend == y.lower.recSend && x.upper.recSend == y.upper.recSend
    && x.lower.rttRatio == y.lower.rttRatio && x.upper.rttRatio == y.upper.rttRatio
    && x.lower.slowRecRec == y.lower.slowRecRec && x.upper.slowRecRec == y.upper.slowRecRec
  }

  /** The rule for a point of the domain. */
  ghost function RuleAt(t: Tree, q: Memory): Whisker
    requires WellFormed(t) && t.domain.Contains(q)
  {
    LookupFinds(t, q);
    Lookup(t, q).rule
  }

  /** In any tree, replace passes its assertion exactly when the new rule's box agrees on axes 0,
      2 and 3 with the box of the rule it replaces, the one at its center; but the tree stays
      well formed only if the boxes agree on axis 1 too. */
  lemma {:induction false} ReplaceTakesRule(t: Tree, w: Whisker)
    requires WellFormed(t) && t.domain.Contains(Center(w.domain))
    ensures var r, box := Replaced(t, w.domain, SetRule(w)), RuleAt(t, Center(w.domain)).domain;
            && r != Missed && (r.Done? <==> AgreeOffAxis1(w.domain, box))
            && (r.Done? ==> r.value.domain == t.domain && (WellFormed(r.value) <==> w.domain.SameBox(box)))
    decreases t
  {
    if t.Node? {
      var k := ChildAt(t, Center(w.domain));
      var c := t.children[k];
      LookupFinds(c, Center(w.domain));
      LookupInChild(t.children, Center(w.domain), k);
      ReplaceTakesRule(c, w);
      if Replaced(c, w.domain, SetRule(w)).Done? {
        ReplacedInChild(t.children, w.domain, SetRule(w), k);
        ChangedChild(t, k, Replaced(c, w.domain, SetRule(w)).value);
      } else {
        FailedInChild(t.children, w.domain, SetRule(w), k);
      }
    }
  }

  lemma {:induction false} FailedInChild(ts: seq<Tree>, src: MemoryRange, a: Action, k: nat)
    requires k < |ts| && (forall j :: 0 <= j < k ==> !ts[j].domain.Contains(Center(src)))
             && Replaced(ts[k], src, a).Failed?
    ensures ReplacedIn(ts, src, a) == Failed
    decreases k
  {
    if k > 0 { FailedInChild(ts[1..], src, a, k - 1); }
  }

  lemma ChangedChild(t: Tree, k: nat, u: Tree)
    requires t.Node? && WellFormed(t) && k < |t.children| && u.domain == t.children[k].domain
    ensures WellFormed(Node(t.domain, t.children[k := u])) <==> WellFormed(u)
  {
    var us := t.children[k := u];
    assert Boxes(us) == Boxes(t.children);
    assert us[k] == u;
  }

  /** Replacing the rule of the first tree by one for half of axis 1 passes the assertion and
      leaves a rule that answers for points outside its own box. */
  lemma AxisOneIsNotChecked()
    ensures var w := Whisker(0, 1, 1.0, 3.0, MemoryRange(Memory(0.0, 0.0, 0.0, 0.0), MaxMemory.(recRec := 81920.0), 0));
            var q := Memory(0.0, 100000.0, 0.0, 0.0);
            var r := Replaced(Initial(), w.domain, SetRule(w));
            r.Done? && !WellFormed(r.value) && Lookup(r.value, q) == Rule(w) && !w.domain.Contains(q)
  {
  }

  lemma {:induction false} LastDoubled(xs: seq<MemoryRange>, axis: nat, medians: Memory)
    requires xs != [] && DoubledAll(xs, axis, medians).Some?
    requires Doubled(xs[|xs| - 1], axis, medians).Some? && |Doubled(xs[|xs| - 1], axis, medians).value| == 2
    ensures var ys := DoubledAll(xs, axis, medians).value;
            ys != [] && ys[|ys| - 1] == Doubled(xs[|xs| - 1], axis, medians).value[1]
  {
  }

  /** The last piece reaches from the medians to the upper corner. */
  lemma LastPiece(x: MemoryRange, medians: Memory)
    requires x.NonEmpty() && medians.Below(x.upper)
    ensures var r := Bisected([x], 0, medians); r.Some? && MemoryRange(medians, x.upper, 0) in r.value
  {
    var s0 := [x];
    DoublingAll(s0, x, 0, medians);
    LastDoubled(s0, 0, medians);
    var s1 := DoubledAll(s0, 0, medians).value;
    DoublingAll(s1, x, 1, medians);
    LastDoubled(s1, 1, medians);
    var s2 := DoubledAll(s1, 1, medians).value;
    DoublingAll(s2, x, 2, medians);
    LastDoubled(s2, 2, medians);
    var s3 := DoubledAll(s2, 2, medians).value;
    DoublingAll(s3, x, 3, medians);
    LastDoubled(s3, 3, medians);
    var s4 := DoubledAll(s3, 3, medians).value;
    assert Bisected(s3, 3, medians) == Some(s4);
    assert Bisected(s2, 2, medians) == Some(s4);
    assert Bisected(s1, 1, medians) == Some(s4);
    assert s4[|s4| - 1] == MemoryRange(medians, x.upper, 0);
  }

  /** A median far enough below its box hides a non-empty piece: replacing its rule returns
      false although the rule is in the tree. */
  lemma StrayMedianHidesRule(w: Whisker, medians: Memory)
    requires w.domain.NonEmpty() && medians.Below(w.domain.upper)
    requires medians.recSend + w.domain.upper.recSend < 2.0 * w.domain.lower.recSend
    ensures Divided(w, medians).Some?
    ensures var piece := MemoryRange(medians, w.domain.upper, 0);
            && piece.NonEmpty() && IsRuleBox(Divided(w, medians).value, piece)
            && forall a :: Replaced(Divided(w, medians).value, piece, a) == Missed
  {
    LastPiece(w.domain, medians);
    var xs, t := Bisected([w.domain], 0, medians).value, Divided(w, medians).value;
    var piece := MemoryRange(medians, w.domain.upper, 0);
    var k :| 0 <= k < |xs| && xs[k] == piece;
    assert t.children[k] == Planted(w.(domain := piece)) && Rules(t.children[k]) == [w.(domain := piece)];
    RulesOfChild(t.children, k);
    assert w.(domain := piece) in Rules(t);
  }

  /** Estimators that have seen too few samples give zero medians. Dividing a rule for a box like
      this one then hides a piece of it from replace. */
  lemma UntrackedRuleIsHidden(w: Whisker)
    requires w.domain.lower == Memory(150.0, 0.0, 0.0, 0.0) && w.domain.upper == MaxMemory.(recSend := 200.0)
    ensures var zero := Memory(0.0, 0.0, 0.0, 0.0);
            var d, piece := Divided(w, zero), MemoryRange(zero, w.domain.upper, 0);
            && d.Some? && !WellFormed(d.value) && IsRuleBox(d.value, piece)
            && forall a :: Replaced(d.value, piece, a) == Missed
  {
    StrayMedianHidesRule(w, Memory(0.0, 0.0, 0.0, 0.0));
    DividedIsWellFormed(w, Memory(0.0, 0.0, 0.0, 0.0));
  }

  // ---- use counts ------------------------------------------------------------------

  /** use: the count is an unsigned int. */
  function Bumped(w: Whisker): Whisker {
    w.(domain := w.domain.(count := (w.domain.count + 1) % 0x1_0000_0000))
  }

  /** The tree after use_whisker has counted one use at q. */
  function Used(t: Tree, q: Memory): Tree
    decreases t
  {
    if !t.domain.Contains(q) then t
    else match t
      case Leaf(domain, rule) => Leaf(domain, Bumped(rule))
      case Node(domain, children) => Node(domain, UsedIn(children, q))
  }

  function UsedIn(ts: seq<Tree>, q: Memory): seq<Tree>
    decreases ts
  {
    if ts == [] then []
    else if Lookup(ts[0], q) != Nothing then [Used(ts[0], q)] + ts[1..]
    else [ts[0]] + UsedIn(ts[1..], q)
  }

  ghost function Counted(ws: seq<Whisker>, q: Memory): seq<Whisker> {
    seq(|ws|, i requires 0 <= i < |ws| => if ws[i].domain.Contains(q) then Bumped(ws[i]) else ws[i])
  }

  lemma {:induction false} UsedInChild(ts: seq<Tree>, q: Memory, k: nat)
    requires k < |ts| && (forall j :: 0 <= j < k ==> !ts[j].domain.Contains(q)) && Lookup(ts[k], q) != Nothing
    ensures UsedIn(ts, q) == ts[k := Used(ts[k], q)]
    decreases k
  {
    if k > 0 { UsedInChild(ts[1..], q, k - 1); }
  }

  lemma {:induction false} RulesOfCounted(ts: seq<Tree>, us: seq<Tree>, q: Memory)
    requires |us| == |ts| && forall j :: 0 <= j < |ts| ==> Rules(us[j]) == Counted(Rules(ts[j]), q)
    ensures RulesOf(us) == Counted(RulesOf(ts), q)
    decreases |ts|
  {
    if ts != [] {
      var n := |ts| - 1;
      RulesOfCounted(ts[..n], us[..n], q);
      assert Rules(us[n]) == Counted(Rules(ts[n]), q);
    }
  }

  /** A use counts at exactly the rules whose box holds the point, that is at one rule inside
      the domain and at none outside, and keeps the tree well formed. */
  lemma {:induction false} UseCounts(t: Tree, q: Memory)
    requires WellFormed(t)
    ensures Rules(Used(t, q)) == Counted(Rules(t), q)
    ensures WellFormed(Used(t, q)) && Used(t, q).domain == t.domain
    decreases t
  {
    if !t.domain.Contains(q) {
      NothingCounted(t, q);
    } else if t.Node? {
      var k := ChildAt(t, q);
      LookupFinds(t.children[k], q);
      UsedInChild(t.children, q, k);
      UseCounts(t.children[k], q);
      var us := t.children[k := Used(t.children[k], q)];
      forall j | 0 <= j < |us| ensures Rules(us[j]) == Counted(Rules(t.children[j]), q) {
        if j != k { NothingCounted(t.children[j], q); }
      }
      RulesOfCounted(t.children, us, q);
      assert Boxes(us) == Boxes(t.children);
    }
  }

  lemma NothingCounted(t: Tree, q: Memory)
    requires WellFormed(t) && !t.domain.Contains(q)
    ensures Counted(Rules(t), q) == Rules(t)
  {
    forall i | 0 <= i < |Rules(t)| ensures !Rules(t)[i].domain.Contains(q) {
      if Rules(t)[i].domain.Contains(q) { RulesAreInside(t, q, i); }
    }
  }

  function UsedAll(t: Tree, qs: seq<Memory>): Tree {
    if qs == [] then t else Used(UsedAll(t, qs[..|qs| - 1]), qs[|qs| - 1])
  }

  ghost function Hits(x: MemoryRange, qs: seq<Memory>): nat {
    if qs == [] then 0 else Hits(x, qs[..|qs| - 1]) + if x.Contains(qs[|qs| - 1]) then 1 else 0
  }

  /** After any sequence of uses, every rule's count has grown by the number of the points
      that lie in its box, modulo 2^32. */
  lemma {:induction false} CountsAreHits(t: Tree, qs: seq<Memory>, i: nat)
    requires WellFormed(t) && i < |Rules(t)| && Rules(t)[i].domain.count < 0x1_0000_0000
    ensures var u := UsedAll(t, qs);
            && WellFormed(u) && u.domain == t.domain && |Rules(u)| == |Rules(t)|
            && Rules(u)[i] == Rules(t)[i].(domain := Rules(u)[i].domain)
               && Rules(u)[i].domain.SameBox(Rules(t)[i].domain)
            && Rules(u)[i].domain.count == (Rules(t)[i].domain.count + Hits(Rules(t)[i].domain, qs)) % 0x1_0000_0000
    decreases |qs|
  {
    if qs != [] {
      var n := |qs| - 1;
      CountsAreHits(t, qs[..n], i);
      UseCounts(UsedAll(t, qs[..n]), qs[n]);
    }
  }
}
