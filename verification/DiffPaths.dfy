/** What each node of a diff says of the two documents: told by the paths that lead to it on either side, and not by how
    the walk aligns entries. */
module DiffPaths {
  import opened PdfObjects
  import opened DiffWalk
  import opened DiffSound

  /** One step further on one side, resolved; none where that side has nothing. */
  function Onward(s: Store, v: Option<Obj>, step: Step): Option<Obj> {
    if v.None? then None
    else match StepInto(v.value, step)
      case None => None
      case Some(c) => Some(Deref(s, c))
  }

  /** The keys of either side that come before k. */
  function KeysBefore(a: Obj, b: Obj, k: string): set<string>
    requires (a.Dict? || a.Stream?) && (b.Dict? || b.Stream?)
  {
    set x | x in a.entries.Keys + b.entries.Keys && Before(x, k)
  }

  /** The i-th of the steps that either side has: an index, or a key in byte order. */
  predicate IsStep(a: Obj, b: Obj, i: nat, step: Step) {
    match step
    case Index(j) => a.Array? && b.Array? && i == j && (i < |a.elems| || i < |b.elems|)
    case Key(k) =>
      && (a.Dict? || a.Stream?) && (b.Dict? || b.Stream?)
      && (k in a.entries || k in b.entries) && |KeysBefore(a, b, k)| == i
  }

  /** Node m stands at path below the node n of the values a and b. */
  ghost predicate StandsAt(d: Docs, a: Option<Obj>, b: Option<Obj>, n: Node, path: seq<Step>, m: Node)
    decreases |path|
  {
    if path == [] then m == n
    else exists i ::
      && 0 <= i < |n.children| && a.Some? && b.Some? && IsStep(a.value, b.value, i, path[0])
      && StandsAt(d, Onward(d.left, a, path[0]), Onward(d.right, b, path[0]), n.children[i], path[1..], m)
  }

  /** What a node says: added where only the right side has a value, removed where only the left one has; a leaf where
      both have one is changed only where they differ in kind or text, and unchanged only where they have one text; any
      other node is changed when something below it is not unchanged. */
  ghost predicate Tells(a: Option<Obj>, b: Option<Obj>, m: Node) {
    && (a.Some? || b.Some?)
    && (m.status == Added <==> a.None?) && (m.status == Removed <==> b.None?)
    && (m.children != [] ==> a.Some? && b.Some?)
    && (a.Some? && b.Some? && m.children == [] ==>
          && (m.status == Changed ==> KindOf(a.value) != KindOf(b.value) || Compare(a.value) != Compare(b.value))
          && (m.status == Unchanged ==> Compare(a.value) == Compare(b.value)))
    && (m.children != [] ==>
          (m.status == Changed <==> exists i :: 0 <= i < |m.children| && m.children[i].status != Unchanged))
  }

  /** Every key or index that either side of a walked pair of containers has is that of one node. */
  ghost predicate CoversSteps(a: Obj, b: Obj, m: Node) {
    && (forall step :: StepInto(a, step).Some? || StepInto(b, step).Some? ==>
          exists i :: 0 <= i < |m.children| && IsStep(a, b, i, step))
    && (forall i :: 0 <= i < |m.children| ==> HasStep(a, b, i))
  }

  ghost predicate HasStep(a: Obj, b: Obj, i: nat) {
    exists step :: IsStep(a, b, i, step)
  }

  /** The step of a node is its own. */
  lemma StepIsOne(a: Obj, b: Obj, i: nat, j: nat, s: Step, t: Step)
    requires IsStep(a, b, i, s) && IsStep(a, b, j, t)
    ensures i == j <==> s == t
  {
    if s.Key? && s != t {
      BeforeTotal(s.k, t.k);
      var x, y := if Before(s.k, t.k) then s.k else t.k, if Before(s.k, t.k) then t.k else s.k;
      BeforeTotal(y, y);
      BeforeTotal(x, x);
      forall z | z in KeysBefore(a, b, x)
        ensures z in KeysBefore(a, b, y)
      {
        BeforeTransitive(z, x, y);
      }
      assert x in KeysBefore(a, b, y) && x !in KeysBefore(a, b, x);
      assert KeysBefore(a, b, x) + {x} <= KeysBefore(a, b, y);
      SubsetSize(KeysBefore(a, b, x) + {x}, KeysBefore(a, b, y));
    }
  }

  lemma {:induction false} SubsetSize(s: set<string>, t: set<string>)
    requires s <= t
    ensures |s| <= |t|
  {
    if s != {} {
      var x :| x in s;
      SubsetSize(s - {x}, t - {x});
    }
  }

  /** The first i strings of r. */
  function Front(r: seq<string>, i: nat): set<string>
    requires i <= |r|
  {
    if i == 0 then {} else Front(r, i - 1) + {r[i - 1]}
  }

  predicate Rising(r: seq<string>) {
    forall j, k :: 0 <= j < k < |r| ==> Before(r[j], r[k])
  }

  lemma {:induction false} FrontIsBefore(r: seq<string>, i: nat, x: string)
    requires Rising(r) && i < |r| && x in r
    ensures x in Front(r, i) <==> Before(x, r[i])
  {
    hide Before;
    var j :| 0 <= j < |r| && r[j] == x;
    BeforeTotal(x, r[i]);
    InFront(r, i, j);
  }

  lemma {:induction false} InFront(r: seq<string>, i: nat, j: nat)
    requires Rising(r) && i <= |r| && j < |r|
    ensures r[j] in Front(r, i) <==> j < i
  {
    hide Before;
    if i > 0 {
      InFront(r, i - 1, j);
      BeforeTotal(r[j], r[i - 1]);
    }
  }

  lemma {:induction false} FrontSize(r: seq<string>, i: nat)
    requires Rising(r) && i <= |r|
    ensures |Front(r, i)| == i && forall x :: x in Front(r, i) ==> x in r
  {
    hide Before;
    if i > 0 {
      FrontSize(r, i - 1);
      InFront(r, i - 1, i - 1);
    }
  }

  /** The key at place i has i keys before it. */
  lemma SortedPlace(a: Obj, b: Obj, i: nat)
    requires (a.Dict? || a.Stream?) && (b.Dict? || b.Stream?) && i < |Sorted(a.entries.Keys + b.entries.Keys)|
    ensures |KeysBefore(a, b, Sorted(a.entries.Keys + b.entries.Keys)[i])| == i
  {
    hide Before;
    var r := Sorted(a.entries.Keys + b.entries.Keys);
    FrontSize(r, i);
    forall x
      ensures x in KeysBefore(a, b, r[i]) <==> x in Front(r, i)
    {
      if x in r {
        FrontIsBefore(r, i, x);
      }
    }
    assert KeysBefore(a, b, r[i]) == Front(r, i);
  }

  /** The i-th item of a pair is at its i-th step. */
  lemma ItemIsAtStep(l: Obj, r: Obj, i: nat) returns (step: Step)
    requires IsContainer(l) && KindOf(l) == KindOf(r) && i < |Items(l, r)|
    ensures IsStep(l, r, i, step)
    ensures match Items(l, r)[i]
      case Both(x, y) => StepInto(l, step) == Some(x) && StepInto(r, step) == Some(y)
      case OnlyLeft(x) => StepInto(l, step) == Some(x) && StepInto(r, step) == None
      case OnlyRight(y) => StepInto(l, step) == None && StepInto(r, step) == Some(y)
  {
    if l.Array? {
      step := Index(i);
    } else {
      var keys := Sorted(Fields(l).Keys + Fields(r).Keys);
      step := Key(keys[i]);
      assert keys[i] in keys;
      SortedPlace(l, r, i);
    }
  }

  /** Every step that either side has is that of an item. */
  lemma StepHasItem(l: Obj, r: Obj, step: Step) returns (i: nat)
    requires IsContainer(l) && KindOf(l) == KindOf(r) && (StepInto(l, step).Some? || StepInto(r, step).Some?)
    ensures i < |Items(l, r)| && IsStep(l, r, i, step)
  {
    match step
    case Index(j) => i := j;
    case Key(k) =>
      var keys := Sorted(Fields(l).Keys + Fields(r).Keys);
      assert k in keys;
      i :| 0 <= i < |keys| && keys[i] == k;
      SortedPlace(l, r, i);
  }

  // The nodes of a walk.

  /** A child is that of its item. */
  lemma {:induction false} KidIsItems(d: Docs, items: seq<Item>, n: nat, i: nat, depth: nat, lp: set<RefKey>,
                                      rp: set<RefKey>, pairs: set<RefPair>) returns (before: set<RefPair>)
    requires i < n <= |items| && depth <= MAX_RESOLVE_DEPTH
    ensures var k := Kids(d, items, n, depth, lp, rp, pairs);
      |k.nodes| == n && k.nodes[i] == ItemNode(d, items[i], depth, lp, rp, before).node
    decreases n
  {
    hide ItemNode;
    KidsCount(d, items, n - 1, depth, lp, rp, pairs);
    if i < n - 1 {
      before := KidIsItems(d, items, n - 1, i, depth, lp, rp, pairs);
    } else {
      before := Kids(d, items, n - 1, depth, lp, rp, pairs).pairs;
    }
  }

  lemma {:induction false} KidsCount(d: Docs, items: seq<Item>, n: nat, depth: nat, lp: set<RefKey>, rp: set<RefKey>,
                                     pairs: set<RefPair>)
    requires n <= |items| && depth <= MAX_RESOLVE_DEPTH
    ensures |Kids(d, items, n, depth, lp, rp, pairs).nodes| == n
    decreases n
  {
    if n > 0 {
      KidsCount(d, items, n - 1, depth, lp, rp, pairs);
    }
  }

  /** n is the reconciled node of a walk of l and r. */
  ghost predicate Walked(d: Docs, l: Obj, r: Obj, n: Node, entered: set<RefPair>) {
    exists depth: nat, lp: set<RefKey>, rp: set<RefKey>, pairs: set<RefPair> ::
      depth <= MAX_RESOLVE_DEPTH && n == Reconcile(Present(d, l, r, depth, lp, rp, pairs).node, entered)
  }

  /** n compares l and r by their texts only. */
  ghost predicate Summed(l: Obj, r: Obj, n: Node) {
    n.children == [] && n.kind == KRef && n.status == if Compare(l) == Compare(r) then Unchanged else Changed
  }

  /** What a child of a walked node is, by what stands at its step on either side. */
  ghost predicate ChildFits(d: Docs, a: Option<Obj>, b: Option<Obj>, c: Node, entered: set<RefPair>) {
    match (a, b)
    case (Some(x), Some(y)) => Walked(d, x, y, c, entered) || Summed(x, y, c)
    case (Some(_), None) => c.status == Removed && c.children == []
    case (None, Some(_)) => c.status == Added && c.children == []
    case _ => false
  }

  lemma WalkedBy(d: Docs, l: Obj, r: Obj, depth: nat, lp: set<RefKey>, rp: set<RefKey>, pairs: set<RefPair>,
                 entered: set<RefPair>)
    requires depth <= MAX_RESOLVE_DEPTH
    ensures Walked(d, l, r, Reconcile(Present(d, l, r, depth, lp, rp, pairs).node, entered), entered)
  {
    hide Present, Reconcile;
  }

  lemma ReconcileKeeps(n: Node, entered: set<RefPair>)
    ensures var m := Reconcile(n, entered);
      && m.status == n.status && m.kind == n.kind && |m.children| == |n.children|
      && forall i :: 0 <= i < |n.children| ==> m.children[i].status == n.children[i].status
  {
  }

  /** A child of a walked pair: walked itself, compared by its text, or on one side only. */
  lemma ItemFits(d: Docs, item: Item, depth: nat, lp: set<RefKey>, rp: set<RefKey>, pairs: set<RefPair>,
                 entered: set<RefPair>)
    requires depth <= MAX_RESOLVE_DEPTH
    ensures var c := Reconcile(ItemNode(d, item, depth, lp, rp, pairs).node, entered);
      match item
      case Both(x, y) => ChildFits(d, Some(Deref(d.left, x)), Some(Deref(d.right, y)), c, entered)
      case OnlyLeft(x) => ChildFits(d, Some(Deref(d.left, x)), None, c, entered)
      case OnlyRight(y) => ChildFits(d, None, Some(Deref(d.right, y)), c, entered)
  {
    hide Present, Compare;
    if item.Both? {
      var l, r := item.l, item.r;
      var l', r' := Deref(d.left, l), Deref(d.right, r);
      var n := Child(d, l, r, depth, lp, rp, pairs).node;
      if (l.Ref? && KeyOf(l) in lp) || (r.Ref? && KeyOf(r) in rp) || depth == MAX_RESOLVE_DEPTH
         || (l.Ref? && r.Ref? && (KeyOf(l), KeyOf(r)) in pairs) {
        assert Summed(l', r', Reconcile(n, entered));
      } else {
        var lp', rp' := if l.Ref? then lp + {KeyOf(l)} else lp, if r.Ref? then rp + {KeyOf(r)} else rp;
        var pairs' := if l.Ref? && r.Ref? then pairs + {(KeyOf(l), KeyOf(r))} else pairs;
        assert n == Present(d, l', r', depth + 1, lp', rp', pairs').node;
        WalkedBy(d, l', r', depth + 1, lp', rp', pairs', entered);
      }
    }
  }

  lemma ChildAtStep(d: Docs, l: Obj, r: Obj, n: Node, entered: set<RefPair>, i: nat, step: Step)
    requires Walked(d, l, r, n, entered) && i < |n.children| && IsStep(l, r, i, step)
    ensures KindOf(l) == KindOf(r) && IsContainer(l) && |n.children| == |Items(l, r)|
    ensures ChildFits(d, Onward(d.left, Some(l), step), Onward(d.right, Some(r), step), n.children[i], entered)
  {
    hide Items, Kids, ItemNode, ChildFits, Compare;
    var depth: nat, lp: set<RefKey>, rp: set<RefKey>, pairs: set<RefPair> :|
      depth <= MAX_RESOLVE_DEPTH && n == Reconcile(Present(d, l, r, depth, lp, rp, pairs).node, entered);
    var items := Items(l, r);
    KidsCount(d, items, |items|, depth, lp, rp, pairs);
    var before := KidIsItems(d, items, |items|, i, depth, lp, rp, pairs);
    ItemFits(d, items[i], depth, lp, rp, before, entered);
    var own := ItemIsAtStep(l, r, i);
    StepIsOne(l, r, i, i, own, step);
  }

  lemma WalkedCovers(d: Docs, l: Obj, r: Obj, n: Node, entered: set<RefPair>)
    requires Walked(d, l, r, n, entered) && KindOf(l) == KindOf(r) && IsContainer(l)
    ensures CoversSteps(l, r, n)
  {
    hide Items, Kids, Compare, IsStep;
    var depth: nat, lp: set<RefKey>, rp: set<RefKey>, pairs: set<RefPair> :|
      depth <= MAX_RESOLVE_DEPTH && n == Reconcile(Present(d, l, r, depth, lp, rp, pairs).node, entered);
    var items := Items(l, r);
    KidsCount(d, items, |items|, depth, lp, rp, pairs);
    forall step | StepInto(l, step).Some? || StepInto(r, step).Some?
      ensures exists i :: 0 <= i < |n.children| && IsStep(l, r, i, step)
    {
      var i := StepHasItem(l, r, step);
    }
    forall i | 0 <= i < |n.children|
      ensures HasStep(l, r, i)
    {
      var step := ItemIsAtStep(l, r, i);
    }
  }

  /** Keys and elements one by one: without any, two containers of one kind have one text. */
  lemma EmptyText(l: Obj, r: Obj)
    requires KindOf(l) == KindOf(r) && IsContainer(l) && Items(l, r) == []
    ensures Compare(l) == Compare(r)
  {
    if !l.Array? {
      var all := Fields(l).Keys + Fields(r).Keys;
      assert forall k :: k in all ==> k in Sorted(all);
      assert Fields(l).Keys == {} && Fields(r).Keys == {};
      assert Fields(l) == map[] == Fields(r);
    }
  }

  lemma WalkedTells(d: Docs, l: Obj, r: Obj, n: Node, entered: set<RefPair>)
    requires Walked(d, l, r, n, entered)
    ensures Tells(Some(l), Some(r), n) && (KindOf(l) == KindOf(r) && IsContainer(l) ==> CoversSteps(l, r, n))
  {
    hide Items, Kids, Compare, CoversSteps, Reconcile;
    var depth: nat, lp: set<RefKey>, rp: set<RefKey>, pairs: set<RefPair> :|
      depth <= MAX_RESOLVE_DEPTH && n == Reconcile(Present(d, l, r, depth, lp, rp, pairs).node, entered);
    var own := Present(d, l, r, depth, lp, rp, pairs).node;
    ReconcileKeeps(own, entered);
    if KindOf(l) == KindOf(r) && IsContainer(l) {
      var items := Items(l, r);
      KidsCount(d, items, |items|, depth, lp, rp, pairs);
      WalkedCovers(d, l, r, n, entered);
      if items == [] {
        EmptyText(l, r);
      }
    }
  }

  /** Every node of a diff tells truly what stands at its path, and a walked pair of containers has a node for each key
      or index of either. */
  lemma {:induction false} NodeTells(d: Docs, l: Obj, r: Obj, n: Node, entered: set<RefPair>, path: seq<Step>, m: Node)
    requires Walked(d, l, r, n, entered) || Summed(l, r, n)
    requires StandsAt(d, Some(l), Some(r), n, path, m)
    ensures var a, b := Follow(d.left, l, path), Follow(d.right, r, path);
      && Tells(a, b, m)
      && (a.Some? && b.Some? && m.kind != KRef && KindOf(a.value) == KindOf(b.value) && IsContainer(a.value) ==>
            CoversSteps(a.value, b.value, m))
    decreases |path|
  {
    hide Walked, CoversSteps, Compare, IsStep;
    if path == [] {
      if Walked(d, l, r, n, entered) {
        WalkedTells(d, l, r, n, entered);
      }
    } else {
      var step, rest := path[0], path[1..];
      var i :| 0 <= i < |n.children| && IsStep(l, r, i, step)
        && StandsAt(d, Onward(d.left, Some(l), step), Onward(d.right, Some(r), step), n.children[i], rest, m);
      var a, b := Onward(d.left, Some(l), step), Onward(d.right, Some(r), step);
      ChildAtStep(d, l, r, n, entered, i, step);
      if a.Some? && b.Some? {
        NodeTells(d, a.value, b.value, n.children[i], entered, rest, m);
      } else {
        assert rest == [] && m == n.children[i];
      }
    }
  }

  /** Every node of the tree tells truly what stands at its path from the values l and r. */
  ghost predicate IsTold(d: Docs, l: Obj, r: Obj, root: Node) {
    forall path, m :: StandsAt(d, Some(l), Some(r), root, path, m) ==>
      var a, b := Follow(d.left, l, path), Follow(d.right, r, path);
      && Tells(a, b, m)
      && (a.Some? && b.Some? && m.kind != KRef && KindOf(a.value) == KindOf(b.value) && IsContainer(a.value) ==>
            CoversSteps(a.value, b.value, m))
  }

  lemma WalkIsTold(d: Docs, l: Obj, r: Obj, lcat: Option<RefKey>, rcat: Option<RefKey>, entered: set<RefPair>)
    ensures IsTold(d, l, r, Reconcile(Walk(d, l, r, lcat, rcat).node, entered))
  {
    hide StandsAt, Tells, CoversSteps, Present, Reconcile, Walked, Summed;
    var root := Reconcile(Walk(d, l, r, lcat, rcat).node, entered);
    WalkedBy(d, l, r, 0, Start(lcat), Start(rcat), {}, entered);
    forall path, m | StandsAt(d, Some(l), Some(r), root, path, m)
      ensures var a, b := Follow(d.left, l, path), Follow(d.right, r, path);
        && Tells(a, b, m)
        && (a.Some? && b.Some? && m.kind != KRef && KindOf(a.value) == KindOf(b.value) && IsContainer(a.value) ==>
              CoversSteps(a.value, b.value, m))
    {
      NodeTells(d, l, r, root, entered, path, m);
    }
  }

  // The tally.

  /** All nodes of a tree, each before those below it. */
  function AllNodes(n: Node): seq<Node>
    decreases n, 1
  {
    [n] + AllOf(n.children)
  }

  function AllOf(nodes: seq<Node>): seq<Node>
    decreases nodes, 0
  {
    if nodes == [] then [] else AllNodes(nodes[0]) + AllOf(nodes[1..])
  }

  /** The summary counts, over all nodes, those added, those removed, the leaves that changed and the truncated ones. */
  ghost predicate TallyOf(nodes: seq<Node>, t: Tally) {
    && t.added == |set i | 0 <= i < |nodes| && nodes[i].status == Added|
    && t.removed == |set i | 0 <= i < |nodes| && nodes[i].status == Removed|
    && t.changed == |set i | 0 <= i < |nodes| && nodes[i].status == Changed && nodes[i].children == []|
    && t.truncated == |set i | 0 <= i < |nodes| && nodes[i].truncated|
  }

  /** The places in a list where p holds. */
  function Places(nodes: seq<Node>, p: Node -> bool): set<nat> {
    set i | 0 <= i < |nodes| && p(nodes[i])
  }

  lemma PlacesJoin(a: seq<Node>, b: seq<Node>, p: Node -> bool)
    ensures |Places(a + b, p)| == |Places(a, p)| + |Places(b, p)|
    decreases |b|
  {
    if b == [] {
      assert a + b == a && Places(b, p) == {};
    } else {
      var n := |b| - 1;
      var last := b[n];
      PlacesJoin(a, b[..n], p);
      assert a + b == (a + b[..n]) + [last] && b == b[..n] + [last];
      LastPlace(a + b[..n], last, p);
      LastPlace(b[..n], last, p);
    }
  }

  lemma LastPlace(a: seq<Node>, x: Node, p: Node -> bool)
    ensures |Places(a + [x], p)| == |Places(a, p)| + if p(x) then 1 else 0
  {
    var c := a + [x];
    if p(x) {
      assert Places(c, p) == Places(a, p) + {|a|};
    } else {
      assert Places(c, p) == Places(a, p);
    }
  }

  lemma {:induction false} CountIsPlaces(n: Node, p: Node -> bool)
    ensures CountNodes(n, p) == |Places(AllNodes(n), p)|
    decreases n, 1
  {
    FirstIsPlaces(n.children, p);
    PlacesJoin([n], AllOf(n.children), p);
    assert [] + [n] == [n];
    LastPlace([], n, p);
  }

  lemma {:induction false} FirstIsPlaces(nodes: seq<Node>, p: Node -> bool)
    ensures CountFirst(nodes, |nodes|, p) == |Places(AllOf(nodes), p)|
    decreases nodes, 0
  {
    hide Places, CountNodes;
    if nodes == [] {
      NoPlaces(p);
    } else {
      CountIsPlaces(nodes[0], p);
      FirstIsPlaces(nodes[1..], p);
      PlacesJoin(AllNodes(nodes[0]), AllOf(nodes[1..]), p);
      CountShifts(nodes, |nodes|, p);
    }
  }

  lemma NoPlaces(p: Node -> bool)
    ensures Places([], p) == {}
  {
  }

  lemma {:induction false} CountShifts(nodes: seq<Node>, n: nat, p: Node -> bool)
    requires 0 < n <= |nodes|
    ensures CountFirst(nodes, n, p) == CountNodes(nodes[0], p) + CountFirst(nodes[1..], n - 1, p)
  {
    hide CountNodes;
    if n > 1 {
      CountShifts(nodes, n - 1, p);
      assert nodes[1..][n - 2] == nodes[n - 1];
    } else {
      assert CountFirst(nodes, 0, p) == 0 == CountFirst(nodes[1..], 0, p);
    }
  }

  lemma CountIsTally(n: Node)
    ensures TallyOf(AllNodes(n), Count(n))
  {
    hide CountNodes, AllNodes;
    var all := AllNodes(n);
    CountIsPlaces(n, IS_ADDED);
    CountIsPlaces(n, IS_REMOVED);
    CountIsPlaces(n, IS_CHANGED_LEAF);
    CountIsPlaces(n, IS_TRUNCATED);
    assert Places(all, IS_ADDED) == set i | 0 <= i < |all| && all[i].status == Added;
    assert Places(all, IS_REMOVED) == set i | 0 <= i < |all| && all[i].status == Removed;
    assert Places(all, IS_CHANGED_LEAF) == set i | 0 <= i < |all| && all[i].status == Changed && all[i].children == [];
    assert Places(all, IS_TRUNCATED) == set i | 0 <= i < |all| && all[i].truncated;
  }
}
