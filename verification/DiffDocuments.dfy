/** The structural diff as the program runs it, with its visited sets updated in place, proved to compute
    the walk; and the input that shows why the cut pairs matter. */
module DiffDocuments {
  import opened PdfObjects
  import opened DiffWalk
  import opened DiffSound
  import opened DiffPaths

  class DiffContext {
    const docs: Docs
    var visitedPairs: set<RefPair>
    var leftVisited: set<RefKey>
    var rightVisited: set<RefKey>
    var summary: Tally
    /** The pairs in the order they were entered. */
    ghost var entered: seq<RefPair>

    constructor (docs: Docs, lcat: Option<RefKey>, rcat: Option<RefKey>)
      ensures this.docs == docs && visitedPairs == {} && entered == [] && summary == NO_DELTA
      ensures leftVisited == Start(lcat) && rightVisited == Start(rcat)
    {
      this.docs := docs;
      visitedPairs, leftVisited, rightVisited := {}, Start(lcat), Start(rcat);
      summary, entered := NO_DELTA, [];
    }

    /** Every visited pair was entered once. */
    ghost predicate EnteredOnce()
      reads this`visitedPairs, this`entered
    {
      && (forall p :: p in entered <==> p in visitedPairs)
      && (forall i, j :: 0 <= i < j < |entered| ==> entered[i] != entered[j])
    }

    method DiffPresent(l: Obj, r: Obj, depth: nat) returns (n: Node)
      requires depth <= MAX_RESOLVE_DEPTH && EnteredOnce()
      modifies this`visitedPairs, this`leftVisited, this`rightVisited, this`entered
      ensures var o := Present(docs, l, r, depth, old(leftVisited), old(rightVisited), old(visitedPairs));
              n == o.node && visitedPairs == o.pairs
      ensures leftVisited == old(leftVisited) && rightVisited == old(rightVisited) && EnteredOnce()
      decreases MAX_RESOLVE_DEPTH - depth, 1
    {
      hide Compare, Child, Items, EnteredOnce;
      if KindOf(l) != KindOf(r) {
        return Node(Changed, KindOf(r), false, None, []);
      }
      if !IsContainer(l) {
        return Leaf(KindOf(l), l, r);
      }
      var items := Items(l, r);
      var children: seq<Node> := [];
      var changed := false;
      for i := 0 to |items|
        invariant var k := Kids(docs, items, i, depth, old(leftVisited), old(rightVisited), old(visitedPairs));
                  children == k.nodes && visitedPairs == k.pairs
        invariant changed == !AllUnchanged(children)
        invariant leftVisited == old(leftVisited) && rightVisited == old(rightVisited) && EnteredOnce()
      {
        var child;
        match items[i] {
          case Both(lv, rv) => child := DiffChild(lv, rv, depth);
          case OnlyLeft(lv) => child := Node(Removed, KindOf(Deref(docs.left, lv)), false, None, []);
          case OnlyRight(rv) => child := Node(Added, KindOf(Deref(docs.right, rv)), false, None, []);
        }
        AppendUnchanged(children, child);
        children := children + [child];
        changed := changed || child.status != Unchanged;
      }
      n := Node(if changed then Changed else Unchanged, KindOf(l), false, None, children);
    }

    method DiffChild(l: Obj, r: Obj, depth: nat) returns (n: Node)
      requires depth <= MAX_RESOLVE_DEPTH && EnteredOnce()
      modifies this`visitedPairs, this`leftVisited, this`rightVisited, this`entered
      ensures var o := Child(docs, l, r, depth, old(leftVisited), old(rightVisited), old(visitedPairs));
              n == o.node && visitedPairs == o.pairs
      ensures leftVisited == old(leftVisited) && rightVisited == old(rightVisited) && EnteredOnce()
      decreases MAX_RESOLVE_DEPTH - depth, 0
    {
      hide Compare, Present;
      var l', r' := Deref(docs.left, l), Deref(docs.right, r);
      if (l.Ref? && KeyOf(l) in leftVisited) || (r.Ref? && KeyOf(r) in rightVisited) {
        return Leaf(KRef, l', r');
      }
      if depth + 1 > MAX_RESOLVE_DEPTH {
        n := Leaf(KRef, l', r');
        n := n.(truncated := true);
        if l.Ref? && r.Ref? {
          n := n.(capPair := Some((KeyOf(l), KeyOf(r))));
        }
        return;
      }
      if l.Ref? && r.Ref? {
        var pair := (KeyOf(l), KeyOf(r));
        if pair in visitedPairs {
          return Leaf(KRef, l', r');
        }
        visitedPairs := visitedPairs + {pair};
        entered := entered + [pair];
      }
      if l.Ref? {
        leftVisited := leftVisited + {KeyOf(l)};
      }
      if r.Ref? {
        rightVisited := rightVisited + {KeyOf(r)};
      }
      n := DiffPresent(l', r', depth + 1);
      if l.Ref? {
        leftVisited := leftVisited - {KeyOf(l)};
      }
      if r.Ref? {
        rightVisited := rightVisited - {KeyOf(r)};
      }
    }

    /** Adds the delta points of the tree n to the summary. */
    method CountDelta(n: Node)
      modifies this`summary
      ensures summary == Plus(old(summary), Count(n))
      decreases n
    {
      hide CountNodes;
      CountUnfold(n);
      if n.truncated {
        summary := summary.(truncated := summary.truncated + 1);
      }
      match n.status {
        case Added => summary := summary.(added := summary.added + 1);
        case Removed => summary := summary.(removed := summary.removed + 1);
        case Changed =>
          if |n.children| == 0 {
            summary := summary.(changed := summary.changed + 1);
          }
        case Unchanged =>
      }
      ghost var own := summary;
      for i := 0 to |n.children|
        invariant summary == Plus(own, CountUpTo(n.children, i))
      {
        CountDelta(n.children[i]);
      }
    }

    /** Diffs two documents from their catalogs.  Every node says truly which side has a value at its path, each key or
        index has its node, and the summary counts the nodes.  With nothing to report, the documents agree along every
        path if and only if each pair cut as a cycle is one the walk accounts for or has targets that agree. */
    method Diff(l: Obj, r: Obj, lcat: Option<RefKey>, rcat: Option<RefKey>) returns (root: Node)
      requires visitedPairs == {} && entered == [] && summary == NO_DELTA
      requires leftVisited == Start(lcat) && rightVisited == Start(rcat)
      modifies this
      ensures var o := Walk(docs, l, r, lcat, rcat);
              root == Reconcile(o.node, o.pairs) && summary == Count(root) && visitedPairs == o.pairs
      ensures EnteredOnce() && IsTold(docs, l, r, root) && TallyOf(AllNodes(root), summary)
      ensures summary == NO_DELTA && IsCatalog(docs.left, l, lcat) && IsCatalog(docs.right, r, rcat) ==>
                var o := Walk(docs, l, r, lcat, rcat);
                Agree(docs, l, r) <==> CutsAccepted(docs, o.cuts, AccountedFor(o, lcat, rcat))
    {
      hide Present, Count, Compare, Agree, IsCatalog, CutsAccepted, AccountedFor, Reconcile, Plus, Start;
      hide IsTold, TallyOf, AllNodes;
      root := DiffPresent(l, r, 0);
      root := Reconcile(root, visitedPairs);
      CountDelta(root);
      SumFromNothing(Count(root));
      CountIsTally(root);
      WalkIsTold(docs, l, r, lcat, rcat, visitedPairs);
      DiffIsSound(docs, l, r, lcat, rcat);
    }
  }

  lemma DiffIsSound(d: Docs, l: Obj, r: Obj, lcat: Option<RefKey>, rcat: Option<RefKey>)
    ensures var o := Walk(d, l, r, lcat, rcat);
            Count(Reconcile(o.node, o.pairs)) == NO_DELTA
            && IsCatalog(d.left, l, lcat) && IsCatalog(d.right, r, rcat) ==>
              (Agree(d, l, r) <==> CutsAccepted(d, o.cuts, AccountedFor(o, lcat, rcat)))
  {
    hide Agree, Present, IsCatalog, CutsAccepted, Count, Reconcile;
    var o := Walk(d, l, r, lcat, rcat);
    if Clean(o.node, o.pairs) && IsCatalog(d.left, l, lcat) && IsCatalog(d.right, r, rcat) {
      CleanDocumentsAgree(d, l, r, lcat, rcat);
    }
  }

  lemma AppendUnchanged(nodes: seq<Node>, n: Node)
    ensures AllUnchanged(nodes + [n]) == (AllUnchanged(nodes) && n.status == Unchanged)
  {
    assert (nodes + [n])[|nodes|] == n;
    assert forall i :: 0 <= i < |nodes| ==> (nodes + [n])[i] == nodes[i];
  }

  lemma SumFromNothing(t: Tally)
    ensures Plus(NO_DELTA, t) == t
  {
  }

  function CountUpTo(nodes: seq<Node>, n: nat): Tally
    requires n <= |nodes|
  {
    Tally(CountFirst(nodes, n, IS_ADDED), CountFirst(nodes, n, IS_REMOVED), CountFirst(nodes, n, IS_CHANGED_LEAF),
          CountFirst(nodes, n, IS_TRUNCATED))
  }

  lemma CountUnfold(n: Node)
    ensures Count(n) == Plus(Tally(if n.status == Added then 1 else 0, if n.status == Removed then 1 else 0,
                                   if n.status == Changed && |n.children| == 0 then 1 else 0,
                                   if n.truncated then 1 else 0),
                             CountUpTo(n.children, |n.children|))
  {
  }

  /** The left catalog refers to itself; the right one to a copy whose entry differs one level further down. */
  const LOOP: Store := map[1 := Dict(map["A" := Ref(1, 0)])]
  const UNROLLED: Store :=
    map[1 := Dict(map["A" := Ref(2, 0)]), 2 := Dict(map["A" := Ref(3, 0)]), 3 := Dict(map["B" := Scalar("x")])]

  /** The walk cuts the left loop against an object the right side has not entered, compares the two by their
      summaries only, and reports nothing; yet the documents differ along /A/A. */
  lemma BackEdgeHidesChange()
    ensures var d := Docs(LOOP, UNROLLED);
            var o := Walk(d, LOOP[1], UNROLLED[1], Some((1, 0)), Some((1, 0)));
            && Count(Reconcile(o.node, o.pairs)) == NO_DELTA
            && o.cuts == [(Ref(1, 0), Ref(2, 0))]
            && !CutsAccepted(d, o.cuts, AccountedFor(o, Some((1, 0)), Some((1, 0))))
            && !AgreeAlong(d, LOOP[1], UNROLLED[1], [Key("A"), Key("A")])
  {
    hide Compare;
    var d := Docs(LOOP, UNROLLED);
    var l, r := LOOP[1], UNROLLED[1];
    LoopItems();
    LoopSummaries();
    var items := [Both(Ref(1, 0), Ref(2, 0))];
    var lp: set<RefKey> := {(1, 0)};
    var c := Child(d, Ref(1, 0), Ref(2, 0), 0, lp, lp, {});
    assert c == Out(Leaf(KRef, l, UNROLLED[2]), {}, [(Ref(1, 0), Ref(2, 0))], [(l, UNROLLED[2])]);
    assert Kids(d, items, 0, 0, lp, lp, {}) == KidsOut([], {}, [], []);
    assert Kids(d, items, 1, 0, lp, lp, {}) == KidsOut([c.node], {}, c.cuts, c.summed);
    var o := Walk(d, l, r, Some((1, 0)), Some((1, 0)));
    assert o == Out(Node(Unchanged, KDict, false, None, [c.node]), {}, c.cuts, c.summed);
    assert Reconcile(c.node, {}) == c.node;
    assert Reconcile(o.node, {}) == o.node;
    LoopCount(c.node);
    LoopPaths();
    assert AccountedFor(o, Some((1, 0)), Some((1, 0))) == {((1, 0), (1, 0))};
    assert o.cuts[0] == (Ref(1, 0), Ref(2, 0));
    CutDisagrees();
    assert !Accepted(d, o.cuts[0].0, o.cuts[0].1, AccountedFor(o, Some((1, 0)), Some((1, 0))));
  }

  lemma LoopItems()
    ensures Items(LOOP[1], UNROLLED[1]) == [Both(Ref(1, 0), Ref(2, 0))]
  {
    assert Fields(LOOP[1]).Keys + Fields(UNROLLED[1]).Keys == {"A"};
    SortedOne("A");
  }

  lemma LoopSummaries()
    ensures Compare(LOOP[1]) == Compare(UNROLLED[2])
  {
    var m, m' := LOOP[1].entries, UNROLLED[2].entries;
    assert m.Keys == {"A"} && m'.Keys == {"A"};
    SortedOne("A");
    assert EntriesText(m, ["A"], 0) == EntriesText(m', ["A"], 0);
    assert EntriesText(m, ["A"], 1) == EntriesText(m', ["A"], 1);
  }

  lemma CountsNothing(leaf: Node, root: Node, p: Node -> bool)
    requires leaf.children == [] && root.children == [leaf] && !p(leaf) && !p(root)
    ensures CountNodes(root, p) == 0
  {
    assert CountFirst(root.children, 0, p) == 0;
    assert CountNodes(leaf, p) == 0;
  }

  lemma LoopCount(leaf: Node)
    requires leaf == Node(Unchanged, KRef, false, None, [])
    ensures Count(Node(Unchanged, KDict, false, None, [leaf])) == NO_DELTA
  {
    hide CountNodes;
    var root := Node(Unchanged, KDict, false, None, [leaf]);
    CountsNothing(leaf, root, IS_ADDED);
    CountsNothing(leaf, root, IS_REMOVED);
    CountsNothing(leaf, root, IS_CHANGED_LEAF);
    CountsNothing(leaf, root, IS_TRUNCATED);
  }

  lemma LoopPaths()
    ensures !AgreeAlong(Docs(LOOP, UNROLLED), LOOP[1], UNROLLED[1], [Key("A"), Key("A")])
  {
    var a := Key("A");
    assert [a, a][1..] == [a] && [a][1..] == [];
    assert Follow(LOOP, LOOP[1], [a]) == Some(LOOP[1]);
    assert Follow(LOOP, LOOP[1], [a, a]) == Some(LOOP[1]);
    assert Follow(UNROLLED, UNROLLED[2], [a]) == Some(UNROLLED[3]);
    assert Follow(UNROLLED, UNROLLED[1], [a, a]) == Some(UNROLLED[3]);
    assert "A" in LOOP[1].entries.Keys;
  }

  lemma CutDisagrees()
    ensures !Agree(Docs(LOOP, UNROLLED), LOOP[1], UNROLLED[2])
  {
    var a := Key("A");
    assert [a][1..] == [];
    assert Follow(LOOP, LOOP[1], [a]) == Some(LOOP[1]);
    assert Follow(UNROLLED, UNROLLED[2], [a]) == Some(UNROLLED[3]);
    assert "A" in LOOP[1].entries.Keys;
    assert !AgreeAlong(Docs(LOOP, UNROLLED), LOOP[1], UNROLLED[2], [a]);
  }

  lemma SortedOne(k: string)
    ensures Sorted({k}) == [k]
  {
    var r := Sorted({k});
    assert k in r;
    assert forall i :: 0 <= i < |r| ==> r[i] in r;
    BeforeTotal(k, k);
  }
}
