/** The walk of the page tree that numbers its pages. */
module PageWalker {
  import opened PdfObjects
  import opened PageTree
  import opened PageLog
  import opened PageNumbers
  import PagePlan

  // The state of the walk.

  ghost function Nums(t: Tree, down: seq<Position>): set<nat> {
    set q | q in down && NumAt(t, q).Some? :: NumAt(t, q).value
  }

  ghost predicate OnPath(t: Tree, p: Position, down: seq<Position>, onPath: set<nat>) {
    && (forall q :: q < p ==> q in down)
    && forall n :: n in onPath <==> exists q :: q < p && NumAt(t, q) == Some(n)
  }

  class Walker {
    const tree: Tree
    var entries: seq<Row>
    var leaves: seq<Leaf>
    var onPath: set<nat>
    var walked: set<nat>
    var firstPage: map<nat, nat>
    var next: nat
    var depth: nat
    ghost var places: seq<Position>
    ghost var down: seq<Position>

    constructor (t: Tree)
      ensures tree == t && Valid() && onPath == {} && depth == 0
      ensures entries == [] && places == [] && down == []
    {
      tree, entries, leaves, onPath, walked, firstPage, next, depth := t, [], [], {}, {}, map[], 0, 0;
      places, down := [], [];
    }

    ghost function Log(): Log
      reads this
    {
      PageLog.Log(entries, places, down)
    }

    /** The account is faithful, the numbers are right, and the tables say what has been descended into. */
    ghost predicate Valid()
      reads this
    {
      && Faithful(tree, Log())
      && Numbered(tree, entries, places, leaves)
      && FirstsHold(entries, firstPage)
      && next == |leaves|
      && walked == Nums(tree, down)
    }

    /** The walk stands at position p, at its depth, with the nodes on the way there on its path. */
    ghost predicate StandsAt(p: Position)
      reads this
    {
      Valid() && Ready(Log(), p) && OnPath(tree, p, down, onPath) && depth == |p|
    }

    /** What every visit of a position does. */
    twostate predicate Visited(p: Position)
      reads this
    {
      && Valid()
      && Grown(old(Log()), Log(), p)
      && Covered(tree, Log(), p)
      && onPath == old(onPath) && depth == old(depth)
    }

    method AddProblem(ref: Option<RefKey>, trouble: Trouble, ghost p: Position)
      requires StandsAt(p) && RowHolds(tree, Problem(ref, trouble), p, down)
      modifies this
      ensures Visited(p)
    {
      hide Faithful, Numbered, FirstsHold, RowHolds, Ready, Grown, Covered, OnPath;
      AddRowKeeps(tree, Log(), p, Problem(ref, trouble));
      ProblemKeepsNumbers(tree, entries, places, leaves, firstPage, Problem(ref, trouble), p);
      entries := entries + [Problem(ref, trouble)];
      places := places + [p];
    }

    /** Visits the page tree from the catalog's entry; an entry that is no dictionary lists nothing. */
    method Walk()
      requires Valid() && onPath == {} && depth == 0 && entries == [] && places == [] && down == []
      modifies this
      ensures Valid()
      ensures DictAt(tree, []).Some? ==> Covered(tree, Log(), [])
      ensures DictAt(tree, []).None? ==> entries == [] && leaves == []
      ensures PagePlan.ListsPlans(tree, entries, leaves)
    {
      hide PagePlan.ListsPlans;
      hide Faithful, FirstsHold, Covered, Grown, KindOf;
      var root := DictOf(tree.store, tree.root);
      if root.None? {
        PagePlan.PlansAreListed(tree, Log(), leaves);
        return;
      }
      VisitNode(root.value, RefOf(tree.root), [NO_ATTR, NO_ATTR, NO_ATTR, NO_ATTR], []);
      PagePlan.PlansAreListed(tree, Log(), leaves);
    }

    /** Lists a page, descends into an intermediate node, or notes one without kids. */
    method VisitNode(d: map<string, Obj>, ref: Option<RefKey>, inherited: seq<Attr>, ghost p: Position)
      requires StandsAt(p) && DictAt(tree, p) == Some(d) && ref == RefOf(At(tree, p).value)
      requires inherited == AttrsAbove(tree, p) && (ref.Some? ==> ref.value.0 !in onPath)
      modifies this
      ensures Visited(p)
      decreases MAX_PAGE_TREE_DEPTH - |p|, 2
    {
      hide Faithful, Numbered, FirstsHold, Covered, Grown, Ready, OnPath, At, DictAt, AttrsAbove;
      match KindOf(tree.store, d) {
        case PageNode => VisitLeaf(d, ref, inherited, p);
        case Intermediate => VisitIntermediate(d, ref, inherited, p);
        case Hollow =>
          HollowNode(tree, p, d, ref, down);
          AddProblem(ref, NoKids, p);
      }
    }

    /** Visits each kid in order, unless the node is too deep or was met before. */
    method VisitIntermediate(d: map<string, Obj>, ref: Option<RefKey>, inherited: seq<Attr>, ghost p: Position)
      requires StandsAt(p) && DictAt(tree, p) == Some(d) && ref == RefOf(At(tree, p).value)
      requires inherited == AttrsAbove(tree, p) && (ref.Some? ==> ref.value.0 !in onPath)
      requires KindOf(tree.store, d) == Intermediate
      modifies this
      ensures Visited(p)
      decreases MAX_PAGE_TREE_DEPTH - |p|, 1
    {
      hide Faithful, Numbered, FirstsHold, Covered, Grown, Ready, OnPath, At, DictAt, AttrsAbove, KindOf, Nums,
           RowHolds,
        KindAt, SameNode, AttrsAt, Pick, KidsAt, RefOf, NumAt, Earlier;
      RefIsNum(tree, p, d, ref);
      if depth >= MAX_PAGE_TREE_DEPTH {
        DeepNode(tree, p, d, ref, down);
        AddProblem(ref, TooDeep, p);
        return;
      }
      if ref.Some? && ref.value.0 in walked {
        MetBefore(tree, Log(), p, onPath, ref.value.0);
        SharedNode(tree, p, d, ref, down);
        AddProblem(ref, Shared, p);
        return;
      }
      ghost var start := Log();
      NewNode(tree, Log(), p, walked);
      KidsMean(tree, p, d);
      Enter(ref, p);
      var list := Lookup(tree.store, Own(d, "Kids"));
      if list.None? || !list.value.Array? {
        var row := Problem(ref, KidsNotAnArray);
        HollowRow(tree, p, d, ref, down);
        AddHollowKeeps(tree, start, p, row);
        ProblemKeepsNumbers(tree, entries, places, leaves, firstPage, row, p);
        entries := entries + [row];
        places := places + [p];
      } else {
        var frame, _ := EffectiveAttrs(d, ref, inherited);
        FrameIsAttrs(tree, p, d, ref, inherited, frame);
        EnterKids(tree, start, p, ref, old(onPath), onPath);
        VisitKids(list.value.elems, frame, p);
        GrownTwice(start, Descend(start, p), Log(), p, p);
      }
      if ref.Some? {
        onPath := onPath - {ref.value.0};
      }
      depth := depth - 1;
    }

    /** Marks a node as descended into and on the path. */
    method Enter(ref: Option<RefKey>, ghost p: Position)
      requires StandsAt(p) && KindAt(tree, p, Intermediate)
      requires NumAt(tree, p) == if ref.Some? then Some(ref.value.0) else None
      requires forall q :: q in down ==> !SameNode(tree, q, p)
      modifies `depth, `walked, `onPath, `down
      ensures Valid() && Log() == Descend(old(Log()), p) && Grown(old(Log()), Log(), p)
      ensures depth == old(depth) + 1
      ensures onPath == if ref.Some? then old(onPath) + {ref.value.0} else old(onPath)
    {
      hide Faithful, Numbered, FirstsHold, Grown, Ready, OnPath, At, KindAt, SameNode, Nums;
      DescendKeeps(tree, Log(), p);
      DescendNums(tree, down, p, walked);
      depth := depth + 1;
      if ref.Some? {
        walked := walked + {ref.value.0};
        onPath := onPath + {ref.value.0};
      }
      down := down + [p];
    }

    method VisitKids(kids: seq<Obj>, frame: seq<Attr>, ghost p: Position)
      requires StandsAt(p + [0]) && KidsAt(tree, p) == Some(kids) && frame == AttrsAt(tree, p)
      requires down != [] && down[|down| - 1] == p && |p| < MAX_PAGE_TREE_DEPTH
      modifies this
      ensures Visited(p)
      decreases MAX_PAGE_TREE_DEPTH - |p|, 0
    {
      hide Faithful, Numbered, FirstsHold, Covered, Grown, Ready, OnPath, At, DictAt, AttrsAbove, KindOf, Nums;
      ghost var start := Log();
      GrownNothing(start, p);
      for i := 0 to |kids|
        invariant StandsAt(p + [i]) && onPath == old(onPath)
        invariant Grown(start, Log(), p)
        invariant forall k :: 0 <= k < i ==> Covered(tree, Log(), p + [k])
      {
        ghost var before := Log();
        KidIsAt(tree, p, kids, i, frame);
        VisitKid(kids[i], frame, p + [i]);
        KidsGo(tree, start, before, Log(), p, i, onPath);
      }
      GrownDown(start, Log(), p);
      CoveredByKids(tree, Log(), p, kids);
    }

    /** One kid: a reference up the path, to nothing or to no dictionary, and a value that is no dictionary, are
        noted; a dictionary is visited. */
    method VisitKid(kid: Obj, inherited: seq<Attr>, ghost p: Position)
      requires StandsAt(p) && At(tree, p) == Some(kid) && inherited == AttrsAbove(tree, p)
      modifies this
      ensures Visited(p)
      decreases MAX_PAGE_TREE_DEPTH - |p|, 3
    {
      hide Faithful, Numbered, FirstsHold, Covered, Grown, Ready, At, AttrsAbove, KindOf, Nums;
      if kid.Null? {
        AddProblem(None, NullKid, p);
        return;
      }
      if !kid.Ref? {
        if kid.Dict? {
          VisitNode(kid.entries, None, inherited, p);
          return;
        }
        AddProblem(None, NotADictionary, p);
        return;
      }
      var ref := Some((kid.num, kid.gen));
      if kid.num in onPath {
        OnPathIsCycle(tree, p, down, onPath, kid);
        AddProblem(ref, Cycle, p);
        return;
      }
      var resolved := Lookup(tree.store, kid);
      if resolved.None? {
        AddProblem(ref, Dangling, p);
        return;
      }
      if !resolved.value.Dict? {
        AddProblem(ref, NotADictionary, p);
        return;
      }
      VisitNode(resolved.value.entries, ref, inherited, p);
    }

    /** Numbers a page and records its leaf beside its row. */
    method VisitLeaf(d: map<string, Obj>, ref: Option<RefKey>, inherited: seq<Attr>, ghost p: Position)
      requires StandsAt(p) && DictAt(tree, p) == Some(d) && ref == RefOf(At(tree, p).value)
      requires inherited == AttrsAbove(tree, p) && KindOf(tree.store, d) == PageNode
      modifies this
      ensures Visited(p)
    {
      hide Faithful, Numbered, FirstsHold, Covered, Grown, Ready, OnPath, AttrsAbove, KindOf, Nums;
      next := next + 1;
      var eff, bits := EffectiveAttrs(d, ref, inherited);
      FrameIsAttrs(tree, p, d, ref, inherited, eff);
      var also := None;
      var firsts := firstPage;
      if ref.Some? {
        if ref.value.0 in firstPage {
          also := Some(firstPage[ref.value.0]);
        } else {
          firstPage := firstPage[ref.value.0 := next];
        }
      }
      var row := Page(next, ref, bits, Labels(eff), also);
      var leaf := Leaf(d, ref, eff);
      AddRowKeeps(tree, Log(), p, row);
      PageKeepsNumbers(tree, entries, places, leaves, firsts, row, p, leaf);
      leaves := leaves + [leaf];
      entries := entries + [row];
      places := places + [p];
    }

    /** Each attribute at a node: its own when it resolves, else the inherited one, and which are inherited. */
    method EffectiveAttrs(d: map<string, Obj>, ref: Option<RefKey>, inherited: seq<Attr>)
      returns (eff: seq<Attr>, bits: seq<bool>)
      requires |inherited| == 4
      ensures |eff| == 4 && forall i :: 0 <= i < 4 ==> eff[i] == Pick(tree.store, d, ref, ATTRIBUTES[i], inherited[i])
      ensures |bits| == 4 && forall i :: 0 <= i < 4 ==>
        bits[i] == (Lookup(tree.store, Own(d, ATTRIBUTES[i])).None? && inherited[i].value.Some?)
    {
      eff, bits := [], [];
      for i := 0 to 4
        invariant |eff| == i && forall k :: 0 <= k < i ==>
          eff[k] == Pick(tree.store, d, ref, ATTRIBUTES[k], inherited[k])
        invariant |bits| == i && forall k :: 0 <= k < i ==>
          bits[k] == (Lookup(tree.store, Own(d, ATTRIBUTES[k])).None? && inherited[k].value.Some?)
      {
        var attr, bit := inherited[i], false;
        var v := Own(d, ATTRIBUTES[i]);
        var resolved := Lookup(tree.store, v);
        if resolved.Some? {
          attr := Attr(resolved, Nowhere);
        } else {
          if !v.Null? {
            attr := attr.(unresolvedAt := LabelOf(ref));
          }
          bit := inherited[i].value.Some?;
        }
        eff := eff + [attr];
        bits := bits + [bit];
      }
    }
  }

  /** A reference to an object descended into before, but not on the path, names a node earlier in the document. */
  lemma MetBefore(t: Tree, log: Log, p: Position, onPath: set<nat>, num: nat)
    requires Ready(log, p) && OnPath(t, p, log.down, onPath) && num in Nums(t, log.down) && num !in onPath
    requires NumAt(t, p) == Some(num)
    ensures exists q :: q in log.down && Earlier(q, p) && SameNode(t, p, q)
  {
    var q :| q in log.down && NumAt(t, q) == Some(num);
    assert SameNode(t, p, q);
  }

  lemma NewNode(t: Tree, log: Log, p: Position, walked: set<nat>)
    requires walked == Nums(t, log.down) && (NumAt(t, p).Some? ==> NumAt(t, p).value !in walked)
    ensures forall q :: q in log.down ==> !SameNode(t, q, p)
  {
  }

  lemma DescendNums(t: Tree, down: seq<Position>, p: Position, walked: set<nat>)
    requires walked == Nums(t, down)
    ensures Nums(t, down + [p]) == if NumAt(t, p).Some? then walked + {NumAt(t, p).value} else walked
  {
    assert forall q :: q in down + [p] <==> q in down || q == p;
  }

  lemma KidsMean(t: Tree, p: Position, d: map<string, Obj>)
    requires DictAt(t, p) == Some(d) && KindOf(t.store, d) == Intermediate
    ensures KindAt(t, p, Intermediate) && At(t, p).Some?
    ensures var list := Lookup(t.store, Own(d, "Kids"));
      KidsAt(t, p) == if list.Some? && list.value.Array? then Some(list.value.elems) else None
  {
  }

  lemma HollowRow(t: Tree, p: Position, d: map<string, Obj>, ref: Option<RefKey>, down: seq<Position>)
    requires DictAt(t, p) == Some(d) && KindOf(t.store, d) == Intermediate && KidsAt(t, p).None?
    requires ref == RefOf(At(t, p).value)
    ensures RowHolds(t, Problem(ref, KidsNotAnArray), p, down)
  {
  }

  lemma FrameIsAttrs(t: Tree, p: Position, d: map<string, Obj>, ref: Option<RefKey>, inherited: seq<Attr>,
                     eff: seq<Attr>)
    requires DictAt(t, p) == Some(d) && ref == RefOf(At(t, p).value) && inherited == AttrsAbove(t, p)
    requires |eff| == 4 && forall i :: 0 <= i < 4 ==> eff[i] == Pick(t.store, d, ref, ATTRIBUTES[i], inherited[i])
    ensures eff == AttrsAt(t, p)
  {
    forall i | 0 <= i < 4
      ensures eff[i] == AttrAt(t, p, ATTRIBUTES[i])
    {
    }
  }

  lemma KidIsAt(t: Tree, p: Position, kids: seq<Obj>, i: nat, frame: seq<Attr>)
    requires KidsAt(t, p) == Some(kids) && i < |kids| && frame == AttrsAt(t, p)
    ensures At(t, p + [i]) == Some(kids[i]) && frame == AttrsAbove(t, p + [i])
  {
    assert (p + [i])[..|p|] == p;
  }

  lemma GrownNothing(log: Log, p: Position)
    ensures Grown(log, log, p)
  {
  }

  lemma GrownDown(a: Log, b: Log, p: Position)
    requires Grown(a, b, p) && a.down != [] && a.down[|a.down| - 1] == p
    ensures p in b.down
  {
    assert b.down[|a.down| - 1] == p;
  }

  /** Below a node just descended into, its number is on the path. */
  lemma EnterKids(t: Tree, start: Log, p: Position, ref: Option<RefKey>, above: set<nat>, path: set<nat>)
    requires Ready(start, p) && OnPath(t, p, start.down, above) && At(t, p).Some? && ref == RefOf(At(t, p).value)
    requires path == if ref.Some? then above + {ref.value.0} else above
    ensures Ready(Descend(start, p), p + [0]) && OnPath(t, p + [0], start.down + [p], path)
  {
    ReadyFirst(start, p);
    PathBelow(t, p, 0, start.down, above, path, ref);
  }

  lemma PathBelow(t: Tree, p: Position, i: nat, down: seq<Position>, above: set<nat>, path: set<nat>,
                  ref: Option<RefKey>)
    requires OnPath(t, p, down, above) && At(t, p).Some? && ref == RefOf(At(t, p).value)
    requires path == if ref.Some? then above + {ref.value.0} else above
    ensures OnPath(t, p + [i], down + [p], path)
  {
    var k := p + [i];
    forall q | q < k
      ensures q in down + [p]
    {
      AboveKid(q, p, i);
    }
    if ref.Some? {
      assert NumAt(t, p) == Some(ref.value.0);
    }
    forall n
      ensures n in path <==> exists q :: q < k && NumAt(t, q) == Some(n)
    {
      if n in above {
        var q :| q < p && NumAt(t, q) == Some(n);
        assert q < k;
      }
      if q: Position :| q < k && NumAt(t, q) == Some(n) {
        AboveKid(q, p, i);
      }
      assert p < k;
    }
  }

  lemma AboveKid(q: Position, p: Position, i: nat)
    ensures q < p + [i] <==> q == p || q < p
  {
    PrefixStep(q, p + [i]);
    assert (p + [i])[..|p|] == p;
  }

  /** After one kid the walk stands at the next. */
  lemma KidsGo(t: Tree, start: Log, a: Log, b: Log, p: Position, i: nat, path: set<nat>)
    requires Ready(a, p + [i]) && Grown(a, b, p + [i]) && Grown(start, a, p)
    requires OnPath(t, p + [i], a.down, path)
    ensures Ready(b, p + [i + 1]) && OnPath(t, p + [i + 1], b.down, path) && Grown(start, b, p)
    ensures forall k: nat :: Covered(t, a, p + [k]) ==> Covered(t, b, p + [k])
  {
    ReadyNext(t, a, b, p, i);
    NextPath(t, a, b, p, i, path);
    forall x: nat | Covered(t, a, p + [x])
      ensures Covered(t, b, p + [x])
    {
      CoveredGrows(t, a, b, p + [x], p + [i]);
    }
  }

  lemma NextPath(t: Tree, a: Log, b: Log, p: Position, i: nat, path: set<nat>)
    requires Grown(a, b, p + [i]) && OnPath(t, p + [i], a.down, path)
    ensures OnPath(t, p + [i + 1], b.down, path)
  {
    var k, n := p + [i], p + [i + 1];
    forall q | q < n
      ensures q in b.down
    {
      AboveKid(q, p, i);
      AboveKid(q, p, i + 1);
      assert q in a.down;
    }
    forall x
      ensures (exists q :: q < k && NumAt(t, q) == Some(x)) <==> (exists q :: q < n && NumAt(t, q) == Some(x))
    {
      if q: Position :| q < k && NumAt(t, q) == Some(x) {
        AboveKid(q, p, i);
        AboveKid(q, p, i + 1);
      }
      if q: Position :| q < n && NumAt(t, q) == Some(x) {
        AboveKid(q, p, i);
        AboveKid(q, p, i + 1);
      }
    }
  }

  lemma RefIsNum(t: Tree, p: Position, d: map<string, Obj>, ref: Option<RefKey>)
    requires DictAt(t, p) == Some(d) && ref == RefOf(At(t, p).value)
    ensures NumAt(t, p) == if ref.Some? then Some(ref.value.0) else None
  {
  }

  lemma HollowNode(t: Tree, p: Position, d: map<string, Obj>, ref: Option<RefKey>, down: seq<Position>)
    requires DictAt(t, p) == Some(d) && KindOf(t.store, d) == Hollow && ref == RefOf(At(t, p).value)
    ensures RowHolds(t, Problem(ref, NoKids), p, down)
  {
  }

  lemma DeepNode(t: Tree, p: Position, d: map<string, Obj>, ref: Option<RefKey>, down: seq<Position>)
    requires DictAt(t, p) == Some(d) && KindOf(t.store, d) == Intermediate && ref == RefOf(At(t, p).value)
    requires |p| >= MAX_PAGE_TREE_DEPTH
    ensures RowHolds(t, Problem(ref, TooDeep), p, down)
  {
  }

  lemma SharedNode(t: Tree, p: Position, d: map<string, Obj>, ref: Option<RefKey>, down: seq<Position>)
    requires DictAt(t, p) == Some(d) && KindOf(t.store, d) == Intermediate && ref == RefOf(At(t, p).value)
    requires exists q :: q in down && Earlier(q, p) && SameNode(t, p, q)
    ensures RowHolds(t, Problem(ref, Shared), p, down)
  {
  }

  lemma OnPathIsCycle(t: Tree, p: Position, down: seq<Position>, onPath: set<nat>, kid: Obj)
    requires OnPath(t, p, down, onPath) && At(t, p) == Some(kid) && kid.Ref? && kid.num in onPath
    ensures RowHolds(t, Problem(Some((kid.num, kid.gen)), Cycle), p, down)
  {
    var q: Position :| q < p && NumAt(t, q) == Some(kid.num);
    assert q in down && SameNode(t, p, q);
  }

  /** After a walk, each page node of the tree, however it is reached, is a numbered page whose leaf has the page's
      dictionary and reference, or lies below a node that a row notes as too deep; so when none is, every page is
      numbered. */
  lemma EveryPageIsNumbered(t: Tree, log: Log, leaves: seq<Leaf>, p: Position) returns (j: nat, tail: Position)
    requires Faithful(t, log) && Numbered(t, log.rows, log.places, leaves) && Covered(t, log, [])
    requires IsPage(t, p)
    ensures j < |log.rows| == |log.places| && At(t, log.places[j] + tail) == At(t, p)
    ensures tail != [] ==> IsTooDeep(log.rows[j])
    ensures tail == [] ==> log.rows[j].Page? && 1 <= log.rows[j].number <= |leaves|
    ensures tail == [] ==>
              var leaf := leaves[log.rows[j].number - 1];
              Some(leaf.dict) == DictAt(t, p) && leaf.ref == RefOf(At(t, p).value)
  {
    hide Faithful, Covered, Numbered, At, DictAt, IsPage;
    assert [] + p == p;
    j, tail := PageIsListed(t, log, [], p);
    if tail == [] {
      assert log.places[j] + tail == log.places[j];
      NumberStands(t, log.rows, log.places, leaves, j);
      SameValue(t, log.places[j], p);
    }
  }

  lemma NumberStands(t: Tree, rows: seq<Row>, places: seq<Position>, leaves: seq<Leaf>, j: nat)
    requires Numbered(t, rows, places, leaves) && j < |rows| && rows[j].Page?
    ensures |places| == |rows| && 1 <= rows[j].number <= |leaves|
    ensures LeafHolds(t, leaves[rows[j].number - 1], places[j])
  {
    hide LeafHolds, FirstNumber, PageCount;
  }

  lemma SameValue(t: Tree, p: Position, q: Position)
    requires At(t, p) == At(t, q) && IsPage(t, q)
    ensures DictAt(t, p) == DictAt(t, q) && At(t, q).Some?
  {
  }
}
