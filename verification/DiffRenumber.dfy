/** The converse of soundness, and why a renumbered file has no delta. */
module DiffRenumber {
  import opened PdfObjects
  import opened DiffWalk
  import opened DiffSound

  /** Both graphs have a value at the end of path and the two agree down to their summaries, or neither has. */
  ghost predicate SameAlong(d: Docs, l: Obj, r: Obj, path: seq<Step>) {
    match (Follow(d.left, l, path), Follow(d.right, r, path))
    case (Some(a), Some(b)) => LocalAgree(a, b) && Compare(a) == Compare(b)
    case (None, None) => true
    case _ => false
  }

  ghost predicate Same(d: Docs, l: Obj, r: Obj) {
    forall path: seq<Step> :: SameAlong(d, l, r, path)
  }

  /** The tree has no added, removed or changed node. */
  ghost predicate NoChange(n: Node) {
    && n.status == Unchanged
    && CountNodes(n, IS_ADDED) == 0 && CountNodes(n, IS_REMOVED) == 0 && CountNodes(n, IS_CHANGED_LEAF) == 0
  }

  lemma {:induction false} CountNone(nodes: seq<Node>, n: nat, p: Node -> bool)
    requires n <= |nodes| && forall i :: 0 <= i < n ==> CountNodes(nodes[i], p) == 0
    ensures CountFirst(nodes, n, p) == 0
  {
    if n > 0 {
      CountNone(nodes, n - 1, p);
    }
  }

  lemma SameHere(d: Docs, l: Obj, r: Obj)
    requires Same(d, l, r)
    ensures LocalAgree(l, r) && Compare(l) == Compare(r)
  {
    assert SameAlong(d, l, r, []);
  }

  lemma SameBelow(d: Docs, l: Obj, r: Obj, s: Step)
    requires Same(d, l, r) && StepInto(l, s).Some? && StepInto(r, s).Some?
    ensures Same(d, Deref(d.left, StepInto(l, s).value), Deref(d.right, StepInto(r, s).value))
  {
    forall path: seq<Step>
      ensures SameAlong(d, Deref(d.left, StepInto(l, s).value), Deref(d.right, StepInto(r, s).value), path)
    {
      assert SameAlong(d, l, r, [s] + path);
      assert ([s] + path)[1..] == path;
    }
  }

  // Documents that agree, and the summaries the walk compares.

  ghost predicate SameSummaries(summed: seq<(Obj, Obj)>) {
    forall i :: 0 <= i < |summed| ==> Compare(summed[i].0) == Compare(summed[i].1)
  }

  lemma LeafChange(n: Node)
    requires n.children == []
    ensures NoChange(n) <==> n.status == Unchanged
  {
    if n.status == Unchanged {
      LeafNoChange(n);
    }
  }

  lemma ParentChange(nodes: seq<Node>, kind: Kind)
    ensures NoChange(Node(if AllUnchanged(nodes) then Unchanged else Changed, kind, false, None, nodes)) <==>
            NoneChanged(nodes)
  {
    if NoneChanged(nodes) {
      ParentNoChange(nodes, kind);
    }
    var n := Node(if AllUnchanged(nodes) then Unchanged else Changed, kind, false, None, nodes);
    if NoChange(n) {
      CountParts(nodes, |nodes|, IS_ADDED);
      CountParts(nodes, |nodes|, IS_REMOVED);
      CountParts(nodes, |nodes|, IS_CHANGED_LEAF);
    }
  }

  /** Documents that agree along every path are diffed without a change if and only if every pair that the walk
      compares by summaries only, at a cut, at the depth cap or when met again, has equal summaries. */
  lemma {:induction false} AgreeingHasNoChange(d: Docs, l: Obj, r: Obj, depth: nat, lp: set<RefKey>, rp: set<RefKey>,
                                               pairs: set<RefPair>)
    requires depth <= MAX_RESOLVE_DEPTH && Agree(d, l, r)
    ensures var o := Present(d, l, r, depth, lp, rp, pairs); NoChange(o.node) <==> SameSummaries(o.summed)
    decreases MAX_RESOLVE_DEPTH - depth, 2, 0
  {
    hide Agree, Compare, NoChange, Kids;
    AgreeHere(d, l, r);
    if IsContainer(l) {
      var items := Items(l, r);
      forall i | 0 <= i < |items|
        ensures items[i].Both? && Agree(d, Deref(d.left, items[i].l), Deref(d.right, items[i].r))
      {
        var s := ItemStep(l, r, i);
        AgreeBelow(d, l, r, s);
      }
      KidsAgreeing(d, items, |items|, depth, lp, rp, pairs);
      ParentChange(Kids(d, items, |items|, depth, lp, rp, pairs).nodes, KindOf(l));
    } else {
      LeafChange(Leaf(KindOf(l), l, r));
    }
  }

  lemma {:induction false} KidsAgreeing(d: Docs, items: seq<Item>, n: nat, depth: nat, lp: set<RefKey>, rp: set<RefKey>,
                                        pairs: set<RefPair>)
    requires n <= |items| && depth <= MAX_RESOLVE_DEPTH
    requires forall i :: 0 <= i < n ==>
      items[i].Both? && Agree(d, Deref(d.left, items[i].l), Deref(d.right, items[i].r))
    ensures var k := Kids(d, items, n, depth, lp, rp, pairs);
      |k.nodes| == n && (NoneChanged(k.nodes) <==> SameSummaries(k.summed))
    decreases MAX_RESOLVE_DEPTH - depth, 1, n
  {
    hide Agree, NoChange, Child, SameSummaries, NoneChanged;
    if n > 0 {
      KidsAgreeing(d, items, n - 1, depth, lp, rp, pairs);
      var k, k' := Kids(d, items, n - 1, depth, lp, rp, pairs), Kids(d, items, n, depth, lp, rp, pairs);
      var o := Child(d, items[n - 1].l, items[n - 1].r, depth, lp, rp, k.pairs);
      ChildAgreeing(d, items[n - 1].l, items[n - 1].r, depth, lp, rp, k.pairs);
      assert items[n - 1].Both? && ItemNode(d, items[n - 1], depth, lp, rp, k.pairs) == o;
      assert k'.nodes == k.nodes + [o.node] && k'.summed == k.summed + o.summed;
      SummariesJoin(k.summed, o.summed);
      NoneChangedPush(k.nodes, o.node);
    } else {
      SummariesJoin([], []);
      NoneOfNone();
    }
  }

  ghost predicate NoneChanged(nodes: seq<Node>) {
    forall i :: 0 <= i < |nodes| ==> NoChange(nodes[i])
  }

  lemma NoneOfNone()
    ensures NoneChanged([])
  {
  }

  lemma NoneChangedPush(nodes: seq<Node>, n: Node)
    ensures NoneChanged(nodes + [n]) <==> NoneChanged(nodes) && NoChange(n)
  {
    hide NoChange;
    assert (nodes + [n])[|nodes|] == n;
    assert forall i :: 0 <= i < |nodes| ==> (nodes + [n])[i] == nodes[i];
  }

  lemma SummariesJoin(a: seq<(Obj, Obj)>, b: seq<(Obj, Obj)>)
    ensures SameSummaries(a + b) <==> SameSummaries(a) && SameSummaries(b)
    ensures SameSummaries([])
    ensures forall l, r :: SameSummaries([(l, r)]) <==> Compare(l) == Compare(r)
  {
    hide Compare;
    forall l, r
      ensures SameSummaries([(l, r)]) <==> Compare(l) == Compare(r)
    {
      assert [(l, r)][0] == (l, r);
    }
    assert forall i :: 0 <= i < |a| ==> (a + b)[i] == a[i];
    assert forall i :: 0 <= i < |b| ==> (a + b)[|a| + i] == b[i];
  }

  lemma {:induction false} ChildAgreeing(d: Docs, l: Obj, r: Obj, depth: nat, lp: set<RefKey>, rp: set<RefKey>,
                                         pairs: set<RefPair>)
    requires depth <= MAX_RESOLVE_DEPTH && Agree(d, Deref(d.left, l), Deref(d.right, r))
    ensures var o := Child(d, l, r, depth, lp, rp, pairs); NoChange(o.node) <==> SameSummaries(o.summed)
    decreases MAX_RESOLVE_DEPTH - depth, 0, 0
  {
    hide Agree, Compare, Present, NoChange, SameSummaries;
    var l', r' := Deref(d.left, l), Deref(d.right, r);
    var leaf := Leaf(KRef, l', r');
    SummariesJoin([], []);
    LeafChange(leaf);
    LeafChange(leaf.(truncated := true, capPair := if l.Ref? && r.Ref? then Some((KeyOf(l), KeyOf(r))) else None));
    if depth < MAX_RESOLVE_DEPTH {
      AgreeingHasNoChange(d, l', r', depth + 1,
                          if l.Ref? then lp + {KeyOf(l)} else lp, if r.Ref? then rp + {KeyOf(r)} else rp,
                          if l.Ref? && r.Ref? then pairs + {(KeyOf(l), KeyOf(r))} else pairs);
    }
  }

  /** Documents that agree along every path down to their summaries are diffed without a change, whatever the depth cap
      cuts. */
  lemma {:induction false} SameHasNoChange(d: Docs, l: Obj, r: Obj, depth: nat, lp: set<RefKey>, rp: set<RefKey>,
                                           pairs: set<RefPair>)
    requires depth <= MAX_RESOLVE_DEPTH && Same(d, l, r)
    ensures NoChange(Present(d, l, r, depth, lp, rp, pairs).node)
    decreases MAX_RESOLVE_DEPTH - depth, 2, 0
  {
    hide Same, Compare, NoChange, LocalAgree, Kids;
    SameHere(d, l, r);
    if IsContainer(l) {
      SameItems(d, l, r);
      var items := Items(l, r);
      KidsNoChange(d, items, |items|, depth, lp, rp, pairs);
      var k := Kids(d, items, |items|, depth, lp, rp, pairs);
      ParentNoChange(k.nodes, KindOf(l));
    } else {
      LeafNoChange(Leaf(KindOf(l), l, r));
    }
  }

  lemma LeafNoChange(n: Node)
    requires n.children == [] && n.status == Unchanged
    ensures NoChange(n)
  {
  }

  lemma ParentNoChange(nodes: seq<Node>, kind: Kind)
    requires forall i :: 0 <= i < |nodes| ==> NoChange(nodes[i])
    ensures AllUnchanged(nodes) && NoChange(Node(Unchanged, kind, false, None, nodes))
  {
    CountNone(nodes, |nodes|, IS_ADDED);
    CountNone(nodes, |nodes|, IS_REMOVED);
    CountNone(nodes, |nodes|, IS_CHANGED_LEAF);
  }

  lemma SameItems(d: Docs, l: Obj, r: Obj)
    requires IsContainer(l) && Same(d, l, r) && KindOf(l) == KindOf(r)
    ensures forall i :: 0 <= i < |Items(l, r)| ==>
              Items(l, r)[i].Both? && Same(d, Deref(d.left, Items(l, r)[i].l), Deref(d.right, Items(l, r)[i].r))
  {
    hide Same, Compare;
    SameHere(d, l, r);
    forall i | 0 <= i < |Items(l, r)|
      ensures Items(l, r)[i].Both? && Same(d, Deref(d.left, Items(l, r)[i].l), Deref(d.right, Items(l, r)[i].r))
    {
      var s := ItemStep(l, r, i);
      SameBelow(d, l, r, s);
    }
  }

  lemma {:induction false} KidsNoChange(d: Docs, items: seq<Item>, n: nat, depth: nat, lp: set<RefKey>,
                                        rp: set<RefKey>, pairs: set<RefPair>)
    requires n <= |items| && depth <= MAX_RESOLVE_DEPTH
    requires forall i :: 0 <= i < n ==> items[i].Both? && Same(d, Deref(d.left, items[i].l), Deref(d.right, items[i].r))
    ensures var k := Kids(d, items, n, depth, lp, rp, pairs);
            |k.nodes| == n && forall i :: 0 <= i < n ==> NoChange(k.nodes[i])
    decreases MAX_RESOLVE_DEPTH - depth, 1, n
  {
    hide Same, NoChange, Child;
    if n > 0 {
      KidsNoChange(d, items, n - 1, depth, lp, rp, pairs);
      var k := Kids(d, items, n - 1, depth, lp, rp, pairs);
      ChildNoChange(d, items[n - 1].l, items[n - 1].r, depth, lp, rp, k.pairs);
    }
  }

  lemma {:induction false} ChildNoChange(d: Docs, l: Obj, r: Obj, depth: nat, lp: set<RefKey>, rp: set<RefKey>,
                                         pairs: set<RefPair>)
    requires depth <= MAX_RESOLVE_DEPTH && Same(d, Deref(d.left, l), Deref(d.right, r))
    ensures NoChange(Child(d, l, r, depth, lp, rp, pairs).node)
    decreases MAX_RESOLVE_DEPTH - depth, 0, 0
  {
    hide Same, Compare, Present, NoChange, LocalAgree;
    var l', r' := Deref(d.left, l), Deref(d.right, r);
    SameHere(d, l', r');
    var leaf := Leaf(KRef, l', r');
    LeafNoChange(leaf);
    LeafNoChange(leaf.(truncated := true, capPair := if l.Ref? && r.Ref? then Some((KeyOf(l), KeyOf(r))) else None));
    if depth < MAX_RESOLVE_DEPTH {
      SameHasNoChange(d, l', r', depth + 1,
                      if l.Ref? then lp + {KeyOf(l)} else lp, if r.Ref? then rp + {KeyOf(r)} else rp,
                      if l.Ref? && r.Ref? then pairs + {(KeyOf(l), KeyOf(r))} else pairs);
    }
  }

  /** o with every object number renamed. */
  function Rename(o: Obj, rho: nat -> nat): Obj {
    match o
    case Ref(num, gen) => Ref(rho(num), gen)
    case Array(elems) => Array(seq(|elems|, i requires 0 <= i < |elems| => Rename(elems[i], rho)))
    case Dict(m) => Dict(map k | k in m :: Rename(m[k], rho))
    case Stream(m) => Stream(map k | k in m :: Rename(m[k], rho))
    case _ => o
  }

  function RenameKey(k: RefKey, rho: nat -> nat): RefKey { (rho(k.0), k.1) }

  ghost predicate Injective(rho: nat -> nat) {
    forall a, b :: rho(a) == rho(b) ==> a == b
  }

  /** d.right is d.left with its objects renumbered; dangling references stay dangling. */
  ghost predicate Renumbered(d: Docs, rho: nat -> nat) {
    && Injective(rho)
    && (forall n :: n in d.left ==> rho(n) in d.right && d.right[rho(n)] == Rename(d.left[n], rho))
    && (forall n: nat :: rho(n) in d.right ==> n in d.left)
  }

  lemma DerefRename(d: Docs, rho: nat -> nat, v: Obj)
    requires Renumbered(d, rho)
    ensures Deref(d.right, Rename(v, rho)) == Rename(Deref(d.left, v), rho)
  {
  }

  lemma ShallowRename(o: Obj, rho: nat -> nat)
    ensures ShallowValue(Rename(o, rho)) == ShallowValue(o)
  {
  }

  lemma {:induction false} EntriesTextRename(m: map<string, Obj>, m': map<string, Obj>, keys: seq<string>, n: nat,
                                             rho: nat -> nat)
    requires n <= |keys| && m.Keys == m'.Keys && (forall k :: k in keys ==> k in m)
    requires forall k :: k in m ==> m'[k] == Rename(m[k], rho)
    ensures EntriesText(m', keys, n) == EntriesText(m, keys, n)
  {
    hide Rename;
    if n > 0 {
      ShallowRename(m[keys[n - 1]], rho);
      EntriesTextRename(m, m', keys, n - 1, rho);
      assert keys[n - 1] in keys;
    }
  }

  lemma RenamedElem(a: seq<Obj>, i: nat, rho: nat -> nat)
    requires i < |a|
    ensures Rename(Array(a), rho).Array? && |Rename(Array(a), rho).elems| == |a|
    ensures Rename(Array(a), rho).elems[i] == Rename(a[i], rho)
  {
  }

  lemma {:induction false} ElemsTextRename(a: seq<Obj>, n: nat, rho: nat -> nat)
    requires n <= |a|
    ensures Rename(Array(a), rho).Array? && |Rename(Array(a), rho).elems| == |a|
    ensures ElemsText(Rename(Array(a), rho).elems, n) == ElemsText(a, n)
  {
    hide ShallowValue;
    if n > 0 {
      ElemsTextRename(a, n - 1, rho);
      RenamedElem(a, n - 1, rho);
      ShallowRename(a[n - 1], rho);
    }
  }

  /** Summaries do not show object numbers. */
  lemma CompareRename(o: Obj, rho: nat -> nat)
    ensures Compare(Rename(o, rho)) == Compare(o) && LocalAgree(o, Rename(o, rho))
  {
    var o' := Rename(o, rho);
    if o.Dict? || o.Stream? {
      assert o'.entries.Keys == o.entries.Keys;
      EntriesTextRename(o.entries, o'.entries, Sorted(o.entries.Keys), |Sorted(o.entries.Keys)|, rho);
    } else if o.Array? {
      ElemsTextRename(o.elems, |o.elems|, rho);
    }
  }

  lemma {:induction false} RenumberedSameAlong(d: Docs, rho: nat -> nat, v: Obj, path: seq<Step>)
    requires Renumbered(d, rho)
    ensures SameAlong(d, v, Rename(v, rho), path)
    decreases |path|
  {
    var v' := Rename(v, rho);
    if path == [] {
      CompareRename(v, rho);
    } else {
      match StepInto(v, path[0])
      case None =>
        assert StepInto(v', path[0]).None?;
      case Some(c) =>
        assert StepInto(v', path[0]) == Some(Rename(c, rho));
        DerefRename(d, rho, c);
        RenumberedSameAlong(d, rho, Deref(d.left, c), path[1..]);
    }
  }

  function RenameKeys(lp: set<RefKey>, rho: nat -> nat): set<RefKey> {
    set k | k in lp :: RenameKey(k, rho)
  }

  /** Every entered pair is a reference and its renaming. */
  ghost predicate InStep(pairs: set<RefPair>, rho: nat -> nat) {
    forall p :: p in pairs ==> p.1 == RenameKey(p.0, rho)
  }

  /** Every reference on the left path was entered with its renaming, or is in base. */
  ghost predicate PathEntered(lp: set<RefKey>, pairs: set<RefPair>, base: set<RefPair>, rho: nat -> nat) {
    forall k :: k in lp ==> (k, RenameKey(k, rho)) in pairs + base
  }

  /** What a walk of a value and its renaming keeps: the sides stay in step, and every cycle it cuts is a
      pair it entered. */
  ghost predicate LockedStep(d: Docs, pairs: set<RefPair>, pairs': set<RefPair>, cuts: seq<(Obj, Obj)>,
                             base: set<RefPair>,
                             rho: nat -> nat) {
    pairs <= pairs' && InStep(pairs', rho) && CutsAccepted(d, cuts, pairs' + base)
  }

  lemma {:induction false} PresentInStep(d: Docs, rho: nat -> nat, v: Obj, depth: nat, lp: set<RefKey>,
                                         pairs: set<RefPair>, base: set<RefPair>)
    requires depth <= MAX_RESOLVE_DEPTH && Renumbered(d, rho) && InStep(pairs, rho) && PathEntered(lp, pairs, base, rho)
    ensures var o := Present(d, v, Rename(v, rho), depth, lp, RenameKeys(lp, rho), pairs);
            LockedStep(d, pairs, o.pairs, o.cuts, base, rho)
    decreases MAX_RESOLVE_DEPTH - depth, 2, 0
  {
    hide Compare, Renumbered;
    CompareRename(v, rho);
    if IsContainer(v) {
      var v' := Rename(v, rho);
      var items := Items(v, v');
      forall i | 0 <= i < |items|
        ensures items[i].Both? && items[i].r == Rename(items[i].l, rho)
      {
        var s := ItemStep(v, v', i);
      }
      KidsInStep(d, rho, items, |items|, depth, lp, pairs, base);
    }
  }

  lemma {:induction false} KidsInStep(d: Docs, rho: nat -> nat, items: seq<Item>, n: nat, depth: nat, lp: set<RefKey>,
                                      pairs: set<RefPair>, base: set<RefPair>)
    requires n <= |items| && depth <= MAX_RESOLVE_DEPTH && Renumbered(d, rho) && InStep(pairs, rho)
      && PathEntered(lp, pairs, base, rho)
    requires forall i :: 0 <= i < n ==> items[i].Both? && items[i].r == Rename(items[i].l, rho)
    ensures var k := Kids(d, items, n, depth, lp, RenameKeys(lp, rho), pairs);
            LockedStep(d, pairs, k.pairs, k.cuts, base, rho)
    decreases MAX_RESOLVE_DEPTH - depth, 1, n
  {
    hide Renumbered, Child, InStep;
    if n > 0 {
      KidsInStep(d, rho, items, n - 1, depth, lp, pairs, base);
      var k := Kids(d, items, n - 1, depth, lp, RenameKeys(lp, rho), pairs);
      ChildInStep(d, rho, items[n - 1].l, depth, lp, k.pairs, base);
    }
  }

  lemma RenameInjective(d: Docs, rho: nat -> nat)
    requires Renumbered(d, rho)
    ensures Injective(rho)
  {
  }

  lemma AddToPath(lp: set<RefKey>, k: RefKey, rho: nat -> nat)
    requires Injective(rho)
    ensures RenameKeys(lp + {k}, rho) == RenameKeys(lp, rho) + {RenameKey(k, rho)}
    ensures RenameKey(k, rho) in RenameKeys(lp, rho) <==> k in lp
  {
  }

  lemma {:induction false} ChildInStep(d: Docs, rho: nat -> nat, v: Obj, depth: nat, lp: set<RefKey>,
                                       pairs: set<RefPair>, base: set<RefPair>)
    requires depth <= MAX_RESOLVE_DEPTH && Renumbered(d, rho) && InStep(pairs, rho) && PathEntered(lp, pairs, base, rho)
    ensures var o := Child(d, v, Rename(v, rho), depth, lp, RenameKeys(lp, rho), pairs);
            LockedStep(d, pairs, o.pairs, o.cuts, base, rho)
    decreases MAX_RESOLVE_DEPTH - depth, 0, 0
  {
    hide Compare, Present, Renumbered, Injective, RenameKeys;
    DerefRename(d, rho, v);
    RenameInjective(d, rho);
    if v.Ref? {
      var k := KeyOf(v);
      assert KeyOf(Rename(v, rho)) == RenameKey(k, rho);
      AddToPath(lp, k, rho);
      if k !in lp && depth < MAX_RESOLVE_DEPTH {
        PresentInStep(d, rho, Deref(d.left, v), depth + 1, lp + {k}, pairs + {(k, RenameKey(k, rho))}, base);
      }
    } else if depth < MAX_RESOLVE_DEPTH {
      PresentInStep(d, rho, v, depth + 1, lp, pairs, base);
    }
  }

  function RenameCat(cat: Option<RefKey>, rho: nat -> nat): Option<RefKey> {
    match cat
    case Some(k) => Some(RenameKey(k, rho))
    case None => None
  }

  /** A document and its renumbering are diffed in step without an added, removed or changed node, and every
      cycle cut is of a pair the walk accounts for. */
  lemma RenumberedHasNoChange(d: Docs, rho: nat -> nat, l: Obj, cat: Option<RefKey>)
    requires Renumbered(d, rho)
    ensures var o := Walk(d, l, Rename(l, rho), cat, RenameCat(cat, rho));
            && NoChange(o.node)
            && InStep(o.pairs, rho)
            && CutsAccepted(d, o.cuts, AccountedFor(o, cat, RenameCat(cat, rho)))
  {
    forall path: seq<Step>
      ensures SameAlong(d, l, Rename(l, rho), path)
    {
      RenumberedSameAlong(d, rho, l, path);
    }
    var lp := Start(cat);
    assert RenameKeys(lp, rho) == Start(RenameCat(cat, rho));
    SameHasNoChange(d, l, Rename(l, rho), 0, lp, Start(RenameCat(cat, rho)), {});
    var base: set<RefPair> := if cat.Some? then {(cat.value, RenameKey(cat.value, rho))} else {};
    PresentInStep(d, rho, l, 0, lp, {}, base);
  }
}
