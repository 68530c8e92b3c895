/** What a diff without deltas proves: the entered pairs are a bisimulation of the two graphs, so both agree
    along every path; and what it needs: graphs that agree along every path have no delta. */
module DiffSound {
  import opened PdfObjects
  import opened DiffWalk

  datatype Step = Key(k: string) | Index(i: nat)

  function StepInto(v: Obj, s: Step): Option<Obj> {
    match s
    case Key(k) => if (v.Dict? || v.Stream?) && k in v.entries then Some(v.entries[k]) else None
    case Index(i) => if v.Array? && i < |v.elems| then Some(v.elems[i]) else None
  }

  /** The resolved value at the end of path from the resolved value v. */
  function Follow(s: Store, v: Obj, path: seq<Step>): Option<Obj>
    decreases |path|
  {
    if path == [] then Some(v)
    else match StepInto(v, path[0])
      case None => None
      case Some(c) => Follow(s, Deref(s, c), path[1..])
  }

  /** Two resolved values of one kind, with the same keys or length, or the same rendering. */
  ghost predicate LocalAgree(l: Obj, r: Obj) {
    && KindOf(l) == KindOf(r)
    && (l.Dict? || l.Stream? ==> Fields(l).Keys == Fields(r).Keys)
    && (l.Array? ==> |l.elems| == |r.elems|)
    && (!IsContainer(l) ==> Compare(l) == Compare(r))
  }

  /** Both graphs have a value at the end of path, and the values agree, or neither has. */
  ghost predicate AgreeAlong(d: Docs, l: Obj, r: Obj, path: seq<Step>) {
    match (Follow(d.left, l, path), Follow(d.right, r, path))
    case (Some(a), Some(b)) => LocalAgree(a, b)
    case (None, None) => true
    case _ => false
  }

  ghost predicate Agree(d: Docs, l: Obj, r: Obj) {
    forall path: seq<Step> :: AgreeAlong(d, l, r, path)
  }

  /** A pair of values that is an accepted reference pair, or whose targets agree along every path. */
  ghost predicate Accepted(d: Docs, l: Obj, r: Obj, accept: set<RefPair>) {
    (l.Ref? && r.Ref? && (KeyOf(l), KeyOf(r)) in accept) || Agree(d, Deref(d.left, l), Deref(d.right, r))
  }

  /** l and r agree, and so do their items to a depth of k, stopping at accepted reference pairs. */
  ghost predicate Match(d: Docs, k: nat, l: Obj, r: Obj, accept: set<RefPair>)
    decreases k
  {
    && KindOf(l) == KindOf(r)
    && if IsContainer(l)
       then forall i :: 0 <= i < |Items(l, r)| ==>
              && Items(l, r)[i].Both?
              && (Accepted(d, Items(l, r)[i].l, Items(l, r)[i].r, accept) ||
                  (k > 0 && Match(d, k - 1, Deref(d.left, Items(l, r)[i].l), Deref(d.right, Items(l, r)[i].r), accept)))
       else Compare(l) == Compare(r)
  }

  ghost predicate Related(d: Docs, l: Obj, r: Obj, accept: set<RefPair>) {
    exists k: nat :: Match(d, k, l, r, accept)
  }

  /** The targets of the pair are related. */
  ghost predicate Settled(d: Docs, p: RefPair, accept: set<RefPair>) {
    Related(d, Deref(d.left, Ref(p.0.0, p.0.1)), Deref(d.right, Ref(p.1.0, p.1.1)), accept)
  }

  ghost predicate CutsAccepted(d: Docs, cuts: seq<(Obj, Obj)>, accept: set<RefPair>) {
    forall i :: 0 <= i < |cuts| ==> Accepted(d, cuts[i].0, cuts[i].1, accept)
  }

  /** The tree has no delta, and every depth-capped pair in it was entered. */
  ghost predicate Clean(n: Node, entered: set<RefPair>) {
    Count(Reconcile(n, entered)) == NO_DELTA
  }

  lemma {:induction false} CountParts(nodes: seq<Node>, n: nat, p: Node -> bool)
    requires n <= |nodes| && CountFirst(nodes, n, p) == 0
    ensures forall i :: 0 <= i < n ==> CountNodes(nodes[i], p) == 0
  {
    if n > 0 {
      CountParts(nodes, n - 1, p);
    }
  }

  lemma CleanParts(n: Node, entered: set<RefPair>)
    requires Clean(n, entered)
    ensures n.status != Added && n.status != Removed && (n.children == [] ==> n.status != Changed)
    ensures n.truncated ==> n.capPair.Some? && n.capPair.value in entered
    ensures forall i :: 0 <= i < |n.children| ==> Clean(n.children[i], entered)
  {
    var r := Reconcile(n, entered);
    CountParts(r.children, |r.children|, IS_ADDED);
    CountParts(r.children, |r.children|, IS_REMOVED);
    CountParts(r.children, |r.children|, IS_CHANGED_LEAF);
    CountParts(r.children, |r.children|, IS_TRUNCATED);
    forall i | 0 <= i < |n.children|
      ensures Clean(n.children[i], entered)
    {
      assert Count(r.children[i]) == NO_DELTA;
    }
  }

  lemma {:induction false} PresentSound(d: Docs, l: Obj, r: Obj, depth: nat, lp: set<RefKey>, rp: set<RefKey>,
                                        pairs: set<RefPair>,
                                        entered: set<RefPair>, accept: set<RefPair>)
    requires depth <= MAX_RESOLVE_DEPTH && entered <= accept
    requires var o := Present(d, l, r, depth, lp, rp, pairs);
             o.pairs <= entered && CutsAccepted(d, o.cuts, accept) && Clean(o.node, entered)
    ensures Match(d, MAX_RESOLVE_DEPTH - depth, l, r, accept)
    ensures pairs <= Present(d, l, r, depth, lp, rp, pairs).pairs
    ensures forall p :: p in Present(d, l, r, depth, lp, rp, pairs).pairs - pairs ==> Settled(d, p, accept)
    decreases MAX_RESOLVE_DEPTH - depth, 2, 0
  {
    var o := Present(d, l, r, depth, lp, rp, pairs);
    CleanParts(o.node, entered);
    if KindOf(l) == KindOf(r) && IsContainer(l) {
      var items := Items(l, r);
      var k := Kids(d, items, |items|, depth, lp, rp, pairs);
      assert o.node.children == k.nodes;
      KidsSound(d, items, |items|, depth, lp, rp, pairs, entered, accept);
    }
  }

  ghost predicate ItemMatch(d: Docs, k: nat, item: Item, accept: set<RefPair>) {
    && item.Both?
    && (Accepted(d, item.l, item.r, accept) ||
        (k > 0 && Match(d, k - 1, Deref(d.left, item.l), Deref(d.right, item.r), accept)))
  }

  lemma {:induction false} KidsSound(d: Docs, items: seq<Item>, n: nat, depth: nat, lp: set<RefKey>, rp: set<RefKey>,
                                     pairs: set<RefPair>, entered: set<RefPair>, accept: set<RefPair>)
    requires n <= |items| && depth <= MAX_RESOLVE_DEPTH && entered <= accept
    requires var k := Kids(d, items, n, depth, lp, rp, pairs);
             && k.pairs <= entered && CutsAccepted(d, k.cuts, accept)
             && forall i :: 0 <= i < |k.nodes| ==> Clean(k.nodes[i], entered)
    ensures forall i :: 0 <= i < n ==> ItemMatch(d, MAX_RESOLVE_DEPTH - depth, items[i], accept)
    ensures pairs <= Kids(d, items, n, depth, lp, rp, pairs).pairs
    ensures forall p :: p in Kids(d, items, n, depth, lp, rp, pairs).pairs - pairs ==> Settled(d, p, accept)
    decreases MAX_RESOLVE_DEPTH - depth, 1, n
  {
    hide Clean, Match, Settled, Child, Accepted, ItemMatch;
    if n > 0 {
      var k, k' := Kids(d, items, n - 1, depth, lp, rp, pairs), Kids(d, items, n, depth, lp, rp, pairs);
      var o := ItemNode(d, items[n - 1], depth, lp, rp, k.pairs);
      assert k'.nodes[|k.nodes|] == o.node;
      assert forall i :: 0 <= i < |k.nodes| ==> k'.nodes[i] == k.nodes[i];
      assert forall i :: 0 <= i < |k.cuts| ==> k'.cuts[i] == k.cuts[i];
      assert forall i :: 0 <= i < |o.cuts| ==> k'.cuts[|k.cuts| + i] == o.cuts[i];
      CleanParts(o.node, entered);
      if items[n - 1].Both? {
        ChildSound(d, items[n - 1].l, items[n - 1].r, depth, lp, rp, k.pairs, entered, accept);
      }
      KidsSound(d, items, n - 1, depth, lp, rp, pairs, entered, accept);
    }
  }

  lemma {:induction false} ChildSound(d: Docs, l: Obj, r: Obj, depth: nat, lp: set<RefKey>, rp: set<RefKey>,
                                      pairs: set<RefPair>,
                                      entered: set<RefPair>, accept: set<RefPair>)
    requires depth <= MAX_RESOLVE_DEPTH && entered <= accept
    requires var o := Child(d, l, r, depth, lp, rp, pairs);
             o.pairs <= entered && CutsAccepted(d, o.cuts, accept) && Clean(o.node, entered)
    ensures ItemMatch(d, MAX_RESOLVE_DEPTH - depth, Both(l, r), accept)
    ensures pairs <= Child(d, l, r, depth, lp, rp, pairs).pairs
    ensures forall p :: p in Child(d, l, r, depth, lp, rp, pairs).pairs - pairs ==> Settled(d, p, accept)
    decreases MAX_RESOLVE_DEPTH - depth, 0, 0
  {
    hide Clean, Match, Settled, Present, Compare, Agree;
    var o := Child(d, l, r, depth, lp, rp, pairs);
    CleanParts(o.node, entered);
    if (l.Ref? && KeyOf(l) in lp) || (r.Ref? && KeyOf(r) in rp) {
      assert o.cuts[0] == (l, r);
    } else if depth < MAX_RESOLVE_DEPTH && !(l.Ref? && r.Ref? && (KeyOf(l), KeyOf(r)) in pairs) {
      PresentSound(d, Deref(d.left, l), Deref(d.right, r), depth + 1,
                   if l.Ref? then lp + {KeyOf(l)} else lp, if r.Ref? then rp + {KeyOf(r)} else rp,
                   if l.Ref? && r.Ref? then pairs + {(KeyOf(l), KeyOf(r))} else pairs, entered, accept);
      if l.Ref? && r.Ref? {
        MatchSettles(d, MAX_RESOLVE_DEPTH - depth - 1, l, r, accept);
      }
    }
  }

  lemma MatchSettles(d: Docs, k: nat, l: Obj, r: Obj, accept: set<RefPair>)
    requires l.Ref? && r.Ref? && Match(d, k, Deref(d.left, l), Deref(d.right, r), accept)
    ensures Settled(d, (KeyOf(l), KeyOf(r)), accept)
  {
    assert Ref(l.num, l.gen) == l && Ref(r.num, r.gen) == r;
  }

  lemma ElemBoth(l: Obj, r: Obj, i: nat)
    requires l.Array? && r.Array? && (i < |l.elems| || i < |r.elems|)
    ensures i < |Items(l, r)| && (Items(l, r)[i].Both? <==> i < |l.elems| && i < |r.elems|)
  {
  }

  /** Items that are all on both sides mean equal keys or lengths, and every step finds an item. */
  lemma BothSides(l: Obj, r: Obj)
    requires IsContainer(l) && KindOf(l) == KindOf(r)
    requires forall i :: 0 <= i < |Items(l, r)| ==> Items(l, r)[i].Both?
    ensures LocalAgree(l, r)
  {
    if l.Array? {
      var n := if |l.elems| < |r.elems| then |l.elems| else |r.elems|;
      if |l.elems| != |r.elems| {
        ElemBoth(l, r, n);
      }
    } else {
      var keys := Sorted(Fields(l).Keys + Fields(r).Keys);
      forall k | k in Fields(l).Keys + Fields(r).Keys
        ensures k in Fields(l) && k in Fields(r)
      {
        var i :| 0 <= i < |keys| && keys[i] == k;
        assert Items(l, r)[i].Both?;
      }
    }
  }

  lemma ItemAt(l: Obj, r: Obj, s: Step)
    requires IsContainer(l) && LocalAgree(l, r) && StepInto(l, s).Some?
    ensures StepInto(r, s).Some?
    ensures exists i :: 0 <= i < |Items(l, r)| && Items(l, r)[i] == Both(StepInto(l, s).value, StepInto(r, s).value)
  {
    match s
    case Key(k) =>
      var keys := Sorted(Fields(l).Keys + Fields(r).Keys);
      assert k in keys;
      var i :| 0 <= i < |keys| && keys[i] == k;
      assert Items(l, r)[i] == Both(l.entries[k], r.entries[k]);
    case Index(i) =>
      assert Items(l, r)[i] == Both(l.elems[i], r.elems[i]);
  }

  /** When every accepted pair is settled, related values agree along every path. */
  lemma {:induction false} RelatedAgree(d: Docs, l: Obj, r: Obj, accept: set<RefPair>, path: seq<Step>)
    requires forall p :: p in accept ==> Settled(d, p, accept)
    requires Related(d, l, r, accept)
    ensures AgreeAlong(d, l, r, path)
    decreases |path|
  {
    var k: nat :| Match(d, k, l, r, accept);
    if IsContainer(l) {
      BothSides(l, r);
    }
    if path != [] && StepInto(l, path[0]).Some? {
      ItemAt(l, r, path[0]);
      var lc, rc := StepInto(l, path[0]).value, StepInto(r, path[0]).value;
      var i :| 0 <= i < |Items(l, r)| && Items(l, r)[i] == Both(lc, rc);
      if Agree(d, Deref(d.left, lc), Deref(d.right, rc)) {
        assert AgreeAlong(d, Deref(d.left, lc), Deref(d.right, rc), path[1..]);
      } else {
        if Accepted(d, lc, rc, accept) {
          assert Settled(d, (KeyOf(lc), KeyOf(rc)), accept);
          assert lc == Ref(lc.num, lc.gen) && rc == Ref(rc.num, rc.gen);
        } else {
          assert Match(d, k - 1, Deref(d.left, lc), Deref(d.right, rc), accept);
        }
        RelatedAgree(d, Deref(d.left, lc), Deref(d.right, rc), accept, path[1..]);
      }
    } else if path != [] && StepInto(r, path[0]).Some? {
      assert false;
    }
  }

  /** The pairs a walk from the catalogs accounts for: those it entered, and the catalogs themselves. */
  function AccountedFor(o: Out, lcat: Option<RefKey>, rcat: Option<RefKey>): set<RefPair> {
    if lcat.Some? && rcat.Some? then o.pairs + {(lcat.value, rcat.value)} else o.pairs
  }

  /** The reference to the catalog, when there is one, leads to the catalog. */
  ghost predicate IsCatalog(s: Store, v: Obj, cat: Option<RefKey>) {
    cat.Some? ==> Deref(s, Ref(cat.value.0, cat.value.1)) == v
  }

  // Documents that agree are cut only where they agree.

  /** In containers with the same keys or length, item i is what some step leads to on both sides. */
  lemma ItemStep(l: Obj, r: Obj, i: nat) returns (s: Step)
    requires IsContainer(l) && LocalAgree(l, r) && i < |Items(l, r)|
    ensures StepInto(l, s).Some? && StepInto(r, s).Some?
    ensures Items(l, r)[i] == Both(StepInto(l, s).value, StepInto(r, s).value)
  {
    hide Compare, ShallowValue, Sorted;
    if l.Array? {
      s := Index(i);
    } else {
      var keys := Sorted(Fields(l).Keys + Fields(r).Keys);
      assert keys[i] in keys;
      s := Key(keys[i]);
    }
  }

  lemma AgreeBelow(d: Docs, l: Obj, r: Obj, s: Step)
    requires Agree(d, l, r) && StepInto(l, s).Some? && StepInto(r, s).Some?
    ensures Agree(d, Deref(d.left, StepInto(l, s).value), Deref(d.right, StepInto(r, s).value))
  {
    forall path: seq<Step>
      ensures AgreeAlong(d, Deref(d.left, StepInto(l, s).value), Deref(d.right, StepInto(r, s).value), path)
    {
      assert AgreeAlong(d, l, r, [s] + path);
      assert ([s] + path)[1..] == path;
    }
  }

  lemma AgreeHere(d: Docs, l: Obj, r: Obj)
    requires Agree(d, l, r)
    ensures LocalAgree(l, r)
  {
    assert AgreeAlong(d, l, r, []);
  }

  ghost predicate CutsAgree(d: Docs, cuts: seq<(Obj, Obj)>) {
    forall i :: 0 <= i < |cuts| ==> Agree(d, Deref(d.left, cuts[i].0), Deref(d.right, cuts[i].1))
  }

  /** Every cut of a walk of values that agree is of values that agree. */
  lemma {:induction false} PresentCutsAgree(d: Docs, l: Obj, r: Obj, depth: nat, lp: set<RefKey>, rp: set<RefKey>,
                                            pairs: set<RefPair>)
    requires depth <= MAX_RESOLVE_DEPTH && Agree(d, l, r)
    ensures CutsAgree(d, Present(d, l, r, depth, lp, rp, pairs).cuts)
    decreases MAX_RESOLVE_DEPTH - depth, 2, 0
  {
    hide Agree, LocalAgree, Kids, Compare;
    AgreeHere(d, l, r);
    if KindOf(l) == KindOf(r) && IsContainer(l) {
      var items := Items(l, r);
      forall i | 0 <= i < |items|
        ensures items[i].Both? && Agree(d, Deref(d.left, items[i].l), Deref(d.right, items[i].r))
      {
        var s := ItemStep(l, r, i);
        AgreeBelow(d, l, r, s);
      }
      KidsCutsAgree(d, items, |items|, depth, lp, rp, pairs);
    }
  }

  lemma {:induction false} KidsCutsAgree(d: Docs, items: seq<Item>, n: nat, depth: nat, lp: set<RefKey>,
                                         rp: set<RefKey>,
                                         pairs: set<RefPair>)
    requires n <= |items| && depth <= MAX_RESOLVE_DEPTH
    requires forall i :: 0 <= i < n ==>
      items[i].Both? && Agree(d, Deref(d.left, items[i].l), Deref(d.right, items[i].r))
    ensures CutsAgree(d, Kids(d, items, n, depth, lp, rp, pairs).cuts)
    decreases MAX_RESOLVE_DEPTH - depth, 1, n
  {
    hide Agree, Child;
    if n > 0 {
      KidsCutsAgree(d, items, n - 1, depth, lp, rp, pairs);
      var k := Kids(d, items, n - 1, depth, lp, rp, pairs);
      ChildCutsAgree(d, items[n - 1].l, items[n - 1].r, depth, lp, rp, k.pairs);
    }
  }

  lemma {:induction false} ChildCutsAgree(d: Docs, l: Obj, r: Obj, depth: nat, lp: set<RefKey>, rp: set<RefKey>,
                                          pairs: set<RefPair>)
    requires depth <= MAX_RESOLVE_DEPTH && Agree(d, Deref(d.left, l), Deref(d.right, r))
    ensures CutsAgree(d, Child(d, l, r, depth, lp, rp, pairs).cuts)
    decreases MAX_RESOLVE_DEPTH - depth, 0, 0
  {
    hide Agree, Present, Compare;
    if depth < MAX_RESOLVE_DEPTH {
      PresentCutsAgree(d, Deref(d.left, l), Deref(d.right, r), depth + 1,
                       if l.Ref? then lp + {KeyOf(l)} else lp, if r.Ref? then rp + {KeyOf(r)} else rp,
                       if l.Ref? && r.Ref? then pairs + {(KeyOf(l), KeyOf(r))} else pairs);
    }
  }

  /** What a walk without deltas from the catalogs proves: the documents agree along every path if and only if each
      pair it cut as a cycle is one it accounts for or has targets that agree along every path. */
  lemma CleanDocumentsAgree(d: Docs, l: Obj, r: Obj, lcat: Option<RefKey>, rcat: Option<RefKey>)
    requires IsCatalog(d.left, l, lcat) && IsCatalog(d.right, r, rcat)
    requires var o := Walk(d, l, r, lcat, rcat); Clean(o.node, o.pairs)
    ensures var o := Walk(d, l, r, lcat, rcat); Agree(d, l, r) <==> CutsAccepted(d, o.cuts, AccountedFor(o, lcat, rcat))
  {
    hide Agree, Present, Clean, Match;
    var o := Walk(d, l, r, lcat, rcat);
    var accept := AccountedFor(o, lcat, rcat);
    if CutsAccepted(d, o.cuts, accept) {
      CleanIsSettled(d, l, r, lcat, rcat);
      AllPathsAgree(d, l, r, accept);
    }
    if Agree(d, l, r) {
      PresentCutsAgree(d, l, r, 0, Start(lcat), Start(rcat), {});
    }
  }

  /** The pairs a clean walk accounts for form a bisimulation, up to cuts whose targets agree. */
  lemma CleanIsSettled(d: Docs, l: Obj, r: Obj, lcat: Option<RefKey>, rcat: Option<RefKey>)
    requires IsCatalog(d.left, l, lcat) && IsCatalog(d.right, r, rcat)
    requires var o := Walk(d, l, r, lcat, rcat);
             Clean(o.node, o.pairs) && CutsAccepted(d, o.cuts, AccountedFor(o, lcat, rcat))
    ensures var accept := AccountedFor(Walk(d, l, r, lcat, rcat), lcat, rcat);
      Related(d, l, r, accept) && forall p :: p in accept ==> Settled(d, p, accept)
  {
    hide Present, Clean, Match, Accepted;
    var o := Walk(d, l, r, lcat, rcat);
    PresentSound(d, l, r, 0, Start(lcat), Start(rcat), {}, o.pairs, AccountedFor(o, lcat, rcat));
  }

  lemma AllPathsAgree(d: Docs, l: Obj, r: Obj, accept: set<RefPair>)
    requires Related(d, l, r, accept) && forall p :: p in accept ==> Settled(d, p, accept)
    ensures Agree(d, l, r)
  {
    hide Related, Settled, AgreeAlong;
    forall path: seq<Step>
      ensures AgreeAlong(d, l, r, path)
    {
      RelatedAgree(d, l, r, accept, path);
    }
  }

  // Documents without reference cycles.

  /** A reference to object n sits somewhere in the direct value v. */
  ghost predicate Holds(v: Obj, n: nat) {
    match v
    case Ref(num, _) => num == n
    case Array(elems) => exists i :: 0 <= i < |elems| && Holds(elems[i], n)
    case Dict(m) => exists k :: k in m && Holds(m[k], n)
    case Stream(m) => exists k :: k in m && Holds(m[k], n)
    case _ => false
  }

  /** Every reference in an object is to an object of lower rank. */
  ghost predicate Ranked(s: Store, rank: nat -> nat) {
    forall n, m :: n in s && Holds(s[n], m) ==> rank(m) < rank(n)
  }

  /** No chain of references leads from an object back to itself. */
  ghost predicate Acyclic(s: Store) {
    exists rank: nat -> nat :: Ranked(s, rank)
  }

  /** What v refers to ranks below every object on the path to it. */
  ghost predicate BelowPath(v: Obj, path: set<RefKey>, rank: nat -> nat) {
    forall n, k :: Holds(v, n) && k in path ==> rank(n) < rank(k.0)
  }

  lemma {:induction false} PresentHasNoCuts(d: Docs, l: Obj, r: Obj, depth: nat, lp: set<RefKey>, rp: set<RefKey>,
                                            pairs: set<RefPair>, lrank: nat -> nat, rrank: nat -> nat)
    requires depth <= MAX_RESOLVE_DEPTH && Ranked(d.left, lrank) && Ranked(d.right, rrank)
    requires (IsContainer(l) ==> BelowPath(l, lp, lrank)) && (IsContainer(r) ==> BelowPath(r, rp, rrank))
    ensures Present(d, l, r, depth, lp, rp, pairs).cuts == []
    decreases MAX_RESOLVE_DEPTH - depth, 2, 0
  {
    hide Ranked, Compare, Kids;
    if KindOf(l) == KindOf(r) && IsContainer(l) {
      var items := Items(l, r);
      forall i | 0 <= i < |items| && items[i].Both?
        ensures BelowPath(items[i].l, lp, lrank) && BelowPath(items[i].r, rp, rrank)
      {
        ItemsAreHeld(l, r, i);
      }
      KidsHaveNoCuts(d, items, |items|, depth, lp, rp, pairs, lrank, rrank);
    }
  }

  lemma ItemsAreHeld(l: Obj, r: Obj, i: nat)
    requires IsContainer(l) && KindOf(l) == KindOf(r) && i < |Items(l, r)| && Items(l, r)[i].Both?
    ensures forall n :: Holds(Items(l, r)[i].l, n) ==> Holds(l, n)
    ensures forall n :: Holds(Items(l, r)[i].r, n) ==> Holds(r, n)
  {
  }

  lemma {:induction false} KidsHaveNoCuts(d: Docs, items: seq<Item>, n: nat, depth: nat, lp: set<RefKey>,
                                          rp: set<RefKey>,
                                          pairs: set<RefPair>, lrank: nat -> nat, rrank: nat -> nat)
    requires n <= |items| && depth <= MAX_RESOLVE_DEPTH && Ranked(d.left, lrank) && Ranked(d.right, rrank)
    requires forall i :: 0 <= i < |items| && items[i].Both? ==>
      BelowPath(items[i].l, lp, lrank) && BelowPath(items[i].r, rp, rrank)
    ensures Kids(d, items, n, depth, lp, rp, pairs).cuts == []
    decreases MAX_RESOLVE_DEPTH - depth, 1, n
  {
    hide Ranked, BelowPath, Child;
    if n > 0 {
      KidsHaveNoCuts(d, items, n - 1, depth, lp, rp, pairs, lrank, rrank);
      if items[n - 1].Both? {
        var k := Kids(d, items, n - 1, depth, lp, rp, pairs);
        ChildHasNoCuts(d, items[n - 1].l, items[n - 1].r, depth, lp, rp, k.pairs, lrank, rrank);
      }
    }
  }

  lemma {:induction false} ChildHasNoCuts(d: Docs, l: Obj, r: Obj, depth: nat, lp: set<RefKey>, rp: set<RefKey>,
                                          pairs: set<RefPair>, lrank: nat -> nat, rrank: nat -> nat)
    requires depth <= MAX_RESOLVE_DEPTH && Ranked(d.left, lrank) && Ranked(d.right, rrank)
    requires BelowPath(l, lp, lrank) && BelowPath(r, rp, rrank)
    ensures Child(d, l, r, depth, lp, rp, pairs).cuts == []
    decreases MAX_RESOLVE_DEPTH - depth, 0, 0
  {
    hide Compare, Present, Ranked;
    OffPath(d.left, l, lp, lrank);
    OffPath(d.right, r, rp, rrank);
    if depth < MAX_RESOLVE_DEPTH {
      PresentHasNoCuts(d, Deref(d.left, l), Deref(d.right, r), depth + 1,
                       if l.Ref? then lp + {KeyOf(l)} else lp, if r.Ref? then rp + {KeyOf(r)} else rp,
                       if l.Ref? && r.Ref? then pairs + {(KeyOf(l), KeyOf(r))} else pairs, lrank, rrank);
    }
  }

  /** A reference that ranks below its path is not on it, and its target ranks below the path it extends. */
  lemma OffPath(s: Store, v: Obj, path: set<RefKey>, rank: nat -> nat)
    requires Ranked(s, rank) && BelowPath(v, path, rank)
    ensures v.Ref? ==>
      KeyOf(v) !in path && (IsContainer(Deref(s, v)) ==> BelowPath(Deref(s, v), path + {KeyOf(v)}, rank))
    ensures !v.Ref? ==> Deref(s, v) == v
  {
    if v.Ref? {
      assert Holds(v, v.num);
    }
  }

  lemma CatalogIsAbove(s: Store, v: Obj, cat: Option<RefKey>, rank: nat -> nat)
    requires Ranked(s, rank) && IsCatalog(s, v, cat)
    ensures IsContainer(v) ==> BelowPath(v, Start(cat), rank)
  {
    hide Holds;
  }

  /** For documents without reference cycles an empty summary is proof: nothing is cut, and both agree along every
      path. */
  lemma AcyclicDocumentsAgree(d: Docs, l: Obj, r: Obj, lcat: Option<RefKey>, rcat: Option<RefKey>)
    requires Acyclic(d.left) && Acyclic(d.right)
    requires IsCatalog(d.left, l, lcat) && IsCatalog(d.right, r, rcat)
    ensures var o := Walk(d, l, r, lcat, rcat); o.cuts == [] && (Clean(o.node, o.pairs) ==> Agree(d, l, r))
  {
    hide Agree, Present, Clean, Holds, Ranked, BelowPath, IsCatalog;
    var lrank :| Ranked(d.left, lrank);
    var rrank :| Ranked(d.right, rrank);
    CatalogIsAbove(d.left, l, lcat, lrank);
    CatalogIsAbove(d.right, r, rcat, rrank);
    PresentHasNoCuts(d, l, r, 0, Start(lcat), Start(rcat), {}, lrank, rrank);
    var o := Walk(d, l, r, lcat, rcat);
    if Clean(o.node, o.pairs) {
      CleanDocumentsAgree(d, l, r, lcat, rcat);
    }
  }
}
