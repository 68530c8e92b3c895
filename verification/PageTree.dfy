/** The page tree: which node sits at each position, and which attributes it has there. */
module PageTree {
  import opened PdfObjects

  datatype Option<T> = None | Some(value: T)

  type RefKey = (nat, nat)

  /** The kid indices that lead from the root to a node. */
  type Position = seq<nat>

  /** The objects, and the catalog's entry for the root of the page tree. */
  datatype Tree = Tree(store: Store, root: Obj)

  const MAX_PAGE_TREE_DEPTH: nat := 1024

  /** A value with its reference followed; None when it is null, missing, or refers to nothing. */
  function Lookup(s: Store, o: Obj): Option<Obj> {
    match o
    case Null => None
    case Ref(n, _) => if n in s && !s[n].Null? then Some(s[n]) else None
    case _ => Some(o)
  }

  function Own(m: map<string, Obj>, key: string): Obj {
    if key in m then m[key] else Null
  }

  datatype Kind = PageNode | Intermediate | Hollow

  /** How a dictionary in the page tree counts: first by /Type /Page, then by /Kids, then by /Type /Pages. */
  function KindOf(s: Store, m: map<string, Obj>): Kind {
    var typ := Lookup(s, Own(m, "Type"));
    if typ == Some(Scalar("/Page")) then PageNode
    else if "Kids" in m then Intermediate
    else if typ == Some(Scalar("/Pages")) then Hollow
    else PageNode
  }

  /** The kids of a dictionary that is descended into. */
  function KidsOf(s: Store, m: map<string, Obj>): Option<seq<Obj>> {
    if KindOf(s, m) != Intermediate then None
    else
      match Lookup(s, Own(m, "Kids"))
      case Some(Array(kids)) => Some(kids)
      case _ => None
  }

  function DictOf(s: Store, o: Obj): Option<map<string, Obj>> {
    match Lookup(s, o)
    case Some(Dict(m)) => Some(m)
    case _ => None
  }

  /** The value at a position, as its parent lists it. */
  function At(t: Tree, p: Position): Option<Obj>
    decreases |p|, 0
  {
    if p == [] then Some(t.root)
    else
      var n := |p| - 1;
      match KidsAt(t, p[..n])
      case None => None
      case Some(kids) => if p[n] < |kids| then Some(kids[p[n]]) else None
  }

  function DictAt(t: Tree, p: Position): Option<map<string, Obj>>
    decreases |p|, 1
  {
    match At(t, p)
    case None => None
    case Some(o) => DictOf(t.store, o)
  }

  function KidsAt(t: Tree, p: Position): Option<seq<Obj>>
    decreases |p|, 2
  {
    match DictAt(t, p)
    case None => None
    case Some(m) => KidsOf(t.store, m)
  }

  function RefOf(o: Obj): Option<RefKey> {
    if o.Ref? then Some((o.num, o.gen)) else None
  }

  /** The object number of an indirect node. */
  function NumAt(t: Tree, p: Position): Option<nat> {
    match At(t, p)
    case Some(Ref(n, _)) => Some(n)
    case _ => None
  }

  predicate IsPage(t: Tree, p: Position) {
    DictAt(t, p).Some? && KindOf(t.store, DictAt(t, p).value) == PageNode
  }

  // Order of positions.

  /** p comes before q in document order, neither on the way to the other. */
  ghost predicate Earlier(p: Position, q: Position) {
    exists k :: EarlierAt(p, q, k)
  }

  predicate EarlierAt(p: Position, q: Position, k: nat) {
    k < |p| && k < |q| && p[..k] == q[..k] && p[k] < q[k]
  }

  lemma EarlierBelow(p: Position, q: Position, r: Position)
    requires Earlier(p, q) && q <= r
    ensures Earlier(p, r)
  {
    var k: nat :| EarlierAt(p, q, k);
    assert r[..k] == q[..k] && r[k] == q[k];
    assert EarlierAt(p, r, k);
  }

  lemma BelowEarlier(p: Position, q: Position, r: Position)
    requires Earlier(p, q) && p <= r
    ensures Earlier(r, q)
  {
    var k: nat :| EarlierAt(p, q, k);
    assert r[..k] == p[..k] && r[k] == p[k];
    assert EarlierAt(r, q, k);
  }

  lemma NextIsLater(p: Position, i: nat, j: nat)
    requires i < j
    ensures Earlier(p + [i], p + [j])
  {
    assert (p + [i])[..|p|] == p == (p + [j])[..|p|];
    assert EarlierAt(p + [i], p + [j], |p|);
  }

  lemma NotEarlierAndBelow(p: Position, q: Position)
    requires Earlier(p, q)
    ensures !(p <= q) && !(q <= p)
  {
  }

  // Inherited attributes.

  const ATTRIBUTES := ["Resources", "MediaBox", "CropBox", "Rotate"]

  /** Where an entry that resolves to nothing stands. */
  datatype Label = Nowhere | Direct | At_(ref: RefKey)

  function LabelOf(ref: Option<RefKey>): Label {
    if ref.Some? then At_(ref.value) else Direct
  }

  /** One inheritable attribute at a node: its value in effect, and the nearest entry without one. */
  datatype Attr = Attr(value: Option<Obj>, unresolvedAt: Label)

  const NO_ATTR := Attr(None, Nowhere)

  /** The node's own entry when it resolves, else what is inherited; an own entry that does not is noted. */
  function Pick(s: Store, m: map<string, Obj>, ref: Option<RefKey>, key: string, inherited: Attr): Attr {
    var v := Own(m, key);
    if v.Null? then inherited
    else
      match Lookup(s, v)
      case Some(r) => Attr(Some(r), Nowhere)
      case None => Attr(inherited.value, LabelOf(ref))
  }

  /** The attribute in effect at a position. */
  function AttrAt(t: Tree, p: Position, key: string): Attr
    decreases |p|
  {
    var above := if p == [] then NO_ATTR else AttrAt(t, p[..|p| - 1], key);
    match DictAt(t, p)
    case None => above
    case Some(m) => Pick(t.store, m, RefOf(At(t, p).value), key, above)
  }

  /** The node's own entry for key. */
  function OwnAt(t: Tree, p: Position, key: string): Obj {
    match DictAt(t, p)
    case None => Null
    case Some(m) => Own(m, key)
  }

  /** The node q on the way to p is the nearest whose own entry resolves. */
  ghost predicate NearestResolving(t: Tree, q: Position, p: Position, key: string) {
    && q <= p && Lookup(t.store, OwnAt(t, q, key)).Some?
    && forall r :: q < r <= p ==> Lookup(t.store, OwnAt(t, r, key)).None?
  }

  /** The node q on the way to p is the nearest with an entry of its own. */
  ghost predicate NearestOwning(t: Tree, q: Position, p: Position, key: string) {
    && q <= p && !OwnAt(t, q, key).Null?
    && forall r :: q < r <= p ==> OwnAt(t, r, key).Null?
  }

  lemma PrefixStep(q: Position, p: Position)
    ensures p != [] ==> (q <= p <==> q == p || q <= p[..|p| - 1])
    ensures p == [] ==> (q <= p <==> q == [])
  {
    if p != [] && q <= p && q != p {
      assert |q| < |p|;
      assert q <= p[..|p| - 1];
    }
  }

  /** An attribute's value is that of the nearest node on the way down whose own entry resolves, and there is none
      exactly when no such node exists. */
  lemma {:induction false} AttrIsNearest(t: Tree, p: Position, key: string)
    ensures var v := AttrAt(t, p, key).value;
      && (v.Some? <==> exists q :: NearestResolving(t, q, p, key))
      && forall q :: NearestResolving(t, q, p, key) ==> v == Lookup(t.store, OwnAt(t, q, key))
    decreases |p|
  {
    var v := AttrAt(t, p, key).value;
    if Lookup(t.store, OwnAt(t, p, key)).Some? {
      assert NearestResolving(t, p, p, key);
      forall q | NearestResolving(t, q, p, key)
        ensures q == p
      {
      }
    } else if p != [] {
      var above := p[..|p| - 1];
      AttrIsNearest(t, above, key);
      forall q
        ensures NearestResolving(t, q, p, key) <==> NearestResolving(t, q, above, key)
      {
        PrefixStep(q, p);
        if NearestResolving(t, q, above, key) {
          forall r | q < r <= p
            ensures Lookup(t.store, OwnAt(t, r, key)).None?
          {
            PrefixStep(r, p);
          }
        }
      }
    } else {
      forall q
        ensures !NearestResolving(t, q, p, key)
      {
        PrefixStep(q, p);
      }
    }
  }

  /** The node an attribute is noted as unresolved at is the nearest with an own entry, when that entry resolves to
      nothing; and it is noted nowhere exactly when no such node exists. */
  lemma {:induction false} UnresolvedIsNearest(t: Tree, p: Position, key: string)
    ensures forall q :: NearestOwning(t, q, p, key) ==>
      AttrAt(t, p, key).unresolvedAt ==
      if Lookup(t.store, OwnAt(t, q, key)).Some? then Nowhere else LabelOf(RefOf(At(t, q).value))
    ensures (forall q :: !NearestOwning(t, q, p, key)) ==> AttrAt(t, p, key).unresolvedAt == Nowhere
    decreases |p|
  {
    if !OwnAt(t, p, key).Null? {
      assert NearestOwning(t, p, p, key);
      forall q | NearestOwning(t, q, p, key)
        ensures q == p
      {
      }
    } else if p != [] {
      var above := p[..|p| - 1];
      UnresolvedIsNearest(t, above, key);
      forall q
        ensures NearestOwning(t, q, p, key) <==> NearestOwning(t, q, above, key)
      {
        PrefixStep(q, p);
        if NearestOwning(t, q, above, key) {
          forall r | q < r <= p
            ensures OwnAt(t, r, key).Null?
          {
            PrefixStep(r, p);
          }
        }
      }
    } else {
      forall q
        ensures !NearestOwning(t, q, p, key)
      {
        PrefixStep(q, p);
      }
    }
  }
}
