/** The structural diff of two documents as a function: a walk of both graphs in step, cut at cycles, at
    reference pairs already entered, and at a depth cap. */
module DiffWalk {
  import opened PdfObjects

  const MAX_RESOLVE_DEPTH: nat := 32

  datatype Option<T> = None | Some(value: T)
  datatype Kind = KDict | KStream | KArray | KRef | KScalar
  datatype Status = Unchanged | Changed | Added | Removed

  type RefKey = (nat, nat)
  type RefPair = (RefKey, RefKey)

  /** The left and right object stores. */
  datatype Docs = Docs(left: Store, right: Store)

  /** A diff node.  capPair is the reference pair of a node left unwalked at the depth cap. */
  datatype Node = Node(status: Status, kind: Kind, truncated: bool, capPair: Option<RefPair>, children: seq<Node>)

  function KindOf(o: Obj): Kind {
    match o
    case Dict(_) => KDict
    case Stream(_) => KStream
    case Array(_) => KArray
    case Ref(_, _) => KRef
    case Scalar(_) => KScalar
    case Null => KScalar
  }

  function KeyOf(o: Obj): RefKey
    requires o.Ref?
  {
    (o.num, o.gen)
  }

  /** A nested value in a summary: containers and references by a fixed token. */
  function ShallowValue(o: Obj): string {
    match o
    case Dict(_) => "<<...>>"
    case Stream(_) => "<<...>>"
    case Array(_) => "[...]"
    case Ref(_, _) => "<ref>"
    case Scalar(raw) => raw
    case Null => "null"
  }

  function EntriesText(m: map<string, Obj>, keys: seq<string>, n: nat): string
    requires n <= |keys| && forall k :: k in keys ==> k in m
  {
    if n == 0 then "" else EntriesText(m, keys, n - 1) + " /" + keys[n - 1] + " " + ShallowValue(m[keys[n - 1]])
  }

  function ElemsText(a: seq<Obj>, n: nat): string
    requires n <= |a|
  {
    if n == 0 then "" else ElemsText(a, n - 1) + " " + ShallowValue(a[n - 1])
  }

  function DictText(m: map<string, Obj>): string {
    "<<" + EntriesText(m, Sorted(m.Keys), |Sorted(m.Keys)|) + " >>"
  }

  /** The byte-exact summary that decides changed or unchanged. */
  function Compare(o: Obj): string {
    match o
    case Dict(m) => DictText(m)
    case Stream(m) => DictText(m) + " stream"
    case Array(a) => "[" + ElemsText(a, |a|) + " ]"
    case Ref(_, _) => "<ref>"
    case Scalar(raw) => raw
    case Null => "null"
  }

  function Leaf(kind: Kind, l: Obj, r: Obj): Node {
    Node(if Compare(l) == Compare(r) then Unchanged else Changed, kind, false, None, [])
  }

  /** An entry or element present on both sides or on one. */
  datatype Item = Both(l: Obj, r: Obj) | OnlyLeft(l: Obj) | OnlyRight(r: Obj)

  function KeyItem(l: map<string, Obj>, r: map<string, Obj>, k: string): Item
    requires k in l || k in r
  {
    if k in l && k in r then Both(l[k], r[k]) else if k in l then OnlyLeft(l[k]) else OnlyRight(r[k])
  }

  function ElemItem(l: seq<Obj>, r: seq<Obj>, i: nat): Item
    requires i < |l| || i < |r|
  {
    if i < |l| && i < |r| then Both(l[i], r[i]) else if i < |l| then OnlyLeft(l[i]) else OnlyRight(r[i])
  }

  function Fields(o: Obj): map<string, Obj>
    requires o.Dict? || o.Stream?
  {
    o.entries
  }

  /** The aligned items of two containers of one kind: the union of the keys in order, or the indices. */
  function Items(l: Obj, r: Obj): seq<Item>
    requires IsContainer(l) && KindOf(l) == KindOf(r)
  {
    if l.Array? then
      seq(if |l.elems| < |r.elems| then |r.elems| else |l.elems|,
          i requires 0 <= i < |l.elems| || 0 <= i < |r.elems| => ElemItem(l.elems, r.elems, i))
    else
      var keys := Sorted(Fields(l).Keys + Fields(r).Keys);
      assert forall i :: 0 <= i < |keys| ==> keys[i] in keys;
      seq(|keys|, i requires 0 <= i < |keys| => KeyItem(Fields(l), Fields(r), keys[i]))
  }

  /** A node, the reference pairs entered so far, the value pairs cut as cycles on the way, and the resolved pairs
      compared by their summaries only. */
  datatype Out = Out(node: Node, pairs: set<RefPair>, cuts: seq<(Obj, Obj)>, summed: seq<(Obj, Obj)>)
  datatype KidsOut = KidsOut(nodes: seq<Node>, pairs: set<RefPair>, cuts: seq<(Obj, Obj)>, summed: seq<(Obj, Obj)>)

  predicate AllUnchanged(nodes: seq<Node>) {
    forall i :: 0 <= i < |nodes| ==> nodes[i].status == Unchanged
  }

  /** Diffs two resolved values.  lp and rp are the references on the path to each side. */
  function Present(d: Docs, l: Obj, r: Obj, depth: nat, lp: set<RefKey>, rp: set<RefKey>, pairs: set<RefPair>): Out
    requires depth <= MAX_RESOLVE_DEPTH
    decreases MAX_RESOLVE_DEPTH - depth, 2, 0
  {
    if KindOf(l) != KindOf(r) then Out(Node(Changed, KindOf(r), false, None, []), pairs, [], [])
    else if IsContainer(l) then
      var items := Items(l, r);
      var k := Kids(d, items, |items|, depth, lp, rp, pairs);
      Out(Node(if AllUnchanged(k.nodes) then Unchanged else Changed, KindOf(l), false, None, k.nodes), k.pairs, k.cuts,
          k.summed)
    else Out(Leaf(KindOf(l), l, r), pairs, [], [])
  }

  /** Diffs the first n items in order. */
  function Kids(d: Docs, items: seq<Item>, n: nat, depth: nat, lp: set<RefKey>, rp: set<RefKey>,
                pairs: set<RefPair>): KidsOut
    requires n <= |items| && depth <= MAX_RESOLVE_DEPTH
    decreases MAX_RESOLVE_DEPTH - depth, 1, n
  {
    if n == 0 then KidsOut([], pairs, [], [])
    else
      var k := Kids(d, items, n - 1, depth, lp, rp, pairs);
      var o := ItemNode(d, items[n - 1], depth, lp, rp, k.pairs);
      KidsOut(k.nodes + [o.node], o.pairs, k.cuts + o.cuts, k.summed + o.summed)
  }

  function ItemNode(d: Docs, item: Item, depth: nat, lp: set<RefKey>, rp: set<RefKey>, pairs: set<RefPair>): Out
    requires depth <= MAX_RESOLVE_DEPTH
    decreases MAX_RESOLVE_DEPTH - depth, 0, 1
  {
    match item
    case Both(l, r) => Child(d, l, r, depth, lp, rp, pairs)
    case OnlyLeft(l) => Out(Node(Removed, KindOf(Deref(d.left, l)), false, None, []), pairs, [], [])
    case OnlyRight(r) => Out(Node(Added, KindOf(Deref(d.right, r)), false, None, []), pairs, [], [])
  }

  /** Diffs one entry or element present on both sides, following references. */
  function Child(d: Docs, l: Obj, r: Obj, depth: nat, lp: set<RefKey>, rp: set<RefKey>, pairs: set<RefPair>): Out
    requires depth <= MAX_RESOLVE_DEPTH
    decreases MAX_RESOLVE_DEPTH - depth, 0, 0
  {
    var l', r' := Deref(d.left, l), Deref(d.right, r);
    if (l.Ref? && KeyOf(l) in lp) || (r.Ref? && KeyOf(r) in rp) then
      Out(Leaf(KRef, l', r'), pairs, [(l, r)], [(l', r')])
    else if depth == MAX_RESOLVE_DEPTH then
      Out(Leaf(KRef, l', r').(truncated := true,
                              capPair := if l.Ref? && r.Ref? then Some((KeyOf(l), KeyOf(r))) else None),
          pairs, [], [(l', r')])
    else if l.Ref? && r.Ref? && (KeyOf(l), KeyOf(r)) in pairs then Out(Leaf(KRef, l', r'), pairs, [], [(l', r')])
    else
      Present(d, l', r', depth + 1,
              if l.Ref? then lp + {KeyOf(l)} else lp, if r.Ref? then rp + {KeyOf(r)} else rp,
              if l.Ref? && r.Ref? then pairs + {(KeyOf(l), KeyOf(r))} else pairs)
  }

  /** The path sets a walk from the catalogs starts with. */
  function Start(cat: Option<RefKey>): set<RefKey> {
    match cat
    case Some(k) => {k}
    case None => {}
  }

  /** The diff of two documents from their catalogs. */
  function Walk(d: Docs, l: Obj, r: Obj, lcat: Option<RefKey>, rcat: Option<RefKey>): Out {
    Present(d, l, r, 0, Start(lcat), Start(rcat), {})
  }

  /** Clears the depth-cap mark of every node whose reference pair was entered elsewhere. */
  function Reconcile(n: Node, entered: set<RefPair>): Node {
    n.(truncated := n.truncated && !(n.capPair.Some? && n.capPair.value in entered),
       children := seq(|n.children|, i requires 0 <= i < |n.children| => Reconcile(n.children[i], entered)))
  }

  datatype Tally = Tally(added: nat, removed: nat, changed: nat, truncated: nat)

  const NO_DELTA := Tally(0, 0, 0, 0)

  function Plus(a: Tally, b: Tally): Tally {
    Tally(a.added + b.added, a.removed + b.removed, a.changed + b.changed, a.truncated + b.truncated)
  }

  /** The number of nodes of the tree n that have property p. */
  function CountNodes(n: Node, p: Node -> bool): nat {
    (if p(n) then 1 else 0) + CountFirst(n.children, |n.children|, p)
  }

  function CountFirst(nodes: seq<Node>, n: nat, p: Node -> bool): nat
    requires n <= |nodes|
    decreases nodes, n
  {
    if n == 0 then 0 else CountFirst(nodes, n - 1, p) + CountNodes(nodes[n - 1], p)
  }

  const IS_ADDED := (n: Node) => n.status == Added
  const IS_REMOVED := (n: Node) => n.status == Removed
  const IS_CHANGED_LEAF := (n: Node) => n.status == Changed && n.children == []
  const IS_TRUNCATED := (n: Node) => n.truncated

  /** The delta points of a tree: added and removed nodes, changed leaves, and depth-capped nodes. */
  function Count(n: Node): Tally {
    Tally(CountNodes(n, IS_ADDED), CountNodes(n, IS_REMOVED), CountNodes(n, IS_CHANGED_LEAF),
          CountNodes(n, IS_TRUNCATED))
  }
}
