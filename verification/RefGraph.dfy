/** The reference graph of a document: where references occur inside objects, and which objects are reachable
    from the catalog, in how many references. */
module RefGraph {
  import opened PdfObjects

  type RefKey = (nat, nat)
  datatype Step = Key(k: string) | Index(i: nat)
  type Path = seq<Step>

  datatype Option<T> = None | Some(value: T)

  function StepInto(v: Obj, s: Step): Option<Obj> {
    match s
    case Key(k) => if (v.Dict? || v.Stream?) && k in v.entries then Some(v.entries[k]) else None
    case Index(i) => if v.Array? && i < |v.elems| then Some(v.elems[i]) else None
  }

  /** The value that path leads to inside v, without following references. */
  function Inline(v: Obj, path: Path): Option<Obj>
    decreases |path|
  {
    if path == [] then Some(v)
    else match StepInto(v, path[0])
      case None => None
      case Some(c) => Inline(c, path[1..])
  }

  /** A reference to k sits at path inside v. */
  ghost predicate OccursAt(v: Obj, path: Path, k: RefKey) {
    path != [] && Inline(v, path) == Some(Ref(k.0, k.1))
  }

  ghost predicate Occurs(v: Obj, k: RefKey) {
    exists path :: OccursAt(v, path, k)
  }

  /** A document: its objects by number, its catalog, and the reference to the catalog when it has one. */
  datatype Document = Document(store: Store, catalog: Obj, root: Option<RefKey>)

  /** The reference to the catalog leads to the catalog. */
  ghost predicate Rooted(d: Document) {
    && (d.catalog.Dict?)
    && (d.root.Some? ==> d.root.value.0 in d.store && d.store[d.root.value.0] == d.catalog)
  }

  /** The object k resolves to, or None when the lookup fails or gives null. */
  function Resolve(d: Document, k: RefKey): Option<Obj> {
    if k.0 in d.store && !d.store[k.0].Null? then Some(d.store[k.0]) else None
  }

  /** k is reached from the catalog through at most n references, itself the last. */
  ghost predicate Within(d: Document, n: nat, k: RefKey)
    decreases n
  {
    n > 0 && (Occurs(d.catalog, k) || exists j :: Within(d, n - 1, j) && Links(d, j, k))
  }

  /** The object of j holds a reference to k. */
  ghost predicate Links(d: Document, j: RefKey, k: RefKey) {
    Resolve(d, j).Some? && Occurs(Resolve(d, j).value, k)
  }

  ghost predicate Reachable(d: Document, k: RefKey) {
    exists n: nat :: Within(d, n, k)
  }

  lemma {:induction false} WithinMonotone(d: Document, m: nat, n: nat, k: RefKey)
    requires m <= n && Within(d, m, k)
    ensures Within(d, n, k)
    decreases m
  {
    if !Occurs(d.catalog, k) {
      var j :| Within(d, m - 1, j) && Links(d, j, k);
      WithinMonotone(d, m - 1, n - 1, j);
    }
  }

  lemma ReachesOn(d: Document, j: RefKey, k: RefKey)
    requires Reachable(d, j) && Links(d, j, k)
    ensures Reachable(d, k)
  {
    var n: nat :| Within(d, n, j);
    assert Within(d, n + 1, k);
  }

  lemma CatalogReaches(d: Document, k: RefKey)
    requires Occurs(d.catalog, k)
    ensures Reachable(d, k)
  {
    assert Within(d, 1, k);
  }

  /** A set that holds what the catalog names and what its members name holds everything reachable. */
  lemma {:induction false} ClosedHoldsWithin(d: Document, s: iset<RefKey>, n: nat, k: RefKey)
    requires forall x :: Occurs(d.catalog, x) ==> x in s
    requires forall j, x :: j in s && Links(d, j, x) ==> x in s
    requires Within(d, n, k)
    ensures k in s
    decreases n
  {
    if !Occurs(d.catalog, k) {
      var j :| Within(d, n - 1, j) && Links(d, j, k);
      ClosedHoldsWithin(d, s, n - 1, j);
    }
  }

  // Occurrences, listed in scan order.

  datatype Occ = Occ(key: RefKey, path: Path)

  /** The references inside container v, whose own location is prefix, in scan order. */
  function OccIn(v: Obj, prefix: Path): seq<Occ>
    decreases v, 1
  {
    match v
    case Dict(m) => OccEntries(v, Sorted(m.Keys), |Sorted(m.Keys)|, prefix)
    case Stream(m) => OccEntries(v, Sorted(m.Keys), |Sorted(m.Keys)|, prefix)
    case Array(a) => OccElems(v, |a|, prefix)
    case _ => []
  }

  /** The references at or inside value v at path. */
  function OccAt(v: Obj, path: Path): seq<Occ>
    decreases v, 2
  {
    if v.Ref? then [Occ((v.num, v.gen), path)] else OccIn(v, path)
  }

  function OccEntries(v: Obj, keys: seq<string>, n: nat, prefix: Path): seq<Occ>
    requires (v.Dict? || v.Stream?) && n <= |keys| && forall i :: 0 <= i < |keys| ==> keys[i] in v.entries
    decreases v, 0, n
  {
    if n == 0 then []
    else OccEntries(v, keys, n - 1, prefix) + OccAt(v.entries[keys[n - 1]], prefix + [Key(keys[n - 1])])
  }

  function OccElems(v: Obj, n: nat, prefix: Path): seq<Occ>
    requires v.Array? && n <= |v.elems|
    decreases v, 0, n
  {
    if n == 0 then [] else OccElems(v, n - 1, prefix) + OccAt(v.elems[n - 1], prefix + [Index(n - 1)])
  }

  ghost predicate Extends(path: Path, prefix: Path) {
    |prefix| <= |path| && path[..|prefix|] == prefix
  }

  /** A listed occurrence sits where its path says. */
  ghost predicate Placed(v: Obj, prefix: Path, o: Occ) {
    Extends(o.path, prefix) && OccursAt(v, o.path[|prefix|..], o.key)
  }

  lemma PlacedBelow(v: Obj, prefix: Path, s: Step, o: Occ)
    requires StepInto(v, s).Some? && Extends(o.path, prefix + [s])
    requires Inline(StepInto(v, s).value, o.path[|prefix| + 1..]) == Some(Ref(o.key.0, o.key.1))
    ensures Placed(v, prefix, o) && o.path[|prefix|] == s
  {
    var rest := o.path[|prefix|..];
    assert o.path[..|prefix|] == (prefix + [s])[..|prefix|] == prefix;
    assert o.path[|prefix|] == o.path[..|prefix| + 1][|prefix|] == s;
    assert rest[0] == s && rest[1..] == o.path[|prefix| + 1..];
  }

  lemma {:induction false} OccInPlaced(v: Obj, prefix: Path, o: Occ)
    requires o in OccIn(v, prefix)
    ensures Placed(v, prefix, o)
    decreases v, 1
  {
    match v
    case Dict(m) => OccEntriesPlaced(v, Sorted(m.Keys), |Sorted(m.Keys)|, prefix, o);
    case Stream(m) => OccEntriesPlaced(v, Sorted(m.Keys), |Sorted(m.Keys)|, prefix, o);
    case Array(a) => OccElemsPlaced(v, |a|, prefix, o);
    case _ =>
  }

  lemma {:induction false} OccAtPlaced(v: Obj, path: Path, o: Occ)
    requires o in OccAt(v, path)
    ensures Extends(o.path, path) && Inline(v, o.path[|path|..]) == Some(Ref(o.key.0, o.key.1))
    decreases v, 2
  {
    if !v.Ref? {
      OccInPlaced(v, path, o);
    }
  }

  lemma {:induction false} OccEntriesPlaced(v: Obj, keys: seq<string>, n: nat, prefix: Path, o: Occ)
    requires (v.Dict? || v.Stream?) && n <= |keys| && forall i :: 0 <= i < |keys| ==> keys[i] in v.entries
    requires o in OccEntries(v, keys, n, prefix)
    ensures Placed(v, prefix, o)
    ensures exists i :: 0 <= i < n && o.path[|prefix|] == Key(keys[i])
    decreases v, 0, n
  {
    var k := keys[n - 1];
    if o in OccEntries(v, keys, n - 1, prefix) {
      OccEntriesPlaced(v, keys, n - 1, prefix, o);
    } else {
      OccAtPlaced(v.entries[k], prefix + [Key(k)], o);
      PlacedBelow(v, prefix, Key(k), o);
    }
  }

  lemma {:induction false} OccElemsPlaced(v: Obj, n: nat, prefix: Path, o: Occ)
    requires v.Array? && n <= |v.elems| && o in OccElems(v, n, prefix)
    ensures Placed(v, prefix, o)
    ensures exists i :: 0 <= i < n && o.path[|prefix|] == Index(i)
    decreases v, 0, n
  {
    if o in OccElems(v, n - 1, prefix) {
      OccElemsPlaced(v, n - 1, prefix, o);
    } else {
      OccAtPlaced(v.elems[n - 1], prefix + [Index(n - 1)], o);
      PlacedBelow(v, prefix, Index(n - 1), o);
    }
  }

  lemma {:induction false} EntriesHold(v: Obj, keys: seq<string>, n: nat, prefix: Path, i: nat)
    requires (v.Dict? || v.Stream?) && n <= |keys| && forall i :: 0 <= i < |keys| ==> keys[i] in v.entries
    requires i < n
    ensures forall o :: o in OccAt(v.entries[keys[i]], prefix + [Key(keys[i])]) ==> o in OccEntries(v, keys, n, prefix)
    decreases n
  {
    if i < n - 1 {
      EntriesHold(v, keys, n - 1, prefix, i);
    }
  }

  lemma {:induction false} ElemsHold(v: Obj, n: nat, prefix: Path, i: nat)
    requires v.Array? && i < n <= |v.elems|
    ensures forall o :: o in OccAt(v.elems[i], prefix + [Index(i)]) ==> o in OccElems(v, n, prefix)
    decreases n
  {
    if i < n - 1 {
      ElemsHold(v, n - 1, prefix, i);
    }
  }

  /** Every occurrence is listed. */
  lemma {:induction false} OccInComplete(v: Obj, prefix: Path, path: Path, k: RefKey)
    requires OccursAt(v, path, k)
    ensures Occ(k, prefix + path) in OccIn(v, prefix)
    decreases v, 1
  {
    var s := path[0];
    var c := StepInto(v, s).value;
    assert prefix + path == (prefix + [s]) + path[1..];
    match s
    case Key(key) =>
      var keys := Sorted(v.entries.Keys);
      var i: nat :| i < |keys| && keys[i] == key;
      OccAtComplete(c, prefix + [s], path[1..], k);
      EntriesHold(v, keys, |keys|, prefix, i);
    case Index(i) =>
      OccAtComplete(c, prefix + [s], path[1..], k);
      ElemsHold(v, |v.elems|, prefix, i);
  }

  lemma {:induction false} OccAtComplete(v: Obj, at: Path, path: Path, k: RefKey)
    requires Inline(v, path) == Some(Ref(k.0, k.1))
    ensures Occ(k, at + path) in OccAt(v, at)
    decreases v, 2
  {
    if path == [] {
      assert at + path == at;
    } else {
      assert !v.Ref?;
      OccInComplete(v, at, path, k);
    }
  }

  /** No two listed occurrences share a path. */
  ghost predicate DistinctPaths(s: seq<Occ>) {
    forall i, j :: 0 <= i < j < |s| ==> s[i].path != s[j].path
  }

  lemma DistinctJoin(a: seq<Occ>, b: seq<Occ>, at: nat)
    requires DistinctPaths(a) && DistinctPaths(b)
    requires forall o, p :: o in a && p in b ==> at < |o.path| && at < |p.path| && o.path[at] != p.path[at]
    ensures DistinctPaths(a + b)
  {
    forall i, j | 0 <= i < j < |a + b|
      ensures (a + b)[i].path != (a + b)[j].path
    {
      if i < |a| <= j {
        assert (a + b)[i] in a && (a + b)[j] in b;
      }
    }
  }

  lemma {:induction false} OccInDistinct(v: Obj, prefix: Path)
    ensures DistinctPaths(OccIn(v, prefix))
    decreases v, 1
  {
    match v
    case Dict(m) => OccEntriesDistinct(v, Sorted(m.Keys), |Sorted(m.Keys)|, prefix);
    case Stream(m) => OccEntriesDistinct(v, Sorted(m.Keys), |Sorted(m.Keys)|, prefix);
    case Array(a) => OccElemsDistinct(v, |a|, prefix);
    case _ =>
  }

  lemma {:induction false} OccEntriesDistinct(v: Obj, keys: seq<string>, n: nat, prefix: Path)
    requires (v.Dict? || v.Stream?) && n <= |keys| && forall i :: 0 <= i < |keys| ==> keys[i] in v.entries
    requires forall i, j :: 0 <= i < j < |keys| ==> Before(keys[i], keys[j])
    ensures DistinctPaths(OccEntries(v, keys, n, prefix))
    decreases v, 0, n
  {
    if n > 0 {
      var k := keys[n - 1];
      var c := v.entries[k];
      OccEntriesDistinct(v, keys, n - 1, prefix);
      if !c.Ref? {
        OccInDistinct(c, prefix + [Key(k)]);
      }
      var a, b := OccEntries(v, keys, n - 1, prefix), OccAt(c, prefix + [Key(k)]);
      forall o, p | o in a && p in b
        ensures |prefix| < |o.path| && |prefix| < |p.path| && o.path[|prefix|] != p.path[|prefix|]
      {
        OccEntriesPlaced(v, keys, n - 1, prefix, o);
        OccAtPlaced(c, prefix + [Key(k)], p);
        PlacedBelow(v, prefix, Key(k), p);
        var i :| 0 <= i < n - 1 && o.path[|prefix|] == Key(keys[i]);
        BeforeTotal(keys[i], k);
      }
      DistinctJoin(a, b, |prefix|);
    }
  }

  lemma {:induction false} OccElemsDistinct(v: Obj, n: nat, prefix: Path)
    requires v.Array? && n <= |v.elems|
    ensures DistinctPaths(OccElems(v, n, prefix))
    decreases v, 0, n
  {
    if n > 0 {
      var c := v.elems[n - 1];
      OccElemsDistinct(v, n - 1, prefix);
      if !c.Ref? {
        OccInDistinct(c, prefix + [Index(n - 1)]);
      }
      var a, b := OccElems(v, n - 1, prefix), OccAt(c, prefix + [Index(n - 1)]);
      forall o, p | o in a && p in b
        ensures |prefix| < |o.path| && |prefix| < |p.path| && o.path[|prefix|] != p.path[|prefix|]
      {
        OccElemsPlaced(v, n - 1, prefix, o);
        OccAtPlaced(c, prefix + [Index(n - 1)], p);
        PlacedBelow(v, prefix, Index(n - 1), p);
      }
      DistinctJoin(a, b, |prefix|);
    }
  }

  /** The list of references inside v names exactly the references that occur in v, each location once. */
  lemma OccInIsExact(v: Obj)
    ensures forall path, k :: Occ(k, path) in OccIn(v, []) <==> OccursAt(v, path, k)
    ensures DistinctPaths(OccIn(v, []))
  {
    forall path, k
      ensures Occ(k, path) in OccIn(v, []) <==> OccursAt(v, path, k)
    {
      if OccursAt(v, path, k) {
        OccInComplete(v, [], path, k);
        assert [] + path == path;
      }
      if Occ(k, path) in OccIn(v, []) {
        OccInPlaced(v, [], Occ(k, path));
        assert path[0..] == path;
      }
    }
    OccInDistinct(v, []);
  }

  /** Every reference occurring anywhere in the document. */
  ghost function Keys(d: Document): set<RefKey> {
    (set o | o in OccIn(d.catalog, []) :: o.key) + (set n, o | n in d.store && o in OccIn(d.store[n], []) :: o.key)
  }
}
