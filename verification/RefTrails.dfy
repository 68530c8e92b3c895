/** Reachability spelled out over the stored objects: which references stand where, and the trails they make from the
    catalog. */
module RefTrails {
  import opened PdfObjects
  import opened RefGraph
  import opened RefSearch

  /** A container holds x under a key or at an index. */
  predicate Holds(c: Obj, s: Step, x: Obj) {
    match c
    case Dict(m) => s.Key? && s.k in m && m[s.k] == x
    case Stream(m) => s.Key? && s.k in m && m[s.k] == x
    case Array(a) => s.Index? && s.i < |a| && a[s.i] == x
    case _ => false
  }

  /** The values along a path, each held by the one before. */
  ghost predicate Descends(v: Obj, path: Path, x: Obj, along: seq<Obj>) {
    && |along| == |path| + 1 && along[0] == v && along[|path|] == x
    && forall i :: 0 <= i < |path| ==> Holds(along[i], path[i], along[i + 1])
  }

  /** A reference to k stands at path inside v. */
  ghost predicate Stands(v: Obj, path: Path, k: RefKey) {
    path != [] && exists along :: Descends(v, path, Ref(k.0, k.1), along)
  }

  /** The object of j, which is stored and not null, holds a reference to k at path. */
  ghost predicate Refers(d: Document, j: RefKey, path: Path, k: RefKey) {
    j.0 in d.store && d.store[j.0] != Null && Stands(d.store[j.0], path, k)
  }

  /** From the catalog, each object of the trail refers to the next at the piece of path between them. */
  ghost predicate IsTrail(d: Document, trail: seq<RefKey>, pieces: seq<Path>) {
    && |pieces| == |trail| > 0 && Stands(d.catalog, pieces[0], trail[0])
    && forall i :: 0 < i < |trail| ==> Refers(d, trail[i - 1], pieces[i], trail[i])
  }

  ghost predicate TrailTo(d: Document, trail: seq<RefKey>, pieces: seq<Path>, k: RefKey) {
    IsTrail(d, trail, pieces) && trail[|trail| - 1] == k
  }

  ghost predicate Leads(d: Document, k: RefKey) {
    exists trail, pieces :: TrailTo(d, trail, pieces, k)
  }

  function Whole(pieces: seq<Path>): Path {
    if pieces == [] then [] else Whole(pieces[..|pieces| - 1]) + pieces[|pieces| - 1]
  }

  /** The path goes along a trail to k, and no trail to k is shorter. */
  ghost predicate GoesNearest(d: Document, path: Path, trail: seq<RefKey>, pieces: seq<Path>, k: RefKey) {
    && TrailTo(d, trail, pieces, k) && path == Whole(pieces)
    && forall other, parts :: TrailTo(d, other, parts, k) ==> |trail| <= |other|
  }

  ghost predicate IsListed(out: map<RefKey, seq<Edge>>, t: RefKey, p: RefKey, path: Path) {
    t in out && exists e :: e in out[t] && e.parent == p && e.path == path
  }

  /** The edges listed for an object are the references to it from the catalog and from the objects that trails lead
      to. */
  ghost predicate ListsReferences(d: Document, out: map<RefKey, seq<Edge>>) {
    forall t, p, path ::
      IsListed(out, t, p, path) <==> (d.root == Some(p) || Leads(d, p)) && Refers(d, p, path, t)
  }

  ghost predicate ComesNearest(d: Document, e: Edge) {
    || (d.root == Some(e.parent) && e.parentPath == [])
    || exists trail, pieces :: GoesNearest(d, e.parentPath, trail, pieces, e.parent)
  }

  /** Each edge comes with a path along a shortest trail to the object it is in. */
  ghost predicate ListsNearest(d: Document, out: map<RefKey, seq<Edge>>) {
    forall t, e :: t in out && e in out[t] ==> ComesNearest(d, e)
  }

  // These are the graph's own notions.

  lemma HoldsIff(c: Obj, s: Step, x: Obj)
    ensures Holds(c, s, x) <==> StepInto(c, s) == Some(x)
  {
  }

  lemma {:induction false} InlineIff(v: Obj, path: Path, x: Obj)
    ensures Inline(v, path) == Some(x) <==> exists along :: Descends(v, path, x, along)
    decreases |path|
  {
    if path == [] {
      if v == x {
        assert Descends(v, path, x, [v]);
      }
    } else {
      var s := path[0];
      if Inline(v, path) == Some(x) {
        var c := StepInto(v, s).value;
        HoldsIff(v, s, c);
        InlineIff(c, path[1..], x);
        var along :| Descends(c, path[1..], x, along);
        DescendsFrom(v, path, x, along);
      }
      if along :| Descends(v, path, x, along) {
        HoldsIff(v, s, along[1]);
        assert Descends(along[1], path[1..], x, along[1..]);
        InlineIff(along[1], path[1..], x);
      }
    }
  }

  lemma DescendsFrom(v: Obj, path: Path, x: Obj, along: seq<Obj>)
    requires path != [] && along != [] && Holds(v, path[0], along[0]) && Descends(along[0], path[1..], x, along)
    ensures Descends(v, path, x, [v] + along)
  {
    var all := [v] + along;
    forall i | 0 <= i < |path|
      ensures Holds(all[i], path[i], all[i + 1])
    {
      if i > 0 {
        assert Holds(along[i - 1], path[1..][i - 1], along[i]);
      }
    }
  }

  lemma StandsIff(v: Obj, path: Path, k: RefKey)
    ensures Stands(v, path, k) <==> OccursAt(v, path, k)
  {
    InlineIff(v, path, Ref(k.0, k.1));
  }

  lemma RefersIff(d: Document, j: RefKey, path: Path, k: RefKey)
    ensures Refers(d, j, path, k) <==> Resolve(d, j).Some? && OccursAt(Resolve(d, j).value, path, k)
  {
    if Resolve(d, j).Some? {
      StandsIff(Resolve(d, j).value, path, k);
    }
  }

  /** A trail of n references is a route through as many. */
  lemma {:induction false} TrailIsRoute(d: Document, trail: seq<RefKey>, pieces: seq<Path>, k: RefKey)
    requires TrailTo(d, trail, pieces, k)
    ensures Route(d, Whole(pieces), |trail|, k)
    decreases |trail|
  {
    hide Stands, Refers, OccursAt, Resolve;
    var n := |trail| - 1;
    if n == 0 {
      StandsIff(d.catalog, pieces[0], k);
      assert Whole(pieces) == Whole(pieces[..0]) + pieces[0] == pieces[0];
    } else {
      var j := trail[n - 1];
      assert TrailTo(d, trail[..n], pieces[..n], j);
      TrailIsRoute(d, trail[..n], pieces[..n], j);
      RefersIff(d, j, pieces[n], k);
      var path, cut := Whole(pieces), |Whole(pieces[..n])|;
      assert path[..cut] == Whole(pieces[..n]) && path[cut..] == pieces[n];
      assert RouteThrough(d, path, n + 1, j, cut, k);
    }
  }

  lemma {:induction false} RouteIsTrail(d: Document, path: Path, n: nat, k: RefKey)
    returns (trail: seq<RefKey>, pieces: seq<Path>)
    requires Route(d, path, n, k)
    ensures TrailTo(d, trail, pieces, k) && |trail| == n && path == Whole(pieces)
    decreases n
  {
    hide Stands, Refers, OccursAt, Resolve;
    if OccursAt(d.catalog, path, k) && n == 1 {
      StandsIff(d.catalog, path, k);
      trail, pieces := [k], [path];
      assert Whole(pieces[..0]) == [];
    } else {
      var j, cut: nat :| RouteThrough(d, path, n, j, cut, k);
      trail, pieces := RouteIsTrail(d, path[..cut], n - 1, j);
      RefersIff(d, j, path[cut..], k);
      assert path[..cut] + path[cut..] == path;
      trail, pieces := TrailOn(d, trail, pieces, j, path[cut..], k);
    }
  }

  lemma TrailStarts(d: Document, k: RefKey, path: Path) returns (pieces: seq<Path>)
    requires OccursAt(d.catalog, path, k)
    ensures TrailTo(d, [k], pieces, k)
  {
    StandsIff(d.catalog, path, k);
    pieces := [path];
  }

  lemma TrailOn(d: Document, trail: seq<RefKey>, pieces: seq<Path>, j: RefKey, path: Path, k: RefKey)
    returns (trail': seq<RefKey>, pieces': seq<Path>)
    requires TrailTo(d, trail, pieces, j) && Refers(d, j, path, k)
    ensures TrailTo(d, trail', pieces', k) && trail' == trail + [k] && Whole(pieces') == Whole(pieces) + path
  {
    hide Stands, Refers;
    trail', pieces' := trail + [k], pieces + [path];
    assert pieces'[..|pieces|] == pieces;
    forall i | 0 < i < |trail'|
      ensures Refers(d, trail'[i - 1], pieces'[i], trail'[i])
    {
      if i < |trail| {
        assert Refers(d, trail[i - 1], pieces[i], trail[i]);
      }
    }
  }

  /** What is reached in at most n references has a trail of at most n. */
  lemma {:induction false} WithinIsTrail(d: Document, n: nat, k: RefKey) returns (trail: seq<RefKey>, pieces: seq<Path>)
    requires Within(d, n, k)
    ensures TrailTo(d, trail, pieces, k) && |trail| <= n
    decreases n
  {
    hide Stands, Refers, Resolve, OccursAt;
    if Occurs(d.catalog, k) {
      var path :| OccursAt(d.catalog, path, k);
      trail := [k];
      pieces := TrailStarts(d, k, path);
    } else {
      var j :| Within(d, n - 1, j) && Links(d, j, k);
      trail, pieces := WithinIsTrail(d, n - 1, j);
      var path :| OccursAt(Resolve(d, j).value, path, k);
      RefersIff(d, j, path, k);
      trail, pieces := TrailOn(d, trail, pieces, j, path, k);
    }
  }

  /** An object is reachable exactly when a trail leads to it. */
  lemma ReachableIff(d: Document, k: RefKey)
    ensures Reachable(d, k) <==> Leads(d, k)
  {
    hide TrailTo, Within;
    if n: nat :| Within(d, n, k) {
      var trail, pieces := WithinIsTrail(d, n, k);
    }
    if trail, pieces :| TrailTo(d, trail, pieces, k) {
      TrailIsRoute(d, trail, pieces, k);
      RouteIsWithin(d, Whole(pieces), |trail|, k);
    }
  }

  /** A path with the fewest references goes along a shortest trail. */
  lemma FewestIsNearest(d: Document, path: Path, n: nat, k: RefKey) returns (trail: seq<RefKey>, pieces: seq<Path>)
    requires Fewest(d, path, n, k)
    ensures GoesNearest(d, path, trail, pieces, k)
  {
    hide TrailTo, Within, Route;
    trail, pieces := RouteIsTrail(d, path, n, k);
    forall other, parts | TrailTo(d, other, parts, k)
      ensures |trail| <= |other|
    {
      TrailIsRoute(d, other, parts, k);
      RouteIsWithin(d, Whole(parts), |other|, k);
      if |other| < n {
        WithinMonotone(d, |other|, n - 1, k);
      }
    }
  }
}
