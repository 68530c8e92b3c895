/** The breadth-first scan of the reference graph as a function of the occurrences noted so far, and what every
    step of it keeps. */
module RefSearch {
  import opened PdfObjects
  import opened RefGraph

  /** One inbound reference: the object that holds it, where inside that object, and the path from the catalog
      to that object. */
  datatype Edge = Edge(parent: RefKey, path: Path, parentPath: Path)

  /** An object whose contents are scanned; the catalog has no parent key of its own. */
  datatype Source = Source(parent: Option<RefKey>, obj: Obj, pathFromRoot: Path)

  datatype State = State(out: map<RefKey, seq<Edge>>, queue: seq<Source>, visited: set<RefKey>)

  /** The object that edges out of a source are recorded under: the catalog's are recorded under the trailer's
      reference to it, and not at all without one. */
  function Recorder(d: Document, parent: Option<RefKey>): Option<RefKey> {
    if parent.Some? then parent else d.root
  }

  function Inbound(out: map<RefKey, seq<Edge>>, t: RefKey): seq<Edge> {
    if t in out then out[t] else []
  }

  function Record(d: Document, out: map<RefKey, seq<Edge>>, parent: Option<RefKey>, parentPath: Path,
                  o: Occ): map<RefKey, seq<Edge>>
  {
    match Recorder(d, parent)
    case None => out
    case Some(p) => out[o.key := Inbound(out, o.key) + [Edge(p, o.path, parentPath)]]
  }

  /** The state after one more occurrence. */
  function Note(d: Document, parent: Option<RefKey>, parentPath: Path, st: State, o: Occ): State {
    var out := Record(d, st.out, parent, parentPath, o);
    if o.key in st.visited then st.(out := out)
    else
      match Resolve(d, o.key)
      case None => State(out, st.queue, st.visited + {o.key})
      case Some(v) => State(out, st.queue + [Source(Some(o.key), v, parentPath + o.path)], st.visited + {o.key})
  }

  function NoteAll(d: Document, parent: Option<RefKey>, parentPath: Path, st: State, occs: seq<Occ>): State {
    if occs == [] then st
    else Note(d, parent, parentPath, NoteAll(d, parent, parentPath, st, occs[..|occs| - 1]), occs[|occs| - 1])
  }

  lemma {:induction false} NoteAllJoins(d: Document, parent: Option<RefKey>, parentPath: Path, st: State, a: seq<Occ>,
                                        b: seq<Occ>)
    ensures NoteAll(d, parent, parentPath, st, a + b) ==
      NoteAll(d, parent, parentPath, NoteAll(d, parent, parentPath, st, a), b)
    decreases |b|
  {
    if b == [] {
      assert a + b == a;
    } else {
      NoteAllJoins(d, parent, parentPath, st, a, b[..|b| - 1]);
      assert (a + b)[..|a + b| - 1] == a + b[..|b| - 1];
    }
  }

  // What the recorded edges should be.

  /** A source together with the occurrences noted in it so far. */
  datatype Scan = Scan(source: Source, noted: seq<Occ>)

  function EdgesFrom(recorder: Option<RefKey>, parentPath: Path, noted: seq<Occ>, t: RefKey): seq<Edge> {
    if noted == [] then []
    else
      var o := noted[|noted| - 1];
      EdgesFrom(recorder, parentPath, noted[..|noted| - 1], t)
      + (if o.key == t && recorder.Some? then [Edge(recorder.value, o.path, parentPath)] else [])
  }

  function EdgesOf(d: Document, scans: seq<Scan>, t: RefKey): seq<Edge> {
    if scans == [] then []
    else
      var s := scans[|scans| - 1];
      EdgesOf(d, scans[..|scans| - 1], t) + EdgesFrom(Recorder(d, s.source.parent), s.source.pathFromRoot, s.noted, t)
  }

  lemma {:induction false} EdgesFromExact(recorder: Option<RefKey>, parentPath: Path, noted: seq<Occ>, t: RefKey,
                                          e: Edge)
    ensures e in EdgesFrom(recorder, parentPath, noted, t)
      <==> recorder == Some(e.parent) && e.parentPath == parentPath && Occ(t, e.path) in noted
  {
    if noted != [] {
      var last := noted[|noted| - 1];
      assert noted == noted[..|noted| - 1] + [last];
      EdgesFromExact(recorder, parentPath, noted[..|noted| - 1], t, e);
    }
  }

  /** The edge e is due to scan s. */
  ghost predicate Due(d: Document, s: Scan, t: RefKey, e: Edge) {
    Recorder(d, s.source.parent) == Some(e.parent) && e.parentPath == s.source.pathFromRoot && Occ(t, e.path) in s.noted
  }

  lemma {:induction false} EdgesOfExact(d: Document, scans: seq<Scan>, t: RefKey, e: Edge)
    ensures e in EdgesOf(d, scans, t) <==> exists i :: 0 <= i < |scans| && Due(d, scans[i], t, e)
  {
    if scans != [] {
      var n := |scans| - 1;
      var s := scans[n];
      EdgesOfExact(d, scans[..n], t, e);
      EdgesFromExact(Recorder(d, s.source.parent), s.source.pathFromRoot, s.noted, t, e);
      if e in EdgesOf(d, scans[..n], t) {
        var i :| 0 <= i < n && Due(d, scans[..n][i], t, e);
        assert scans[i] == scans[..n][i];
      }
      if i :| 0 <= i < |scans| && Due(d, scans[i], t, e) {
        assert i < n ==> Due(d, scans[..n][i], t, e);
      }
    }
  }

  /** No inbound reference is recorded twice. */
  ghost predicate EachOnce(es: seq<Edge>) {
    forall i, j :: 0 <= i < j < |es| ==> (es[i].parent, es[i].path) != (es[j].parent, es[j].path)
  }

  lemma {:induction false} EdgesFromOnce(recorder: Option<RefKey>, parentPath: Path, noted: seq<Occ>, t: RefKey)
    requires DistinctPaths(noted)
    ensures EachOnce(EdgesFrom(recorder, parentPath, noted, t))
  {
    if noted != [] {
      var n := |noted| - 1;
      EdgesFromOnce(recorder, parentPath, noted[..n], t);
      var es := EdgesFrom(recorder, parentPath, noted[..n], t);
      forall i | 0 <= i < |es|
        ensures es[i].path != noted[n].path
      {
        EdgesFromExact(recorder, parentPath, noted[..n], t, es[i]);
        var k :| 0 <= k < n && noted[..n][k] == Occ(t, es[i].path);
      }
    }
  }

  /** No two scanned or queued objects have the same key, and none has the catalog's. */
  ghost predicate DistinctSources(d: Document, all: seq<Source>) {
    && (forall i, j :: 0 <= i < j < |all| ==> all[i].parent != all[j].parent)
    && (forall i :: 0 <= i < |all| && all[i].parent.Some? ==> all[i].parent != d.root)
  }

  function Sources(scans: seq<Scan>): (r: seq<Source>)
    ensures |r| == |scans| && forall i :: 0 <= i < |r| ==> r[i] == scans[i].source
  {
    seq(|scans|, i requires 0 <= i < |scans| => scans[i].source)
  }

  lemma {:induction false} EdgesOfOnce(d: Document, scans: seq<Scan>, t: RefKey)
    requires DistinctSources(d, Sources(scans))
    requires forall i :: 0 <= i < |scans| ==> DistinctPaths(scans[i].noted)
    ensures EachOnce(EdgesOf(d, scans, t))
  {
    if scans != [] {
      var n := |scans| - 1;
      var s := scans[n];
      assert Sources(scans[..n]) == Sources(scans)[..n];
      EdgesOfOnce(d, scans[..n], t);
      EdgesFromOnce(Recorder(d, s.source.parent), s.source.pathFromRoot, s.noted, t);
      var a, b := EdgesOf(d, scans[..n], t), EdgesFrom(Recorder(d, s.source.parent), s.source.pathFromRoot, s.noted, t);
      forall x, y | x in a && y in b
        ensures x.parent != y.parent
      {
        EdgesOfExact(d, scans[..n], t, x);
        EdgesFromExact(Recorder(d, s.source.parent), s.source.pathFromRoot, s.noted, t, y);
        var i :| 0 <= i < n && Due(d, scans[..n][i], t, x);
        assert Sources(scans)[i].parent != Sources(scans)[n].parent;
      }
      forall i, j | 0 <= i < j < |a + b|
        ensures ((a + b)[i].parent, (a + b)[i].path) != ((a + b)[j].parent, (a + b)[j].path)
      {
        if i < |a| <= j {
          assert (a + b)[i] in a && (a + b)[j] in b;
        }
      }
    }
  }

  // Paths from the catalog.

  /** path leads from the catalog to k through n references, itself the last. */
  ghost predicate Route(d: Document, path: Path, n: nat, k: RefKey)
    decreases n
  {
    && n > 0
    && ((OccursAt(d.catalog, path, k) && n == 1)
        || exists j, cut: nat :: RouteThrough(d, path, n, j, cut, k))
  }

  ghost predicate RouteThrough(d: Document, path: Path, n: nat, j: RefKey, cut: nat, k: RefKey)
    decreases n, 0
  {
    && n > 1 && cut <= |path| && Route(d, path[..cut], n - 1, j)
    && Resolve(d, j).Some? && OccursAt(Resolve(d, j).value, path[cut..], k)
  }

  lemma {:induction false} RouteIsWithin(d: Document, path: Path, n: nat, k: RefKey)
    requires Route(d, path, n, k)
    ensures Within(d, n, k)
    decreases n
  {
    if OccursAt(d.catalog, path, k) {
      assert Occurs(d.catalog, k);
    } else {
      var j, cut: nat :| RouteThrough(d, path, n, j, cut, k);
      RouteIsWithin(d, path[..cut], n - 1, j);
      assert Links(d, j, k);
    }
  }

  /** path leads to k through as few references as any path does. */
  ghost predicate Fewest(d: Document, path: Path, n: nat, k: RefKey) {
    n > 0 && Route(d, path, n, k) && !Within(d, n - 1, k)
  }

  // What the scan keeps.

  ghost predicate WellSourced(d: Document, e: Source, level: nat) {
    match e.parent
    case None => e.obj == d.catalog && e.pathFromRoot == [] && level == 0
    case Some(k) => Resolve(d, k) == Some(e.obj) && Fewest(d, e.pathFromRoot, level, k)
  }

  ghost predicate AllWellSourced(d: Document, all: seq<Source>, levels: seq<nat>) {
    |levels| == |all| && forall i :: 0 <= i < |all| ==> WellSourced(d, all[i], levels[i])
  }

  ghost predicate NotedIn(scans: seq<Scan>, k: RefKey) {
    exists i, path :: 0 <= i < |scans| && Occ(k, path) in scans[i].noted
  }

  ghost predicate VisitedIsNoted(d: Document, scans: seq<Scan>, visited: set<RefKey>) {
    forall k :: k in visited <==> d.root == Some(k) || NotedIn(scans, k)
  }

  ghost predicate VisitedIsSourced(d: Document, all: seq<Source>, visited: set<RefKey>) {
    && (forall k :: k in visited && d.root != Some(k) && Resolve(d, k).Some?
          ==> exists i :: 0 <= i < |all| && all[i].parent == Some(k))
    && (forall i :: 0 <= i < |all| && all[i].parent.Some? ==> all[i].parent.value in visited)
  }

  ghost predicate Recorded(d: Document, scans: seq<Scan>, out: map<RefKey, seq<Edge>>) {
    && (forall t :: Inbound(out, t) == EdgesOf(d, scans, t))
    && (forall t :: t in out ==> out[t] != [])
  }

  /** Levels never fall along the queue, and never rise by more than one over the object being scanned. */
  ghost predicate Levelled(levels: seq<nat>, current: nat) {
    && current < |levels|
    && (forall i, j :: 0 <= i <= j < |levels| ==> levels[i] <= levels[j])
    && levels[|levels| - 1] <= levels[current] + 1
  }

  ghost predicate Covered(d: Document, level: nat, visited: set<RefKey>) {
    forall k :: Within(d, level, k) ==> k in visited
  }

  ghost predicate Inv(d: Document, scans: seq<Scan>, st: State, levels: seq<nat>) {
    && scans != []
    && scans[0].source.parent == None
    && AllWellSourced(d, Sources(scans) + st.queue, levels)
    && DistinctSources(d, Sources(scans) + st.queue)
    && VisitedIsNoted(d, scans, st.visited)
    && VisitedIsSourced(d, Sources(scans) + st.queue, st.visited)
    && Recorded(d, scans, st.out)
    && Levelled(levels, |scans| - 1)
    && Covered(d, levels[|scans| - 1], st.visited)
  }

  /** The scans whose last has noted one occurrence more. */
  function Noting(scans: seq<Scan>, o: Occ): seq<Scan>
    requires scans != []
  {
    var s := scans[|scans| - 1];
    scans[..|scans| - 1] + [s.(noted := s.noted + [o])]
  }

  lemma NotedGrows(scans: seq<Scan>, o: Occ, k: RefKey)
    requires scans != []
    ensures NotedIn(Noting(scans, o), k) <==> NotedIn(scans, k) || k == o.key
  {
    var n := |scans| - 1;
    var next := Noting(scans, o);
    if i, path :| 0 <= i < |scans| && Occ(k, path) in scans[i].noted {
      assert Occ(k, path) in next[i].noted;
    }
    if k == o.key {
      assert Occ(k, o.path) in next[n].noted;
    }
    if i, path :| 0 <= i < |next| && Occ(k, path) in next[i].noted {
      assert Occ(k, path) in scans[i].noted || Occ(k, path) == o;
    }
  }

  lemma RecordKeeps(d: Document, scans: seq<Scan>, out: map<RefKey, seq<Edge>>, o: Occ)
    requires scans != [] && Recorded(d, scans, out)
    ensures var s := scans[|scans| - 1].source;
      Recorded(d, Noting(scans, o), Record(d, out, s.parent, s.pathFromRoot, o))
  {
    hide EdgesOf, Noting, Recorder;
    var s := scans[|scans| - 1].source;
    var out' := Record(d, out, s.parent, s.pathFromRoot, o);
    forall t
      ensures Inbound(out', t) == EdgesOf(d, Noting(scans, o), t)
    {
      assert Inbound(out, t) == EdgesOf(d, scans, t);
      EdgesOneMore(d, scans, o, t);
    }
  }

  /** The edges due for one occurrence more. */
  lemma EdgesOneMore(d: Document, scans: seq<Scan>, o: Occ, t: RefKey)
    requires scans != []
    ensures var s := scans[|scans| - 1].source;
      EdgesOf(d, Noting(scans, o), t) == EdgesOf(d, scans, t)
        + match Recorder(d, s.parent)
          case Some(p) => if o.key == t then [Edge(p, o.path, s.pathFromRoot)] else []
          case None => []
  {
    var n := |scans| - 1;
    var s := scans[n];
    var recorder, from := Recorder(d, s.source.parent), s.source.pathFromRoot;
    hide Recorder;
    assert Noting(scans, o)[..n] == scans[..n];
    assert (s.noted + [o])[..|s.noted|] == s.noted;
    assert EdgesFrom(recorder, from, s.noted + [o], t) == EdgesFrom(recorder, from, s.noted, t)
      + (if o.key == t && recorder.Some? then [Edge(recorder.value, o.path, from)] else []);
  }

  lemma NewSourceIsNearest(d: Document, e: Source, level: nat, o: Occ, visited: set<RefKey>)
    requires WellSourced(d, e, level) && OccursAt(e.obj, o.path, o.key)
    requires Covered(d, level, visited) && o.key !in visited
    ensures Fewest(d, e.pathFromRoot + o.path, level + 1, o.key)
  {
    var path := e.pathFromRoot + o.path;
    if e.parent.Some? {
      var cut := |e.pathFromRoot|;
      assert path[..cut] == e.pathFromRoot && path[cut..] == o.path;
      assert RouteThrough(d, path, level + 1, e.parent.value, cut, o.key);
    } else {
      assert path == o.path;
    }
  }

  /** Noting one more occurrence of the object being scanned keeps everything. */
  lemma NoteKeeps(d: Document, scans: seq<Scan>, st: State, levels: seq<nat>, o: Occ) returns (levels': seq<nat>)
    requires Inv(d, scans, st, levels)
    requires OccursAt(scans[|scans| - 1].source.obj, o.path, o.key)
    ensures var s := scans[|scans| - 1].source;
      Inv(d, Noting(scans, o), Note(d, s.parent, s.pathFromRoot, st, o), levels')
  {
    hide Within, Route, Fewest, OccursAt, Record, Recorded, NotedIn, VisitedIsNoted, VisitedIsSourced, DistinctSources,
      Noting, Covered, Resolve;
    var n := |scans| - 1;
    var s := scans[n].source;
    NotingSources(scans, o);
    RecordKeeps(d, scans, st.out, o);
    VisitedGrows(d, scans, st.visited, o);
    CoveredGrows(d, levels[n], st.visited, o.key);
    var all := Sources(scans) + st.queue;
    assert all[n] == s;
    if o.key in st.visited {
      levels' := levels;
      assert st.visited + {o.key} == st.visited;
    } else if Resolve(d, o.key).None? {
      levels' := levels;
      SourcedSkip(d, all, st.visited, o.key);
    } else {
      var e := Source(Some(o.key), Resolve(d, o.key).value, s.pathFromRoot + o.path);
      levels' := levels + [levels[n] + 1];
      assert Sources(scans) + (st.queue + [e]) == all + [e];
      NewSourceIsNearest(d, s, levels[n], o, st.visited);
      RootIsVisited(d, scans, st.visited, o.key);
      SourcedPush(d, all, st.visited, e, o.key);
    }
  }

  lemma NotingSources(scans: seq<Scan>, o: Occ)
    requires scans != []
    ensures |Noting(scans, o)| == |scans| && Noting(scans, o)[0].source == scans[0].source
    ensures Sources(Noting(scans, o)) == Sources(scans)
  {
  }

  lemma VisitedGrows(d: Document, scans: seq<Scan>, visited: set<RefKey>, o: Occ)
    requires scans != [] && VisitedIsNoted(d, scans, visited)
    ensures VisitedIsNoted(d, Noting(scans, o), visited + {o.key})
  {
    forall k
      ensures k in visited + {o.key} <==> d.root == Some(k) || NotedIn(Noting(scans, o), k)
    {
      NotedGrows(scans, o, k);
    }
  }

  lemma CoveredGrows(d: Document, level: nat, visited: set<RefKey>, k: RefKey)
    requires Covered(d, level, visited)
    ensures Covered(d, level, visited + {k})
  {
  }

  lemma RootIsVisited(d: Document, scans: seq<Scan>, visited: set<RefKey>, k: RefKey)
    requires VisitedIsNoted(d, scans, visited) && k !in visited
    ensures d.root != Some(k)
  {
  }

  lemma SourcedSkip(d: Document, all: seq<Source>, visited: set<RefKey>, k: RefKey)
    requires VisitedIsSourced(d, all, visited) && Resolve(d, k).None?
    ensures VisitedIsSourced(d, all, visited + {k})
  {
  }

  lemma SourcedPush(d: Document, all: seq<Source>, visited: set<RefKey>, e: Source, k: RefKey)
    requires VisitedIsSourced(d, all, visited) && DistinctSources(d, all)
    requires k !in visited && e.parent == Some(k) && d.root != Some(k)
    ensures VisitedIsSourced(d, all + [e], visited + {k}) && DistinctSources(d, all + [e])
  {
    var all' := all + [e];
    forall x | x in visited + {k} && d.root != Some(x) && Resolve(d, x).Some?
      ensures exists i :: 0 <= i < |all'| && all'[i].parent == Some(x)
    {
      if x == k {
        assert all'[|all|].parent == Some(x);
      } else {
        var i :| 0 <= i < |all| && all[i].parent == Some(x);
        assert all'[i] == all[i];
      }
    }
  }

  lemma {:induction false} NoteAllKeeps(d: Document, scans: seq<Scan>, st: State, levels: seq<nat>, occs: seq<Occ>)
    returns (levels': seq<nat>)
    requires scans != [] && scans[|scans| - 1].noted == [] && Inv(d, scans, st, levels)
    requires forall o :: o in occs ==> OccursAt(scans[|scans| - 1].source.obj, o.path, o.key)
    ensures var s := scans[|scans| - 1].source;
      Inv(d, scans[..|scans| - 1] + [Scan(s, occs)], NoteAll(d, s.parent, s.pathFromRoot, st, occs), levels')
  {
    hide Inv, Note, OccursAt;
    var n := |scans| - 1;
    var s := scans[n].source;
    if occs == [] {
      levels' := levels;
      assert scans[..n] + [Scan(s, occs)] == scans;
    } else {
      var m := |occs| - 1;
      var before := NoteAllKeeps(d, scans, st, levels, occs[..m]);
      var scans' := scans[..n] + [Scan(s, occs[..m])];
      assert occs[m] in occs && occs[..m] + [occs[m]] == occs;
      assert Noting(scans', occs[m]) == scans[..n] + [Scan(s, occs)];
      levels' := NoteKeeps(d, scans', NoteAll(d, s.parent, s.pathFromRoot, st, occs[..m]), before, occs[m]);
    }
  }

  /** Every scan has noted all that its object holds. */
  ghost predicate Complete(scans: seq<Scan>) {
    forall i :: 0 <= i < |scans| ==> scans[i].noted == OccIn(scans[i].source.obj, [])
  }

  lemma ScannedIsVisited(d: Document, scans: seq<Scan>, visited: set<RefKey>, i: nat, k: RefKey)
    requires Complete(scans) && VisitedIsNoted(d, scans, visited)
    requires i < |scans| && Occurs(scans[i].source.obj, k)
    ensures k in visited
  {
    var path :| OccursAt(scans[i].source.obj, path, k);
    OccInIsExact(scans[i].source.obj);
    assert Occ(k, path) in scans[i].noted;
    assert NotedIn(scans, k);
  }

  /** What a visited object names is visited, once every source up to the object's level is scanned. */
  lemma LinkIsVisited(d: Document, scans: seq<Scan>, st: State, levels: seq<nat>, j: RefKey, k: RefKey)
    requires Rooted(d) && Inv(d, scans, st, levels) && Complete(scans)
    requires j in st.visited && Links(d, j, k)
    requires forall i :: |scans| <= i < |scans| + |st.queue| ==> (Sources(scans) + st.queue)[i].parent != Some(j)
    ensures k in st.visited
  {
    var all := Sources(scans) + st.queue;
    if d.root == Some(j) {
      ScannedIsVisited(d, scans, st.visited, 0, k) by {
        assert all[0] == scans[0].source;
      }
    } else {
      var i :| 0 <= i < |all| && all[i].parent == Some(j);
      assert i < |scans|;
      assert WellSourced(d, all[i], levels[i]);
      ScannedIsVisited(d, scans, st.visited, i, k);
    }
  }

  lemma CatalogIsVisited(d: Document, scans: seq<Scan>, st: State, levels: seq<nat>, k: RefKey)
    requires Inv(d, scans, st, levels) && Complete(scans) && Occurs(d.catalog, k)
    ensures k in st.visited
  {
    assert (Sources(scans) + st.queue)[0] == scans[0].source;
    ScannedIsVisited(d, scans, st.visited, 0, k);
  }

  /** Taking the next object off the queue keeps everything. */
  lemma NextKeeps(d: Document, scans: seq<Scan>, st: State, levels: seq<nat>)
    requires Rooted(d) && Inv(d, scans, st, levels) && Complete(scans) && st.queue != []
    ensures Inv(d, scans + [Scan(st.queue[0], [])], st.(queue := st.queue[1..]), levels)
  {
    hide Within, Route, Fewest, WellSourced, NotedIn, VisitedIsSourced, DistinctSources, Complete, Rooted, EdgesOf,
         Recorded,
      Covered;
    var n := |scans|;
    var next := scans + [Scan(st.queue[0], [])];
    assert Sources(next) + st.queue[1..] == Sources(scans) + st.queue;
    NextIsCovered(d, scans, st, levels);
    NextIsNoted(d, scans, st.visited, st.queue[0]);
    NextIsRecorded(d, scans, st.out, st.queue[0]);
  }

  lemma NextIsNoted(d: Document, scans: seq<Scan>, visited: set<RefKey>, e: Source)
    requires VisitedIsNoted(d, scans, visited)
    ensures VisitedIsNoted(d, scans + [Scan(e, [])], visited)
  {
    var next := scans + [Scan(e, [])];
    forall k
      ensures NotedIn(next, k) <==> NotedIn(scans, k)
    {
      if i, path :| 0 <= i < |scans| && Occ(k, path) in scans[i].noted {
        assert Occ(k, path) in next[i].noted;
      }
    }
  }

  lemma NextIsRecorded(d: Document, scans: seq<Scan>, out: map<RefKey, seq<Edge>>, e: Source)
    requires Recorded(d, scans, out)
    ensures Recorded(d, scans + [Scan(e, [])], out)
  {
    assert (scans + [Scan(e, [])])[..|scans|] == scans;
    assert forall t :: EdgesOf(d, scans + [Scan(e, [])], t) == EdgesOf(d, scans, t);
  }

  lemma NotNearer(d: Document, e: Source, level: nat, m: nat, j: RefKey)
    requires WellSourced(d, e, level) && m < level && Within(d, m, j)
    ensures e.parent != Some(j)
  {
    WithinMonotone(d, m, level - 1, j);
  }

  lemma NextIsCovered(d: Document, scans: seq<Scan>, st: State, levels: seq<nat>)
    requires Rooted(d) && Inv(d, scans, st, levels) && Complete(scans) && st.queue != []
    ensures Covered(d, levels[|scans|], st.visited)
  {
    hide Within, Fewest, WellSourced, Rooted, Occurs, Links;
    forall k | Within(d, levels[|scans|], k)
      ensures k in st.visited
    {
      NextIsVisited(d, scans, st, levels, k);
    }
  }

  lemma LinkBefore(d: Document, n: nat, k: RefKey) returns (j: RefKey)
    requires Within(d, n, k) && !Occurs(d.catalog, k)
    ensures n > 0 && Within(d, n - 1, j) && Links(d, j, k)
  {
    j :| Within(d, n - 1, j) && Links(d, j, k);
  }

  lemma NextIsVisited(d: Document, scans: seq<Scan>, st: State, levels: seq<nat>, k: RefKey)
    requires Rooted(d) && Inv(d, scans, st, levels) && Complete(scans) && st.queue != []
    requires Within(d, levels[|scans|], k)
    ensures k in st.visited
  {
    hide Within, Fewest, WellSourced, Rooted, Occurs, Links, EdgesOf, Recorded, NotedIn, VisitedIsNoted,
         VisitedIsSourced,
      DistinctSources, Complete;
    var n := |scans|;
    var all := Sources(scans) + st.queue;
    if levels[n] == levels[n - 1] {
    } else if Occurs(d.catalog, k) {
      CatalogIsVisited(d, scans, st, levels, k);
    } else {
      var j := LinkBefore(d, levels[n], k);
      forall i | n <= i < |all|
        ensures all[i].parent != Some(j)
      {
        NotNearer(d, all[i], levels[i], levels[n] - 1, j);
      }
      LinkIsVisited(d, scans, st, levels, j, k);
    }
  }

  /** The state before anything is noted. */
  function Start(d: Document): State {
    State(map[], [], if d.root.Some? then {d.root.value} else {})
  }

  lemma StartKeeps(d: Document)
    ensures Inv(d, [Scan(Source(None, d.catalog, []), [])], Start(d), [0])
  {
    var scans := [Scan(Source(None, d.catalog, []), [])];
    assert forall k :: !NotedIn(scans, k);
  }
}
