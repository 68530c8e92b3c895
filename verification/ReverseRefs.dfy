/** The index of inbound references: for every object, which objects refer to it and from where. */
module ReverseRefs {
  import opened PdfObjects
  import opened RefGraph
  import opened RefSearch
  import RefTrails

  /** The reference at path inside the object of p: p is the catalog's own key, or is reached from the catalog,
      and its object resolves. */
  ghost predicate IsInbound(d: Document, t: RefKey, p: RefKey, path: Path) {
    && (d.root == Some(p) || Reachable(d, p))
    && Resolve(d, p).Some?
    && OccursAt(Resolve(d, p).value, path, t)
  }

  ghost predicate Listed(out: map<RefKey, seq<Edge>>, t: RefKey, p: RefKey, path: Path) {
    exists e :: e in Inbound(out, t) && e.parent == p && e.path == path
  }

  /** The edges listed under every object are exactly the references to it. */
  ghost predicate IndexIsExact(d: Document, out: map<RefKey, seq<Edge>>) {
    forall t, p, path :: Listed(out, t, p, path) <==> IsInbound(d, t, p, path)
  }

  /** Each edge names the catalog, or comes with a path to its parent with the fewest references. */
  ghost predicate PathIsNearest(d: Document, e: Edge) {
    (d.root == Some(e.parent) && e.parentPath == []) || exists n: nat :: Fewest(d, e.parentPath, n, e.parent)
  }

  ghost predicate PathsAreNearest(d: Document, out: map<RefKey, seq<Edge>>) {
    forall t, e :: e in Inbound(out, t) ==> PathIsNearest(d, e)
  }

  ghost predicate NoneRepeats(out: map<RefKey, seq<Edge>>) {
    forall t :: EachOnce(Inbound(out, t))
  }

  /** What is still to do: queued objects, and keys not seen yet. */
  ghost function Work(d: Document, st: State): nat {
    |st.queue| + |Keys(d) - st.visited|
  }

  lemma NoteWork(d: Document, parent: Option<RefKey>, parentPath: Path, st: State, o: Occ)
    requires o.key in Keys(d)
    ensures Work(d, Note(d, parent, parentPath, st, o)) <= Work(d, st)
  {
    var keys := Keys(d);
    if o.key !in st.visited {
      var a, b := keys - st.visited, keys - (st.visited + {o.key});
      assert a == b + {o.key} && o.key !in b;
    }
  }

  lemma {:induction false} NoteAllWork(d: Document, parent: Option<RefKey>, parentPath: Path, st: State, occs: seq<Occ>)
    requires forall o :: o in occs ==> o.key in Keys(d)
    ensures Work(d, NoteAll(d, parent, parentPath, st, occs)) <= Work(d, st)
  {
    hide Keys, Note, Work;
    if occs != [] {
      var m := |occs| - 1;
      NoteAllWork(d, parent, parentPath, st, occs[..m]);
      assert occs[m] in occs;
      NoteWork(d, parent, parentPath, NoteAll(d, parent, parentPath, st, occs[..m]), occs[m]);
    }
  }

  lemma SourceKeys(d: Document, e: Source, level: nat)
    requires WellSourced(d, e, level)
    ensures forall o :: o in OccIn(e.obj, []) ==> o.key in Keys(d)
  {
  }

  // What a finished scan has recorded.

  ghost predicate Finished(d: Document, scans: seq<Scan>, st: State, levels: seq<nat>) {
    Rooted(d) && Inv(d, scans, st, levels) && Complete(scans) && st.queue == []
  }

  lemma FinishedSources(d: Document, scans: seq<Scan>, st: State, levels: seq<nat>, i: nat)
    requires Finished(d, scans, st, levels) && i < |scans|
    ensures i < |levels| && WellSourced(d, scans[i].source, levels[i])
    ensures DistinctSources(d, Sources(scans))
  {
    assert Sources(scans) + st.queue == Sources(scans);
  }

  /** Everything reachable is visited. */
  lemma ReachableIsVisited(d: Document, scans: seq<Scan>, st: State, levels: seq<nat>, k: RefKey)
    requires Finished(d, scans, st, levels) && Reachable(d, k)
    ensures k in st.visited
  {
    forall x | Occurs(d.catalog, x)
      ensures x in st.visited
    {
      CatalogIsVisited(d, scans, st, levels, x);
    }
    forall j, x | j in st.visited && Links(d, j, x)
      ensures x in st.visited
    {
      LinkIsVisited(d, scans, st, levels, j, x);
    }
    var n: nat :| Within(d, n, k);
    ClosedHoldsWithin(d, (iset x | x in st.visited), n, k);
  }

  /** The scan of parent p. */
  lemma ScanOf(d: Document, scans: seq<Scan>, st: State, levels: seq<nat>, p: RefKey) returns (i: nat)
    requires Finished(d, scans, st, levels)
    requires d.root == Some(p) || Reachable(d, p)
    requires Resolve(d, p).Some?
    ensures i < |scans| && Recorder(d, scans[i].source.parent) == Some(p) && scans[i].source.obj == Resolve(d, p).value
  {
    if d.root == Some(p) {
      i := 0;
      FinishedSources(d, scans, st, levels, 0);
    } else {
      ReachableIsVisited(d, scans, st, levels, p);
      assert Sources(scans) + st.queue == Sources(scans);
      i :| 0 <= i < |scans| && Sources(scans)[i].parent == Some(p);
      FinishedSources(d, scans, st, levels, i);
    }
  }

  lemma InboundIsListed(d: Document, scans: seq<Scan>, st: State, levels: seq<nat>, t: RefKey, p: RefKey, path: Path)
    requires Finished(d, scans, st, levels) && IsInbound(d, t, p, path)
    ensures Listed(st.out, t, p, path)
  {
    var i := ScanOf(d, scans, st, levels, p);
    var s := scans[i];
    OccInIsExact(s.source.obj);
    var e := Edge(p, path, s.source.pathFromRoot);
    assert Due(d, s, t, e);
    EdgesOfExact(d, scans, t, e);
  }

  lemma ListedIsInbound(d: Document, scans: seq<Scan>, st: State, levels: seq<nat>, t: RefKey, e: Edge)
    requires Finished(d, scans, st, levels) && e in Inbound(st.out, t)
    ensures IsInbound(d, t, e.parent, e.path)
    ensures PathIsNearest(d, e)
  {
    EdgesOfExact(d, scans, t, e);
    var i :| 0 <= i < |scans| && Due(d, scans[i], t, e);
    FinishedSources(d, scans, st, levels, i);
    var s := scans[i].source;
    OccInIsExact(s.obj);
    if s.parent.Some? {
      RouteIsWithin(d, s.pathFromRoot, levels[i], e.parent);
    }
  }

  /** The index that the finished scan leaves. */
  lemma FinishedIsExact(d: Document, scans: seq<Scan>, st: State, levels: seq<nat>)
    requires Finished(d, scans, st, levels)
    ensures IndexIsExact(d, st.out) && PathsAreNearest(d, st.out) && NoneRepeats(st.out)
  {
    hide Finished, IsInbound, PathIsNearest, EdgesOf, Inbound;
    forall t, p, path
      ensures Listed(st.out, t, p, path) <==> IsInbound(d, t, p, path)
    {
      if IsInbound(d, t, p, path) {
        InboundIsListed(d, scans, st, levels, t, p, path);
      }
      if e :| e in Inbound(st.out, t) && e.parent == p && e.path == path {
        ListedIsInbound(d, scans, st, levels, t, e);
      }
    }
    forall t, e | e in Inbound(st.out, t)
      ensures PathIsNearest(d, e)
    {
      ListedIsInbound(d, scans, st, levels, t, e);
    }
    forall t
      ensures EachOnce(Inbound(st.out, t))
    {
      FinishedOnce(d, scans, st, levels, t);
    }
  }

  /** The same, spelled out over the stored objects. */
  lemma ExactIsSpelledOut(d: Document, out: map<RefKey, seq<Edge>>)
    requires IndexIsExact(d, out) && PathsAreNearest(d, out)
    ensures RefTrails.ListsReferences(d, out) && RefTrails.ListsNearest(d, out)
  {
    hide Resolve, OccursAt, Reachable, Fewest, RefTrails.Leads, RefTrails.Refers, RefTrails.GoesNearest;
    forall t, p, path
      ensures RefTrails.IsListed(out, t, p, path)
        <==> (d.root == Some(p) || RefTrails.Leads(d, p)) && RefTrails.Refers(d, p, path, t)
    {
      RefTrails.ReachableIff(d, p);
      RefTrails.RefersIff(d, p, path, t);
      assert Listed(out, t, p, path) <==> IsInbound(d, t, p, path);
    }
    forall t, e | t in out && e in out[t]
      ensures RefTrails.ComesNearest(d, e)
    {
      assert e in Inbound(out, t);
      assert PathIsNearest(d, e);
      if n: nat :| Fewest(d, e.parentPath, n, e.parent) {
        var trail, pieces := RefTrails.FewestIsNearest(d, e.parentPath, n, e.parent);
      }
    }
  }

  lemma FinishedOnce(d: Document, scans: seq<Scan>, st: State, levels: seq<nat>, t: RefKey)
    requires Finished(d, scans, st, levels)
    ensures EachOnce(Inbound(st.out, t))
  {
    FinishedSources(d, scans, st, levels, 0);
    forall i | 0 <= i < |scans|
      ensures DistinctPaths(scans[i].noted)
    {
      OccInIsExact(scans[i].source.obj);
    }
    EdgesOfOnce(d, scans, t);
  }

  /** An object has an inbound edge exactly when the catalog has a key of its own and it is reachable, or an object
      that is reachable refers to it. */
  lemma ReferencedIff(d: Document, out: map<RefKey, seq<Edge>>, t: RefKey)
    requires Rooted(d) && IndexIsExact(d, out)
    ensures Inbound(out, t) != [] <==>
      (d.root.Some? && Reachable(d, t)) || exists j :: Reachable(d, j) && Links(d, j, t)
  {
    if Inbound(out, t) != [] {
      var e := Inbound(out, t)[0];
      assert Listed(out, t, e.parent, e.path);
      assert Occurs(Resolve(d, e.parent).value, t);
      if d.root == Some(e.parent) {
        CatalogReaches(d, t);
      } else {
        assert Reachable(d, e.parent) && Links(d, e.parent, t);
      }
    }
    if j :| Reachable(d, j) && Links(d, j, t) {
      LinkIsListed(d, out, j, t);
    }
    if d.root.Some? && Reachable(d, t) {
      var n: nat :| Within(d, n, t);
      if Occurs(d.catalog, t) {
        var path :| OccursAt(d.catalog, path, t);
        assert IsInbound(d, t, d.root.value, path);
        assert Listed(out, t, d.root.value, path);
      } else {
        var j :| Within(d, n - 1, j) && Links(d, j, t);
        LinkIsListed(d, out, j, t);
      }
    }
  }

  lemma LinkIsListed(d: Document, out: map<RefKey, seq<Edge>>, j: RefKey, t: RefKey)
    requires IndexIsExact(d, out) && Reachable(d, j) && Links(d, j, t)
    ensures Inbound(out, t) != []
  {
    var path :| OccursAt(Resolve(d, j).value, path, t);
    assert IsInbound(d, t, j, path);
    assert Listed(out, t, j, path);
  }

  /** An object has an inbound edge exactly when it is reachable, for a catalog with a key of its own. */
  lemma ReferencedIffReachable(d: Document, out: map<RefKey, seq<Edge>>, t: RefKey)
    requires Rooted(d) && d.root.Some? && IndexIsExact(d, out)
    ensures Inbound(out, t) != [] <==> Reachable(d, t)
  {
    ReferencedIff(d, out, t);
    if j :| Reachable(d, j) && Links(d, j, t) {
      ReachesOn(d, j, t);
    }
  }

  lemma EntryNoted(d: Document, parent: Option<RefKey>, parentPath: Path, start: State, v: Obj, keys: seq<string>,
                   i: nat, prefix: Path)
    requires parent.None? ==> parentPath == []
    requires (v.Dict? || v.Stream?) && i < |keys| && forall j :: 0 <= j < |keys| ==> keys[j] in v.entries
    ensures NoteAll(d, parent, parentPath, start, OccEntries(v, keys, i + 1, prefix)) ==
      NoteAll(d, parent, parentPath, NoteAll(d, parent, parentPath, start, OccEntries(v, keys, i, prefix)),
              OccAt(v.entries[keys[i]], prefix + [Key(keys[i])]))
  {
    hide NoteAll, OccAt;
    NoteAllJoins(d, parent, parentPath, start, OccEntries(v, keys, i, prefix),
                 OccAt(v.entries[keys[i]], prefix + [Key(keys[i])]));
  }

  lemma ElemNoted(d: Document, parent: Option<RefKey>, parentPath: Path, start: State, v: Obj, i: nat, prefix: Path)
    requires parent.None? ==> parentPath == []
    requires v.Array? && i < |v.elems|
    ensures NoteAll(d, parent, parentPath, start, OccElems(v, i + 1, prefix)) ==
      NoteAll(d, parent, parentPath, NoteAll(d, parent, parentPath, start, OccElems(v, i, prefix)),
              OccAt(v.elems[i], prefix + [Step.Index(i)]))
  {
    hide NoteAll, OccAt;
    NoteAllJoins(d, parent, parentPath, start, OccElems(v, i, prefix), OccAt(v.elems[i], prefix + [Step.Index(i)]));
  }

  class Index {
    const doc: Document
    var out: map<RefKey, seq<Edge>>
    var queue: seq<Source>
    var visited: set<RefKey>

    function Now(): State
      reads this
    {
      State(out, queue, visited)
    }

    constructor (d: Document)
      ensures doc == d && Now() == State(map[], [], {})
    {
      doc, out, queue, visited := d, map[], [], {};
    }

    /** Scans the whole document: afterwards out lists exactly the inbound references of every object, each once,
        with nearest paths to their parents. */
    method Build()
      requires Rooted(doc) && Now() == State(map[], [], {})
      modifies this
      ensures IndexIsExact(doc, out) && PathsAreNearest(doc, out) && NoneRepeats(out)
      ensures RefTrails.ListsReferences(doc, out) && RefTrails.ListsNearest(doc, out)
    {
      hide RefTrails.ListsReferences, RefTrails.ListsNearest;
      hide Inv, NoteAll, Complete, IndexIsExact, PathsAreNearest, NoneRepeats, Rooted, Keys;
      queue := [Source(None, doc.catalog, [])];
      if doc.root.Some? {
        visited := {doc.root.value};
      }
      ghost var scans: seq<Scan> := [];
      ghost var levels: seq<nat> := [0];
      while queue != []
        invariant if scans == [] then Now() == Start(doc).(queue := [Source(None, doc.catalog, [])]) && levels == [0]
                  else Inv(doc, scans, Now(), levels) && Complete(scans)
        invariant scans == [] ==> queue != []
        decreases Work(doc, Now())
      {
        ghost var before := Now();
        var entry := queue[0];
        queue := queue[1..];
        if scans == [] {
          StartKeeps(doc);
          assert scans + [Scan(entry, [])] == [Scan(Source(None, doc.catalog, []), [])];
          assert Now() == Start(doc);
        } else {
          NextKeeps(doc, scans, before, levels);
          assert Now() == before.(queue := before.queue[1..]);
        }
        ghost var popped := Now();
        ghost var begun := scans + [Scan(entry, [])];
        CatalogPath(doc, begun, popped, levels);
        ScanContainer(entry.parent, entry.pathFromRoot, entry.obj, []);
        ghost var occs := OccIn(entry.obj, []);
        BegunIsScanned(doc, begun, popped, levels, occs);
        levels := NoteAllKeeps(doc, begun, popped, levels, occs);
        assert begun[..|begun| - 1] == scans;
        assert entry == begun[|begun| - 1].source;
        CompleteOneMore(scans, entry);
        scans := scans + [Scan(entry, occs)];
        NoteAllWork(doc, entry.parent, entry.pathFromRoot, popped, occs);
      }
      FinishedIsExact(doc, scans, Now(), levels);
      ExactIsSpelledOut(doc, out);
    }

    /** Records every reference inside v, whose location inside the parent is prefix. */
    method ScanContainer(parent: Option<RefKey>, parentPath: Path, v: Obj, prefix: Path)
      requires parent.None? ==> parentPath == []
      modifies this
      ensures Now() == NoteAll(doc, parent, parentPath, old(Now()), OccIn(v, prefix))
      decreases v, 1
    {
      hide Note, NoteAll, OccAt, Sorted, Record, Resolve;
      ghost var start := Now();
      NoteNone(doc, parent, parentPath, start);
      if v.Dict? || v.Stream? {
        var keys := Sorted(v.entries.Keys);
        for i := 0 to |keys|
          invariant Now() == NoteAll(doc, parent, parentPath, start, OccEntries(v, keys, i, prefix))
        {
          HandleValue(parent, parentPath, v.entries[keys[i]], prefix + [Key(keys[i])]);
          EntryNoted(doc, parent, parentPath, start, v, keys, i, prefix);
        }
      } else if v.Array? {
        for i := 0 to |v.elems|
          invariant Now() == NoteAll(doc, parent, parentPath, start, OccElems(v, i, prefix))
        {
          HandleValue(parent, parentPath, v.elems[i], prefix + [Step.Index(i)]);
          ElemNoted(doc, parent, parentPath, start, v, i, prefix);
        }
      }
    }

    /** Records the reference v, and queues its target the first time; or scans the container v in place. */
    method HandleValue(parent: Option<RefKey>, parentPath: Path, v: Obj, path: Path)
      requires parent.None? ==> parentPath == []
      modifies this
      ensures Now() == NoteAll(doc, parent, parentPath, old(Now()), OccAt(v, path))
      decreases v, 2
    {
      if v.Ref? {
        var key := (v.num, v.gen);
        NoteAllOne(doc, parent, parentPath, Now(), Occ(key, path));
        if parent.Some? {
          out := out[key := Inbound(out, key) + [Edge(parent.value, path, parentPath)]];
        } else {
          RecordCatalogChild(key, path);
        }
        if key in visited {
          return;
        }
        visited := visited + {key};
        var resolved := Resolve(doc, key);
        if resolved.None? {
          return;
        }
        queue := queue + [Source(Some(key), resolved.value, parentPath + path)];
      } else if IsContainer(v) {
        ScanContainer(parent, parentPath, v, path);
      }
    }

    /** An edge out of the catalog, under the key the trailer gives the catalog. */
    method RecordCatalogChild(key: RefKey, path: Path)
      modifies this`out
      ensures out == Record(doc, old(out), None, [], Occ(key, path))
    {
      if doc.root.Some? {
        out := out[key := Inbound(out, key) + [Edge(doc.root.value, path, [])]];
      }
    }
  }

  lemma NoteNone(d: Document, parent: Option<RefKey>, parentPath: Path, st: State)
    ensures NoteAll(d, parent, parentPath, st, []) == st
  {
  }

  lemma NoteAllOne(d: Document, parent: Option<RefKey>, parentPath: Path, st: State, o: Occ)
    ensures NoteAll(d, parent, parentPath, st, [o]) == Note(d, parent, parentPath, st, o)
  {
    assert [o][..0] == [];
    assert NoteAll(d, parent, parentPath, st, []) == st;
  }

  lemma CatalogPath(d: Document, scans: seq<Scan>, st: State, levels: seq<nat>)
    requires scans != [] && Inv(d, scans, st, levels)
    ensures scans[|scans| - 1].source.parent.None? ==> scans[|scans| - 1].source.pathFromRoot == []
  {
    assert (Sources(scans) + st.queue)[|scans| - 1] == scans[|scans| - 1].source;
    assert WellSourced(d, scans[|scans| - 1].source, levels[|scans| - 1]);
  }

  lemma CompleteOneMore(scans: seq<Scan>, e: Source)
    requires Complete(scans)
    ensures Complete(scans + [Scan(e, OccIn(e.obj, []))])
  {
  }

  lemma BegunIsScanned(d: Document, scans: seq<Scan>, st: State, levels: seq<nat>, occs: seq<Occ>)
    requires scans != [] && Inv(d, scans, st, levels)
    requires occs == OccIn(scans[|scans| - 1].source.obj, [])
    ensures forall o :: o in occs ==> OccursAt(scans[|scans| - 1].source.obj, o.path, o.key)
    ensures forall o :: o in occs ==> o.key in Keys(d)
  {
    var n := |scans| - 1;
    var e := scans[n].source;
    assert (Sources(scans) + st.queue)[n] == e;
    SourceKeys(d, e, levels[n]);
    OccInIsExact(e.obj);
  }
}
