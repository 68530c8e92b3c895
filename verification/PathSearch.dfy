/** A path of references from the catalog to one object. */
module PathSearch {
  import opened PdfObjects
  import opened RefGraph
  import opened RefReach
  import RefTrails

  /** The catalog refers to the first key of the path, and each key's object to the next key. */
  ghost predicate Chain(d: Document, path: seq<RefKey>) {
    && path != []
    && Occurs(d.catalog, path[0])
    && forall i :: 0 < i < |path| ==> Links(d, path[i - 1], path[i])
  }

  /** A container still to be searched, and the keys that lead to it; its own values may be inline ones. */
  datatype Entry = Entry(path: seq<RefKey>, obj: Obj)

  function Objs(queue: seq<Entry>): (r: seq<Obj>)
    ensures |r| == |queue| && forall i :: 0 <= i < |r| ==> r[i] == queue[i].obj
  {
    seq(|queue|, i requires 0 <= i < |queue| => queue[i].obj)
  }

  ghost function Marked(visited: set<RefKey>): iset<RefKey> {
    iset k | k in visited
  }

  ghost predicate EntryLeads(d: Document, e: Entry) {
    forall k :: Occurs(e.obj, k) ==> Chain(d, e.path + [k])
  }

  ghost predicate Follows(d: Document, visited: set<RefKey>, queue: seq<Entry>) {
    AllSettled(d, Marked(visited), Objs(queue))
  }

  ghost predicate Leads(d: Document, queue: seq<Entry>) {
    forall e :: e in queue ==> EntryLeads(d, e)
  }

  ghost function Work(d: Document, visited: set<RefKey>, queue: seq<Entry>): nat {
    TotalSize(Objs(queue)) + KeysSize(d, Keys(d) - visited)
  }

  lemma {:induction false} ChainReaches(d: Document, path: seq<RefKey>)
    requires Chain(d, path)
    ensures Reachable(d, path[|path| - 1])
    decreases |path|
  {
    var n := |path| - 1;
    if n == 0 {
      CatalogReaches(d, path[0]);
    } else {
      ChainReaches(d, path[..n]);
      ReachesOn(d, path[n - 1], path[n]);
    }
  }

  lemma ChainOn(d: Document, path: seq<RefKey>, j: RefKey, k: RefKey)
    requires Chain(d, path + [j]) && Links(d, j, k)
    ensures Chain(d, path + [j] + [k])
  {
    var p := path + [j] + [k];
    assert p[0] == (path + [j])[0];
    forall i | 0 < i < |p|
      ensures Links(d, p[i - 1], p[i])
    {
      if i < |p| - 1 {
        assert p[i - 1] == (path + [j])[i - 1] && p[i] == (path + [j])[i];
      }
    }
  }

  lemma StartKeeps(d: Document)
    ensures Follows(d, {}, [Entry([], d.catalog)]) && Leads(d, [Entry([], d.catalog)])
  {
    hide Occurs;
    var e := Entry([], d.catalog);
    assert Objs([e]) == [d.catalog];
    forall k | Occurs(d.catalog, k)
      ensures Pending([d.catalog], k) && Chain(d, e.path + [k])
    {
      PendingOne(d.catalog, k);
    }
  }

  lemma EmptyIsComplete(d: Document, visited: set<RefKey>, target: RefKey)
    requires Follows(d, visited, []) && target !in visited
    ensures !Reachable(d, target)
  {
    assert Objs([]) == [];
    if Reachable(d, target) {
      SettledHoldsReachable(d, Marked(visited), target);
    }
  }

  lemma Rearrange(d: Document, visited: set<RefKey>, a: seq<Entry>, b: seq<Entry>)
    requires Follows(d, visited, a + b) && Leads(d, a + b)
    ensures Follows(d, visited, b + a) && Leads(d, b + a)
    ensures Work(d, visited, b + a) == Work(d, visited, a + b)
  {
    hide AllSettled, EntryLeads;
    assert Objs(a + b) == Objs(a) + Objs(b) && Objs(b + a) == Objs(b) + Objs(a);
    SettledReorder(d, Marked(visited), Objs(a), Objs(b));
    assert forall e :: e in b + a ==> e in a + b;
  }

  lemma ObjsPush(queue: seq<Entry>, e: Entry)
    ensures Objs(queue + [e]) == Objs(queue) + [e.obj]
  {
  }

  lemma OpenStream(d: Document, visited: set<RefKey>, queue: seq<Entry>, path: seq<RefKey>, m: map<string, Obj>)
    requires Follows(d, visited, queue + [Entry(path, Stream(m))]) && Leads(d, queue + [Entry(path, Stream(m))])
    ensures Follows(d, visited, queue + [Entry(path, Dict(m))]) && Leads(d, queue + [Entry(path, Dict(m))])
    ensures Work(d, visited, queue + [Entry(path, Dict(m))]) < Work(d, visited, queue + [Entry(path, Stream(m))])
  {
    hide AllSettled, Occurs, Size, Chain, Objs;
    var s, t := Entry(path, Stream(m)), Entry(path, Dict(m));
    StreamOpens(m);
    ObjsPush(queue, s);
    ObjsPush(queue, t);
    SettledExchange(d, Marked(visited), Objs(queue), Stream(m), Dict(m));
    assert s in queue + [s];
    assert forall e :: e in queue + [t] ==> e == t || e in queue + [s];
  }

  lemma Drop(d: Document, visited: set<RefKey>, queue: seq<Entry>, e: Entry)
    requires Follows(d, visited, queue + [e]) && Leads(d, queue + [e])
    requires !IsContainer(e.obj) || e.obj == Dict(map[]) || e.obj == Array([])
    ensures Follows(d, visited, queue) && Leads(d, queue)
    ensures Work(d, visited, queue) < Work(d, visited, queue + [e])
  {
    hide AllSettled, EntryLeads, Occurs, Size, Objs;
    HoldsNothing(e.obj);
    ObjsPush(queue, e);
    SettledDrop(d, Marked(visited), Objs(queue), e.obj);
    assert forall x :: x in queue ==> x in queue + [e];
  }

  /** What visiting a value at path adds to the queue: the container a new reference leads to, or the value itself
      when it is a container. */
  function Added(d: Document, visited: set<RefKey>, path: seq<RefKey>, val: Obj): seq<Entry> {
    if val.Ref? then
      var k := (val.num, val.gen);
      if k in visited then []
      else if Resolve(d, k).Some? && IsContainer(Resolve(d, k).value) then [Entry(path + [k], Resolve(d, k).value)]
        else []
    else if IsContainer(val) then [Entry(path, val)] else []
  }

  function Marks(visited: set<RefKey>, val: Obj): set<RefKey> {
    if val.Ref? then visited + {(val.num, val.gen)} else visited
  }

  lemma VisitFollows(d: Document, visited: set<RefKey>, queue: seq<Entry>, path: seq<RefKey>, whole: Obj, val: Obj,
                     rest: Obj)
    requires Follows(d, visited, queue + [Entry(path, whole)]) && Splits(whole, val, rest)
    ensures Follows(d, Marks(visited, val), queue + Added(d, visited, path, val) + [Entry(path, rest)])
  {
    hide Pending, Occurs, AllSettled, Splits, Objs;
    var marked := Marked(visited);
    var found := if val.Ref? && (val.num, val.gen) !in visited then iset{(val.num, val.gen)} else iset{};
    var added := Added(d, visited, path, val);
    forall k | AtOrIn(val, k)
      ensures k in marked || k in found || Pending(Objs(added), k)
    {
      HoldsNothingUnlessContainer(val, k);
      PendingOne(val, k);
      assert IsContainer(val) ==> Objs(added) == [val];
    }
    forall j, k | j in found && Links(d, j, k)
      ensures Pending(Objs(added), k)
    {
      var v := Resolve(d, j).value;
      PendingOne(v, k);
      if !IsContainer(v) {
        HoldsNothing(v);
      }
      assert Objs(added) == [v];
    }
    ObjsPush(queue, Entry(path, whole));
    assert Objs(queue + added + [Entry(path, rest)]) == Objs(queue) + Objs(added) + [rest];
    SettledStep(d, marked, Objs(queue), whole, val, rest, found, Objs(added));
    assert marked + found == Marked(Marks(visited, val));
  }

  lemma PartLeads(d: Document, path: seq<RefKey>, whole: Obj, val: Obj, rest: Obj)
    requires EntryLeads(d, Entry(path, whole)) && Splits(whole, val, rest)
    ensures EntryLeads(d, Entry(path, val)) && EntryLeads(d, Entry(path, rest))
    ensures val.Ref? ==> Chain(d, path + [(val.num, val.gen)])
  {
    if val.Ref? {
      assert AtOrIn(val, (val.num, val.gen));
    }
  }

  lemma VisitLeads(d: Document, visited: set<RefKey>, queue: seq<Entry>, path: seq<RefKey>, whole: Obj, val: Obj,
                   rest: Obj)
    requires Leads(d, queue + [Entry(path, whole)]) && Splits(whole, val, rest)
    ensures Leads(d, queue + Added(d, visited, path, val) + [Entry(path, rest)])
  {
    hide Splits, Occurs, Chain;
    assert Entry(path, whole) in queue + [Entry(path, whole)];
    PartLeads(d, path, whole, val, rest);
    forall e | e in queue + Added(d, visited, path, val) + [Entry(path, rest)]
      ensures EntryLeads(d, e)
    {
      if e in queue {
        assert e in queue + [Entry(path, whole)];
      } else if e != Entry(path, rest) && val.Ref? {
        forall k | Occurs(e.obj, k)
          ensures Chain(d, e.path + [k])
        {
          ChainOn(d, path, (val.num, val.gen), k);
        }
      }
    }
  }

  lemma VisitWork(d: Document, visited: set<RefKey>, queue: seq<Entry>, path: seq<RefKey>, whole: Obj, val: Obj,
                  rest: Obj)
    requires Leads(d, queue + [Entry(path, whole)]) && Splits(whole, val, rest)
    ensures Work(d, Marks(visited, val), queue + Added(d, visited, path, val) + [Entry(path, rest)])
         <= Work(d, visited, queue + [Entry(path, whole)])
  {
    hide Splits, Occurs, Size, Keys, Chain, Objs;
    var added := Added(d, visited, path, val);
    ObjsPush(queue, Entry(path, whole));
    assert Objs(queue + added + [Entry(path, rest)]) == Objs(queue) + Objs(added) + [rest];
    TotalSizeJoins(Objs(queue), [whole]);
    TotalSizeJoins(Objs(queue) + Objs(added), [rest]);
    TotalSizeJoins(Objs(queue), Objs(added));
    TotalSizeOne(whole);
    TotalSizeOne(rest);
    SplitsSize(whole, val, rest);
    assert Entry(path, whole) in queue + [Entry(path, whole)];
    PartLeads(d, path, whole, val, rest);
    KeysShrink(d, Keys(d) - visited, Keys(d) - Marks(visited, val));
    if val.Ref? && (val.num, val.gen) !in visited {
      var k := (val.num, val.gen);
      ChainReaches(d, path + [k]);
      ReachableIsKey(d, k);
      if added != [] {
        assert Objs(added) == [Resolve(d, k).value];
        TotalSizeOne(Resolve(d, k).value);
      }
    } else if added != [] {
      assert Objs(added) == [val];
      TotalSizeOne(val);
    }
  }

  class Search {
    const doc: Document
    const target: RefKey
    var queue: seq<Entry>
    var visited: set<RefKey>

    constructor (d: Document, t: RefKey)
      ensures doc == d && target == t && queue == [] && visited == {}
    {
      doc, target, queue, visited := d, t, [], {};
    }

    /** The search as it stands with the entries of extra still in hand. */
    ghost predicate Holds(extra: seq<Entry>)
      reads this
    {
      Follows(doc, visited, queue + extra) && Leads(doc, queue + extra) && target !in visited
    }

    /** Finds a chain of references from the catalog that ends at the target, or tells that there is none. */
    method Find() returns (found: Option<seq<RefKey>>)
      requires queue == [] && visited == {}
      modifies this
      ensures found.Some? ==> Chain(doc, found.value) && found.value[|found.value| - 1] == target
      ensures found.Some? <==> Reachable(doc, target)
      ensures found.Some? <==> RefTrails.Leads(doc, target)
      ensures found.Some? ==> exists pieces :: RefTrails.TrailTo(doc, found.value, pieces, target)
    {
      hide RefTrails.Leads, RefTrails.TrailTo;
      RefTrails.ReachableIff(doc, target);
      hide Follows, Leads, Work, Size, Occurs, Chain, Reachable;
      queue := [Entry([], doc.catalog)];
      StartKeeps(doc);
      assert queue + [] == queue;
      while queue != []
        invariant Holds([])
        decreases Work(doc, visited, queue)
      {
        var entry := queue[0];
        assert queue + [] == [entry] + queue[1..] == queue;
        Rearrange(doc, visited, [entry], queue[1..]);
        queue := queue[1..];
        found := None;
        match entry.obj {
          case Dict(m) =>
            found := SearchDict(entry.path, m);
          case Array(a) =>
            found := SearchArray(entry.path, a);
          case Stream(m) =>
            OpenStream(doc, visited, queue, entry.path, m);
            queue := queue + [Entry(entry.path, Dict(m))];
          case _ =>
            Drop(doc, visited, queue, entry);
        }
        if found.Some? {
          ChainReachesTarget(doc, found.value);
          ghost var pieces := ChainIsTrail(doc, found.value);
          return;
        }
        assert queue + [] == queue;
      }
      assert [] + queue == queue;
      EmptyIsComplete(doc, visited, target);
      found := None;
    }

    method SearchDict(path: seq<RefKey>, m: map<string, Obj>) returns (found: Option<seq<RefKey>>)
      requires Holds([Entry(path, Dict(m))])
      modifies this
      ensures found.Some? ==> Chain(doc, found.value) && found.value[|found.value| - 1] == target
      ensures found.None? ==> Holds([])
      ensures found.None? ==> Work(doc, visited, queue) < old(Work(doc, visited, queue + [Entry(path, Dict(m))]))
    {
      hide Follows, Leads, Work, Size, Splits, Occurs, Chain;
      var todo := m;
      while todo != map[]
        invariant Holds([Entry(path, Dict(todo))])
        invariant Work(doc, visited, queue + [Entry(path, Dict(todo))])
               <= old(Work(doc, visited, queue + [Entry(path, Dict(m))]))
        decreases todo.Keys
      {
        var key :| key in todo;
        DictSplits(todo, key);
        found := Visit(path, todo[key], Dict(todo), Dict(todo - {key}));
        if found.Some? {
          return;
        }
        assert (todo - {key}).Keys == todo.Keys - {key};
        todo := todo - {key};
      }
      Drop(doc, visited, queue, Entry(path, Dict(todo)));
      assert queue + [] == queue;
      found := None;
    }

    method SearchArray(path: seq<RefKey>, a: seq<Obj>) returns (found: Option<seq<RefKey>>)
      requires Holds([Entry(path, Array(a))])
      modifies this
      ensures found.Some? ==> Chain(doc, found.value) && found.value[|found.value| - 1] == target
      ensures found.None? ==> Holds([])
      ensures found.None? ==> Work(doc, visited, queue) < old(Work(doc, visited, queue + [Entry(path, Array(a))]))
    {
      hide Follows, Leads, Work, Size, Splits, Occurs, Chain;
      assert a[0..] == a;
      for i := 0 to |a|
        invariant Holds([Entry(path, Array(a[i..]))])
        invariant Work(doc, visited, queue + [Entry(path, Array(a[i..]))])
               <= old(Work(doc, visited, queue + [Entry(path, Array(a))]))
      {
        ArraySplits(a[i..]);
        assert a[i..][1..] == a[i + 1..];
        found := Visit(path, a[i], Array(a[i..]), Array(a[i + 1..]));
        if found.Some? {
          return;
        }
      }
      assert a[|a|..] == [];
      Drop(doc, visited, queue, Entry(path, Array([])));
      assert queue + [] == queue;
      found := None;
    }

    /** One value of a container that path leads to. */
    method Visit(path: seq<RefKey>, val: Obj, ghost whole: Obj, ghost rest: Obj) returns (found: Option<seq<RefKey>>)
      requires Holds([Entry(path, whole)]) && Splits(whole, val, rest)
      modifies this
      ensures found.Some? <==> val == Ref(target.0, target.1)
      ensures found.Some? ==> found.value == path + [target] && Chain(doc, found.value)
      ensures found.None? ==> Holds([Entry(path, rest)])
      ensures found.None? ==> visited == Marks(old(visited), val)
      ensures found.None? ==> queue == old(queue) + Added(doc, old(visited), path, val)
      ensures found.None? ==>
        Work(doc, visited, queue + [Entry(path, rest)]) <= old(Work(doc, visited, queue + [Entry(path, whole)]))
    {
      hide Follows, Work, Splits, Occurs, Chain, EntryLeads;
      VisitFollows(doc, visited, queue, path, whole, val, rest);
      VisitLeads(doc, visited, queue, path, whole, val, rest);
      VisitWork(doc, visited, queue, path, whole, val, rest);
      assert Entry(path, whole) in queue + [Entry(path, whole)];
      PartLeads(doc, path, whole, val, rest);
      assert queue + [] == queue;
      if !val.Ref? {
        if IsContainer(val) {
          queue := queue + [Entry(path, val)];
        }
        return None;
      }
      var child := (val.num, val.gen);
      if child == target {
        return Some(path + [child]);
      }
      if child in visited {
        assert visited + {child} == visited;
        return None;
      }
      visited := visited + {child};
      var resolved := Resolve(doc, child);
      if resolved.None? {
        return None;
      }
      if IsContainer(resolved.value) {
        queue := queue + [Entry(path + [child], resolved.value)];
      }
      return None;
    }
  }

  lemma ChainReachesTarget(d: Document, path: seq<RefKey>)
    requires Chain(d, path)
    ensures path != [] && Reachable(d, path[|path| - 1])
  {
    ChainReaches(d, path);
  }

  /** A chain is a trail. */
  lemma {:induction false} ChainIsTrail(d: Document, path: seq<RefKey>) returns (pieces: seq<Path>)
    requires Chain(d, path)
    ensures RefTrails.TrailTo(d, path, pieces, path[|path| - 1])
    decreases |path|
  {
    hide OccursAt, Resolve, RefTrails.TrailTo;
    var n := |path| - 1;
    if n == 0 {
      var at :| OccursAt(d.catalog, at, path[0]);
      pieces := RefTrails.TrailStarts(d, path[0], at);
      assert path == [path[0]];
    } else {
      pieces := ChainIsTrail(d, path[..n]);
      assert Links(d, path[n - 1], path[n]);
      var at :| OccursAt(Resolve(d, path[n - 1]).value, at, path[n]);
      RefTrails.RefersIff(d, path[n - 1], at, path[n]);
      var longer;
      longer, pieces := RefTrails.TrailOn(d, path[..n], pieces, path[n - 1], at, path[n]);
      assert path[..n] + [path[n]] == path;
    }
  }
}
