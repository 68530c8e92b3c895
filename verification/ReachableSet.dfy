/** The set of object numbers reachable from the catalog. */
module ReachableSet {
  import opened PdfObjects
  import opened RefGraph
  import opened RefReach
  import RefTrails

  /** Object number n is the catalog's, or some reference to it is reachable. */
  ghost predicate IsReachable(d: Document, n: nat) {
    (d.root.Some? && d.root.value.0 == n) || exists gen: nat :: Reachable(d, (n, gen))
  }

  ghost function MarkedBy(numbers: set<nat>): iset<RefKey> {
    iset k: RefKey | k.0 in numbers
  }

  ghost function Unmarked(d: Document, numbers: set<nat>): set<RefKey> {
    set k | k in Keys(d) && k.0 !in numbers
  }

  /** What the catalog and the marked objects name is marked, or held by something in objs. */
  ghost predicate Follows(d: Document, reachable: set<nat>, objs: seq<Obj>) {
    AllSettled(d, MarkedBy(reachable), objs)
  }

  /** What is marked or held by objs is reachable. */
  ghost predicate Sound(d: Document, reachable: set<nat>, objs: seq<Obj>) {
    && (forall n :: n in reachable ==> IsReachable(d, n))
    && (forall v :: v in objs ==> InGraph(d, v))
  }

  /** The size of what is queued and of what is still unmarked. */
  ghost function Work(d: Document, reachable: set<nat>, objs: seq<Obj>): nat {
    TotalSize(objs) + KeysSize(d, Unmarked(d, reachable))
  }

  lemma StartKeeps(d: Document)
    requires Rooted(d)
    ensures var reachable := if d.root.Some? then {d.root.value.0} else {};
      Follows(d, reachable, [d.catalog]) && Sound(d, reachable, [d.catalog])
  {
    hide Occurs;
    forall k | Occurs(d.catalog, k)
      ensures Pending([d.catalog], k) && Reachable(d, k)
    {
      PendingOne(d.catalog, k);
      CatalogReaches(d, k);
    }
  }

  lemma EmptyIsComplete(d: Document, reachable: set<nat>, n: nat)
    requires Rooted(d) && Follows(d, reachable, []) && Sound(d, reachable, [])
    requires d.root.Some? ==> d.root.value.0 in reachable
    ensures n in reachable <==> IsReachable(d, n)
  {
    if gen: nat :| Reachable(d, (n, gen)) {
      SettledHoldsReachable(d, MarkedBy(reachable), (n, gen));
    }
  }

  lemma TrailsReach(d: Document)
    ensures forall n :: IsReachable(d, n) <==>
      (d.root.Some? && d.root.value.0 == n) || exists gen: nat :: RefTrails.Leads(d, (n, gen))
  {
    hide Reachable, RefTrails.Leads;
    forall n: nat, gen: nat
      ensures Reachable(d, (n, gen)) <==> RefTrails.Leads(d, (n, gen))
    {
      RefTrails.ReachableIff(d, (n, gen));
    }
  }

  lemma Rearrange(d: Document, reachable: set<nat>, a: seq<Obj>, b: seq<Obj>)
    requires Follows(d, reachable, a + b) && Sound(d, reachable, a + b)
    ensures Follows(d, reachable, b + a) && Sound(d, reachable, b + a)
    ensures Work(d, reachable, b + a) == Work(d, reachable, a + b)
  {
    hide AllSettled, InGraph, IsReachable;
    SettledReorder(d, MarkedBy(reachable), a, b);
    assert forall v :: v in b + a ==> v in a + b;
  }

  lemma OpenStream(d: Document, reachable: set<nat>, objs: seq<Obj>, m: map<string, Obj>)
    requires Follows(d, reachable, objs + [Stream(m)]) && Sound(d, reachable, objs + [Stream(m)])
    ensures Follows(d, reachable, objs + [Dict(m)]) && Sound(d, reachable, objs + [Dict(m)])
    ensures Work(d, reachable, objs + [Dict(m)]) < Work(d, reachable, objs + [Stream(m)])
  {
    hide AllSettled, IsReachable, Occurs, Size;
    StreamOpens(m);
    SettledExchange(d, MarkedBy(reachable), objs, Stream(m), Dict(m));
    assert Stream(m) in objs + [Stream(m)];
    assert forall v :: v in objs + [Dict(m)] ==> v == Dict(m) || v in objs + [Stream(m)];
  }

  lemma Drop(d: Document, reachable: set<nat>, objs: seq<Obj>, v: Obj)
    requires Follows(d, reachable, objs + [v]) && Sound(d, reachable, objs + [v])
    requires !IsContainer(v) || v == Dict(map[]) || v == Array([])
    ensures Follows(d, reachable, objs) && Sound(d, reachable, objs)
    ensures Work(d, reachable, objs) < Work(d, reachable, objs + [v])
  {
    hide AllSettled, IsReachable, InGraph, Occurs, Size;
    HoldsNothing(v);
    SettledDrop(d, MarkedBy(reachable), objs, v);
    assert forall x :: x in objs ==> x in objs + [v];
  }

  /** What queueing a value of the container under way adds to the queue: the object of a number seen for the
      first time, or the value itself when it is a container. */
  function Added(d: Document, reachable: set<nat>, val: Obj): seq<Obj> {
    if val.Ref? then
      if val.num in reachable then []
      else if Resolve(d, (val.num, val.gen)).Some? then [Resolve(d, (val.num, val.gen)).value] else []
    else if IsContainer(val) then [val] else []
  }

  function Marks(reachable: set<nat>, val: Obj): set<nat> {
    if val.Ref? then reachable + {val.num} else reachable
  }

  lemma QueueKeeps(d: Document, reachable: set<nat>, objs: seq<Obj>, whole: Obj, val: Obj, rest: Obj)
    requires Follows(d, reachable, objs + [whole]) && Sound(d, reachable, objs + [whole]) && Splits(whole, val, rest)
    ensures var next := objs + Added(d, reachable, val) + [rest];
      && Follows(d, Marks(reachable, val), next) && Sound(d, Marks(reachable, val), next)
      && Work(d, Marks(reachable, val), next) <= Work(d, reachable, objs + [whole])
  {
    QueueFollows(d, reachable, objs, whole, val, rest);
    QueueSound(d, reachable, objs, whole, val, rest);
    QueueWork(d, reachable, objs, whole, val, rest);
  }

  lemma QueueFollows(d: Document, reachable: set<nat>, objs: seq<Obj>, whole: Obj, val: Obj, rest: Obj)
    requires Follows(d, reachable, objs + [whole]) && Splits(whole, val, rest)
    ensures Follows(d, Marks(reachable, val), objs + Added(d, reachable, val) + [rest])
  {
    hide Pending, Occurs, AllSettled, Splits;
    var marked := MarkedBy(reachable);
    var found := if val.Ref? && val.num !in reachable then (iset k: RefKey | k.0 == val.num) else iset{};
    var added := Added(d, reachable, val);
    forall k | AtOrIn(val, k)
      ensures k in marked || k in found || Pending(added, k)
    {
      HoldsNothingUnlessContainer(val, k);
      PendingOne(val, k);
    }
    forall j, k | j in found && Links(d, j, k)
      ensures Pending(added, k)
    {
      PendingOne(Resolve(d, j).value, k);
    }
    SettledStep(d, marked, objs, whole, val, rest, found, added);
    assert marked + found == MarkedBy(Marks(reachable, val));
  }

  lemma PartIsInGraph(d: Document, whole: Obj, val: Obj, rest: Obj)
    requires InGraph(d, whole) && Splits(whole, val, rest)
    ensures InGraph(d, val) && InGraph(d, rest)
    ensures val.Ref? ==> Reachable(d, (val.num, val.gen))
  {
    if val.Ref? {
      assert AtOrIn(val, (val.num, val.gen));
    }
  }

  lemma QueueSound(d: Document, reachable: set<nat>, objs: seq<Obj>, whole: Obj, val: Obj, rest: Obj)
    requires Sound(d, reachable, objs + [whole]) && Splits(whole, val, rest)
    ensures Sound(d, Marks(reachable, val), objs + Added(d, reachable, val) + [rest])
  {
    hide Splits, Occurs;
    assert whole in objs + [whole];
    PartIsInGraph(d, whole, val, rest);
    forall v | v in objs + Added(d, reachable, val) + [rest]
      ensures InGraph(d, v)
    {
      if v in objs {
        assert v in objs + [whole];
      } else if v != rest && val.Ref? {
        forall k | Occurs(v, k)
          ensures Reachable(d, k)
        {
          ReachesOn(d, (val.num, val.gen), k);
        }
      }
    }
  }

  lemma QueueWork(d: Document, reachable: set<nat>, objs: seq<Obj>, whole: Obj, val: Obj, rest: Obj)
    requires Sound(d, reachable, objs + [whole]) && Splits(whole, val, rest)
    ensures Work(d, Marks(reachable, val), objs + Added(d, reachable, val) + [rest]) <=
      Work(d, reachable, objs + [whole])
  {
    hide Splits, Occurs, Size, Keys;
    var added := Added(d, reachable, val);
    TotalSizeJoins(objs, [whole]);
    TotalSizeJoins(objs + added, [rest]);
    TotalSizeJoins(objs, added);
    TotalSizeOne(whole);
    TotalSizeOne(rest);
    TotalSizeOne(val);
    SplitsSize(whole, val, rest);
    assert whole in objs + [whole];
    PartIsInGraph(d, whole, val, rest);
    var before, after := Unmarked(d, reachable), Unmarked(d, Marks(reachable, val));
    KeysShrink(d, before, after);
    if val.Ref? && val.num !in reachable {
      var k := (val.num, val.gen);
      ReachableIsKey(d, k);
      assert k in before && k !in after;
      if Resolve(d, k).Some? {
        TotalSizeOne(Resolve(d, k).value);
      }
    }
  }

  class Search {
    const doc: Document
    var queue: seq<Obj>
    var reachable: set<nat>

    constructor (d: Document)
      ensures doc == d && queue == [] && reachable == {}
    {
      doc, queue, reachable := d, [], {};
    }

    /** The search as it stands while v is being taken apart. */
    ghost predicate Holds(v: Obj)
      reads this
    {
      && Follows(doc, reachable, queue + [v])
      && Sound(doc, reachable, queue + [v])
      && (doc.root.Some? ==> doc.root.value.0 in reachable)
    }

    ghost predicate HoldsQueue()
      reads this
    {
      && Follows(doc, reachable, queue)
      && Sound(doc, reachable, queue)
      && (doc.root.Some? ==> doc.root.value.0 in reachable)
    }

    /** Marks exactly the numbers reachable from the catalog, the catalog's own included. */
    method Build()
      requires Rooted(doc) && queue == [] && reachable == {}
      modifies this
      ensures forall n :: n in reachable <==> IsReachable(doc, n)
      ensures forall n :: n in reachable <==>
        (doc.root.Some? && doc.root.value.0 == n) || exists gen: nat :: RefTrails.Leads(doc, (n, gen))
    {
      hide RefTrails.Leads;
      hide Follows, Sound, Work, Size, Occurs, IsReachable, Rooted;
      if doc.root.Some? {
        reachable := {doc.root.value.0};
      }
      queue := [doc.catalog];
      StartKeeps(doc);
      while queue != []
        invariant HoldsQueue()
        decreases Work(doc, reachable, queue)
      {
        var head := queue[0];
        assert [head] + queue[1..] == queue;
        Rearrange(doc, reachable, [head], queue[1..]);
        queue := queue[1..];
        match head {
          case Dict(m) =>
            TakeDict(m);
          case Stream(m) =>
            OpenStream(doc, reachable, queue, m);
            queue := queue + [Dict(m)];
          case Array(a) =>
            TakeArray(a);
          case _ =>
            Drop(doc, reachable, queue, head);
        }
      }
      forall n
        ensures n in reachable <==> IsReachable(doc, n)
      {
        EmptyIsComplete(doc, reachable, n);
      }
      TrailsReach(doc);
    }

    method TakeDict(m: map<string, Obj>)
      requires Holds(Dict(m))
      modifies this
      ensures HoldsQueue()
      ensures Work(doc, reachable, queue) < old(Work(doc, reachable, queue + [Dict(m)]))
    {
      hide Follows, Sound, Work, Size, Splits, Occurs;
      var todo := m;
      while todo != map[]
        invariant Holds(Dict(todo))
        invariant Work(doc, reachable, queue + [Dict(todo)]) <= old(Work(doc, reachable, queue + [Dict(m)]))
        decreases todo.Keys
      {
        var key :| key in todo;
        DictSplits(todo, key);
        QueueRefs(todo[key], Dict(todo), Dict(todo - {key}));
        assert (todo - {key}).Keys == todo.Keys - {key};
        todo := todo - {key};
      }
      Drop(doc, reachable, queue, Dict(todo));
    }

    method TakeArray(a: seq<Obj>)
      requires Holds(Array(a))
      modifies this
      ensures HoldsQueue()
      ensures Work(doc, reachable, queue) < old(Work(doc, reachable, queue + [Array(a)]))
    {
      hide Follows, Sound, Work, Size, Splits, Occurs;
      assert a[0..] == a;
      for i := 0 to |a|
        invariant Holds(Array(a[i..]))
        invariant Work(doc, reachable, queue + [Array(a[i..])]) <= old(Work(doc, reachable, queue + [Array(a)]))
      {
        ArraySplits(a[i..]);
        assert a[i..][1..] == a[i + 1..];
        QueueRefs(a[i], Array(a[i..]), Array(a[i + 1..]));
      }
      assert a[|a|..] == [];
      Drop(doc, reachable, queue, Array([]));
    }

    /** Marks the number val refers to and queues its object the first time, or queues the container val. */
    method QueueRefs(val: Obj, ghost whole: Obj, ghost rest: Obj)
      requires Holds(whole) && Splits(whole, val, rest)
      modifies this
      ensures queue == old(queue) + Added(doc, old(reachable), val) && reachable == Marks(old(reachable), val)
      ensures Holds(rest)
      ensures Work(doc, reachable, queue + [rest]) <= old(Work(doc, reachable, queue + [whole]))
    {
      hide Follows, Sound, Work, Splits, Occurs;
      QueueKeeps(doc, reachable, queue, whole, val, rest);
      if val.Ref? {
        if val.num in reachable {
          assert reachable + {val.num} == reachable;
          assert queue + [] == queue;
          return;
        }
        reachable := reachable + {val.num};
        var resolved := Resolve(doc, (val.num, val.gen));
        if resolved.None? {
          assert queue + [] == queue;
          return;
        }
        queue := queue + [resolved.value];
        return;
      }
      if IsContainer(val) {
        queue := queue + [val];
      }
      assert old(queue) + [] == old(queue);
    }
  }
}
