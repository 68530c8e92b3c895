/** Searches of the reference graph that only follow references: the set of reachable object numbers, and a path
    to one object. */
module RefReach {
  import opened PdfObjects
  import opened RefGraph

  // Taking containers apart, one value at a time.

  /** The value v is a reference to k, or holds one. */
  ghost predicate AtOrIn(v: Obj, k: RefKey) {
    v == Ref(k.0, k.1) || Occurs(v, k)
  }

  /** The container whole holds what the value part and the container rest hold. */
  ghost predicate Splits(whole: Obj, part: Obj, rest: Obj) {
    && (forall k :: Occurs(whole, k) <==> AtOrIn(part, k) || Occurs(rest, k))
    && Size(whole) == Size(part) + Size(rest)
  }

  ghost function Size(v: Obj): nat
    decreases v, 1
  {
    match v
    case Dict(m) => 1 + EntriesSize(v, m.Keys)
    case Stream(m) => 2 + EntriesSize(v, m.Keys)
    case Array(a) => 1 + ElemsSize(v, 0)
    case _ => 1
  }

  ghost function EntriesSize(v: Obj, keys: set<string>): nat
    requires (v.Dict? || v.Stream?) && keys <= v.entries.Keys
    decreases v, 0, keys
  {
    if keys == {} then 0
    else
      var k :| k in keys;
      Size(v.entries[k]) + EntriesSize(v, keys - {k})
  }

  ghost function ElemsSize(v: Obj, i: nat): nat
    requires v.Array? && i <= |v.elems|
    decreases v, 0, |v.elems| - i
  {
    if i == |v.elems| then 0 else Size(v.elems[i]) + ElemsSize(v, i + 1)
  }

  lemma {:induction false} TakeEntry(v: Obj, keys: set<string>, k: string)
    requires (v.Dict? || v.Stream?) && keys <= v.entries.Keys && k in keys
    ensures EntriesSize(v, keys) == Size(v.entries[k]) + EntriesSize(v, keys - {k})
    decreases keys
  {
    hide Size;
    var j :| j in keys && EntriesSize(v, keys) == Size(v.entries[j]) + EntriesSize(v, keys - {j});
    if j != k {
      TakeEntry(v, keys - {j}, k);
      TakeEntry(v, keys - {k}, j);
      assert keys - {j} - {k} == keys - {k} - {j};
    }
  }

  lemma {:induction false} SameEntries(v: Obj, w: Obj, keys: set<string>)
    requires (v.Dict? || v.Stream?) && keys <= v.entries.Keys
    requires (w.Dict? || w.Stream?) && keys <= w.entries.Keys
    requires forall k :: k in keys ==> v.entries[k] == w.entries[k]
    ensures EntriesSize(v, keys) == EntriesSize(w, keys)
    decreases keys
  {
    hide Size;
    if keys != {} {
      var k :| k in keys;
      TakeEntry(v, keys, k);
      TakeEntry(w, keys, k);
      SameEntries(v, w, keys - {k});
    }
  }

  lemma {:induction false} SameElems(v: Obj, w: Obj, i: nat, j: nat)
    requires v.Array? && w.Array? && i <= |v.elems| && j <= |w.elems| && v.elems[i..] == w.elems[j..]
    ensures ElemsSize(v, i) == ElemsSize(w, j)
    decreases |v.elems| - i
  {
    hide Size;
    assert |v.elems[i..]| == |w.elems[j..]|;
    if i < |v.elems| {
      assert v.elems[i] == v.elems[i..][0] == w.elems[j..][0] == w.elems[j];
      assert v.elems[i + 1..] == v.elems[i..][1..] && w.elems[j + 1..] == w.elems[j..][1..];
      SameElems(v, w, i + 1, j + 1);
    }
  }

  /** What a container holds is at or in one of its values. */
  lemma OccursBelow(v: Obj, k: RefKey) returns (s: Step)
    requires Occurs(v, k)
    ensures StepInto(v, s).Some? && AtOrIn(StepInto(v, s).value, k)
  {
    var path :| OccursAt(v, path, k);
    s := path[0];
    assert Inline(StepInto(v, s).value, path[1..]) == Some(Ref(k.0, k.1));
    if path[1..] != [] {
      assert OccursAt(StepInto(v, s).value, path[1..], k);
    }
  }

  lemma OccursThrough(v: Obj, s: Step, k: RefKey)
    requires StepInto(v, s).Some? && AtOrIn(StepInto(v, s).value, k)
    ensures Occurs(v, k)
  {
    var c := StepInto(v, s).value;
    if c == Ref(k.0, k.1) {
      assert Inline(c, []) == Some(c);
      assert [s][1..] == [];
      assert OccursAt(v, [s], k);
    } else {
      var path :| OccursAt(c, path, k);
      assert ([s] + path)[1..] == path;
      assert OccursAt(v, [s] + path, k);
    }
  }

  lemma DictSplits(m: map<string, Obj>, key: string)
    requires key in m
    ensures Splits(Dict(m), m[key], Dict(m - {key}))
  {
    hide Occurs, AtOrIn;
    var rest := Dict(m - {key});
    forall k
      ensures Occurs(Dict(m), k) <==> AtOrIn(m[key], k) || Occurs(rest, k)
    {
      if Occurs(Dict(m), k) {
        var s := OccursBelow(Dict(m), k);
        if s != Key(key) {
          OccursThrough(rest, s, k);
        }
      }
      if AtOrIn(m[key], k) {
        OccursThrough(Dict(m), Key(key), k);
      }
      if Occurs(rest, k) {
        var s := OccursBelow(rest, k);
        OccursThrough(Dict(m), s, k);
      }
    }
    TakeEntry(Dict(m), m.Keys, key);
    SameEntries(Dict(m), rest, m.Keys - {key});
    assert rest.entries.Keys == m.Keys - {key};
  }

  lemma ArraySplits(a: seq<Obj>)
    requires a != []
    ensures Splits(Array(a), a[0], Array(a[1..]))
  {
    hide Occurs, AtOrIn;
    var rest := Array(a[1..]);
    forall k
      ensures Occurs(Array(a), k) <==> AtOrIn(a[0], k) || Occurs(rest, k)
    {
      if Occurs(Array(a), k) {
        var s := OccursBelow(Array(a), k);
        if s != Step.Index(0) {
          OccursThrough(rest, Step.Index(s.i - 1), k);
        }
      }
      if AtOrIn(a[0], k) {
        OccursThrough(Array(a), Step.Index(0), k);
      }
      if Occurs(rest, k) {
        var s := OccursBelow(rest, k);
        OccursThrough(Array(a), Step.Index(s.i + 1), k);
      }
    }
    assert rest.elems[0..] == rest.elems == Array(a).elems[1..];
    SameElems(Array(a), rest, 1, 0);
    assert ElemsSize(Array(a), 0) == Size(a[0]) + ElemsSize(Array(a), 1);
    assert Size(Array(a)) == Size(a[0]) + Size(rest);
  }

  /** A stream holds what its dictionary holds. */
  lemma StreamOpens(m: map<string, Obj>)
    ensures forall k :: Occurs(Stream(m), k) <==> Occurs(Dict(m), k)
    ensures Size(Dict(m)) < Size(Stream(m))
  {
    hide Occurs, AtOrIn;
    forall k
      ensures Occurs(Stream(m), k) <==> Occurs(Dict(m), k)
    {
      if Occurs(Stream(m), k) {
        var s := OccursBelow(Stream(m), k);
        OccursThrough(Dict(m), s, k);
      }
      if Occurs(Dict(m), k) {
        var s := OccursBelow(Dict(m), k);
        OccursThrough(Stream(m), s, k);
      }
    }
    SameEntries(Stream(m), Dict(m), m.Keys);
  }

  lemma HoldsNothing(v: Obj)
    requires !IsContainer(v) || v == Dict(map[]) || v == Array([])
    ensures forall k :: !Occurs(v, k)
  {
    forall k
      ensures !Occurs(v, k)
    {
      if Occurs(v, k) {
        var s := OccursBelow(v, k);
        assert false;
      }
    }
  }

  ghost function TotalSize(objs: seq<Obj>): nat {
    if objs == [] then 0 else Size(objs[0]) + TotalSize(objs[1..])
  }

  lemma {:induction false} TotalSizeJoins(a: seq<Obj>, b: seq<Obj>)
    ensures TotalSize(a + b) == TotalSize(a) + TotalSize(b)
  {
    hide Size;
    if a == [] {
      assert a + b == b;
    } else {
      assert (a + b)[1..] == a[1..] + b;
      TotalSizeJoins(a[1..], b);
    }
  }

  lemma TotalSizeOne(v: Obj)
    ensures TotalSize([v]) == Size(v)
  {
    assert [v][1..] == [];
  }

  // What remains to be followed.

  ghost predicate Pending(objs: seq<Obj>, k: RefKey) {
    exists i :: 0 <= i < |objs| && Occurs(objs[i], k)
  }

  /** Everything v names is marked, or still held by something pending. */
  ghost predicate Settled(v: Obj, marked: iset<RefKey>, objs: seq<Obj>) {
    forall k :: Occurs(v, k) ==> k in marked || Pending(objs, k)
  }

  /** The catalog and every marked object are settled. */
  ghost predicate AllSettled(d: Document, marked: iset<RefKey>, objs: seq<Obj>) {
    && Settled(d.catalog, marked, objs)
    && forall k :: k in marked && Resolve(d, k).Some? ==> Settled(Resolve(d, k).value, marked, objs)
  }

  lemma PendingJoins(a: seq<Obj>, b: seq<Obj>, k: RefKey)
    ensures Pending(a + b, k) <==> Pending(a, k) || Pending(b, k)
  {
    if i :| 0 <= i < |a| && Occurs(a[i], k) {
      assert (a + b)[i] == a[i];
    }
    if i :| 0 <= i < |b| && Occurs(b[i], k) {
      assert (a + b)[|a| + i] == b[i];
    }
    if i :| 0 <= i < |a + b| && Occurs((a + b)[i], k) {
      assert i < |a| ==> Occurs(a[i], k);
      assert i >= |a| ==> Occurs(b[i - |a|], k);
    }
  }

  lemma PendingOne(v: Obj, k: RefKey)
    ensures Pending([v], k) <==> Occurs(v, k)
  {
    if Occurs(v, k) {
      assert Occurs([v][0], k);
    }
  }

  /** Nothing is lost when everything pending stays pending or is marked, and newly marked objects become pending. */
  lemma SettledMoves(d: Document, marked: iset<RefKey>, objs: seq<Obj>, marked': iset<RefKey>, objs': seq<Obj>)
    requires AllSettled(d, marked, objs) && marked <= marked'
    requires forall k :: Pending(objs, k) ==> k in marked' || Pending(objs', k)
    requires forall j, k :: j in marked' && j !in marked && Links(d, j, k) ==> k in marked' || Pending(objs', k)
    ensures AllSettled(d, marked', objs')
  {
    hide Pending, Occurs, Resolve;
    forall j | j in marked' && Resolve(d, j).Some?
      ensures Settled(Resolve(d, j).value, marked', objs')
    {
      if j !in marked {
        forall k | Occurs(Resolve(d, j).value, k)
          ensures k in marked' || Pending(objs', k)
        {
          assert Links(d, j, k);
        }
      }
    }
  }

  /** One value of the container being taken apart: it is queued, marked with its object queued, or holds nothing. */
  lemma SettledStep(d: Document, marked: iset<RefKey>, objs: seq<Obj>, whole: Obj, part: Obj, rest: Obj,
                    found: iset<RefKey>, added: seq<Obj>)
    requires AllSettled(d, marked, objs + [whole]) && Splits(whole, part, rest)
    requires forall k :: AtOrIn(part, k) ==> k in marked || k in found || Pending(added, k)
    requires forall j, k :: j in found && Links(d, j, k) ==> Pending(added, k)
    ensures AllSettled(d, marked + found, objs + added + [rest])
  {
    hide Pending, Occurs, AtOrIn, Links, Size, AllSettled;
    var marked' := marked + found;
    forall k
      ensures Pending(objs + [whole], k) ==> k in marked' || Pending(objs + added + [rest], k)
      ensures Pending(added, k) ==> Pending(objs + added + [rest], k)
    {
      PendingJoins(objs, [whole], k);
      PendingOne(whole, k);
      PendingJoins(objs + added, [rest], k);
      PendingJoins(objs, added, k);
      PendingOne(rest, k);
    }
    SettledMoves(d, marked, objs + [whole], marked', objs + added + [rest]);
  }

  /** The container under way can stand last: only what is pending matters, not in which order. */
  lemma SettledReorder(d: Document, marked: iset<RefKey>, a: seq<Obj>, b: seq<Obj>)
    requires AllSettled(d, marked, a + b)
    ensures AllSettled(d, marked, b + a) && TotalSize(b + a) == TotalSize(a + b)
  {
    hide Pending, Occurs, AllSettled, Links;
    forall k
      ensures Pending(a + b, k) <==> Pending(b + a, k)
    {
      PendingJoins(a, b, k);
      PendingJoins(b, a, k);
    }
    SettledMoves(d, marked, a + b, marked, b + a);
    TotalSizeJoins(a, b);
    TotalSizeJoins(b, a);
  }

  /** A pending value gives way to one that holds the same references. */
  lemma SettledExchange(d: Document, marked: iset<RefKey>, objs: seq<Obj>, v: Obj, w: Obj)
    requires AllSettled(d, marked, objs + [v])
    requires forall k :: Occurs(v, k) <==> Occurs(w, k)
    ensures AllSettled(d, marked, objs + [w])
    ensures TotalSize(objs + [w]) + Size(v) == TotalSize(objs + [v]) + Size(w)
  {
    hide Pending, Occurs, AllSettled, Links, Size;
    forall k
      ensures Pending(objs + [v], k) ==> Pending(objs + [w], k)
    {
      PendingJoins(objs, [v], k);
      PendingJoins(objs, [w], k);
      PendingOne(v, k);
      PendingOne(w, k);
    }
    SettledMoves(d, marked, objs + [v], marked, objs + [w]);
    TotalSizeJoins(objs, [v]);
    TotalSizeJoins(objs, [w]);
    TotalSizeOne(v);
    TotalSizeOne(w);
  }

  /** A pending value that holds no reference can go. */
  lemma SettledDrop(d: Document, marked: iset<RefKey>, objs: seq<Obj>, v: Obj)
    requires AllSettled(d, marked, objs + [v])
    requires forall k :: !Occurs(v, k)
    ensures AllSettled(d, marked, objs)
    ensures TotalSize(objs) < TotalSize(objs + [v])
  {
    hide Pending, Occurs, AllSettled, Links, Size;
    forall k
      ensures Pending(objs + [v], k) ==> Pending(objs, k)
    {
      PendingJoins(objs, [v], k);
      PendingOne(v, k);
    }
    SettledMoves(d, marked, objs + [v], marked, objs);
    TotalSizeJoins(objs, [v]);
    TotalSizeOne(v);
    SizeIsPositive(v);
  }

  lemma SizeIsPositive(v: Obj)
    ensures Size(v) > 0
  {
  }

  lemma HoldsNothingUnlessContainer(v: Obj, k: RefKey)
    requires AtOrIn(v, k)
    ensures v == Ref(k.0, k.1) || (IsContainer(v) && Occurs(v, k))
  {
    if !IsContainer(v) {
      HoldsNothing(v);
    }
  }

  lemma SplitsSize(whole: Obj, val: Obj, rest: Obj)
    requires Splits(whole, val, rest)
    ensures Size(whole) == Size(val) + Size(rest)
  {
  }

  /** With nothing pending, everything reachable is marked. */
  lemma SettledHoldsReachable(d: Document, marked: iset<RefKey>, k: RefKey)
    requires AllSettled(d, marked, []) && Reachable(d, k)
    ensures k in marked
  {
    assert forall x :: !Pending([], x);
    var n: nat :| Within(d, n, k);
    ClosedHoldsWithin(d, marked, n, k);
  }

  /** Everything v names is reachable. */
  ghost predicate InGraph(d: Document, v: Obj) {
    forall k :: Occurs(v, k) ==> Reachable(d, k)
  }

  // How much is left to do.

  ghost function KeySize(d: Document, k: RefKey): nat {
    match Resolve(d, k)
    case None => 0
    case Some(v) => Size(v)
  }

  ghost function KeysSize(d: Document, keys: set<RefKey>): nat {
    if keys == {} then 0
    else
      var k :| k in keys;
      KeySize(d, k) + KeysSize(d, keys - {k})
  }

  lemma {:induction false} TakeKey(d: Document, keys: set<RefKey>, k: RefKey)
    requires k in keys
    ensures KeysSize(d, keys) == KeySize(d, k) + KeysSize(d, keys - {k})
    decreases keys
  {
    hide KeySize;
    var j :| j in keys && KeysSize(d, keys) == KeySize(d, j) + KeysSize(d, keys - {j});
    if j != k {
      TakeKey(d, keys - {j}, k);
      TakeKey(d, keys - {k}, j);
      assert keys - {j} - {k} == keys - {k} - {j};
    }
  }

  /** Marking keys leaves less to do, and marking k at least the size of its object less. */
  lemma {:induction false} KeysShrink(d: Document, before: set<RefKey>, after: set<RefKey>)
    requires after <= before
    ensures KeysSize(d, after) <= KeysSize(d, before)
    ensures forall k :: k in before && k !in after ==> KeysSize(d, after) + KeySize(d, k) <= KeysSize(d, before)
    decreases before
  {
    hide KeySize;
    forall k | k in before && k !in after
      ensures KeysSize(d, after) + KeySize(d, k) <= KeysSize(d, before)
    {
      TakeKey(d, before, k);
      KeysShrink(d, before - {k}, after);
    }
    assert before == after || exists k :: k in before && k !in after;
  }

  lemma ReachableIsKey(d: Document, k: RefKey)
    requires Reachable(d, k)
    ensures k in Keys(d)
  {
    var n: nat :| Within(d, n, k);
    if Occurs(d.catalog, k) {
      var path :| OccursAt(d.catalog, path, k);
      OccInIsExact(d.catalog);
      assert Occ(k, path) in OccIn(d.catalog, []);
    } else {
      var j :| Within(d, n - 1, j) && Links(d, j, k);
      var v := d.store[j.0];
      var path :| OccursAt(v, path, k);
      OccInIsExact(v);
      assert Occ(k, path) in OccIn(v, []);
    }
  }
}
