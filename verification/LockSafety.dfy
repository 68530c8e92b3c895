/** No interleaving of calls deadlocks, and no lazy cache ever gives out two values. */
module LockSafety {
  import opened Locks

  function Rank(l: Lock): nat {
    match l
    case Registry => 0
    case DiffOrder | ImageCache(_) | ReverseOnce(_) => 1
    case Pdf(_) => 2
    case _ => 3
  }

  const MAX_RANK: nat := 3

  /** The lock order: upwards in rank, and from one document's pdfMu to another's only under the ordering mutex. */
  ghost predicate MayTake(held: set<Lock>, l: Lock) {
    && l !in held
    && forall h :: h in held ==> Rank(h) < Rank(l) || (h.Pdf? && l.Pdf? && DiffOrder in held)
  }

  /** The locks held once prog has run from held, when it respects the order, releases only what it holds outside
      kept, and its builds end as they begin. */
  ghost function After(held: set<Lock>, kept: set<Lock>, prog: Program): Option<set<Lock>>
    decreases prog
  {
    if prog == [] then Some(held)
    else
      match prog[0]
      case Acquire(l) => if MayTake(held, l) then After(held + {l}, kept, prog[1..]) else None
      case Release(l) => if l in held - kept then After(held - {l}, kept, prog[1..]) else None
      case Get(l, build, ok) =>
        if MayTake(held, l) && After(held + {l}, held + {l}, build) == Some(held + {l})
        then After(held, kept, prog[1..])
        else None
      case Store(l) => if l in held then After(held, kept, prog[1..]) else None
  }

  /** No store outside a build that is under way. */
  ghost predicate StoreFree(prog: Program)
    decreases prog
  {
    forall q :: 0 <= q < |prog| ==> !prog[q].Store? && (prog[q].Get? ==> StoreFree(prog[q].build))
  }

  lemma {:induction false} AfterJoins(held: set<Lock>, kept: set<Lock>, a: Program, b: Program)
    requires After(held, kept, a).Some?
    ensures After(held, kept, a + b) == After(After(held, kept, a).value, kept, b)
    decreases |a|
  {
    if a == [] {
      assert a + b == b;
    } else {
      assert (a + b)[0] == a[0] && (a + b)[1..] == a[1..] + b;
      match a[0]
      case Acquire(l) => AfterJoins(held + {l}, kept, a[1..], b);
      case Release(l) => AfterJoins(held - {l}, kept, a[1..], b);
      case Get(l, build, ok) => AfterJoins(held, kept, a[1..], b);
      case Store(l) => AfterJoins(held, kept, a[1..], b);
    }
  }

  /** A program that ends with the locks it began with, and stores nothing of its own. */
  ghost predicate Balanced(held: set<Lock>, kept: set<Lock>, prog: Program) {
    After(held, kept, prog) == Some(held) && StoreFree(prog)
  }

  lemma BalancedJoin(held: set<Lock>, kept: set<Lock>, a: Program, b: Program)
    requires Balanced(held, kept, a) && Balanced(held, kept, b)
    ensures Balanced(held, kept, a + b)
  {
    AfterJoins(held, kept, a, b);
  }

  lemma {:induction false} BalancedTimes(held: set<Lock>, kept: set<Lock>, n: nat, p: Program)
    requires Balanced(held, kept, p)
    ensures Balanced(held, kept, Times(n, p))
  {
    if n > 0 {
      BalancedTimes(held, kept, n - 1, p);
      BalancedJoin(held, kept, Times(n - 1, p), p);
    }
  }

  lemma TakeFirst(held: set<Lock>, kept: set<Lock>, l: Lock, rest: Program)
    requires MayTake(held, l)
    ensures After(held, kept, [Acquire(l)] + rest) == After(held + {l}, kept, rest)
  {
    assert ([Acquire(l)] + rest)[1..] == rest;
  }

  lemma FreeFirst(held: set<Lock>, kept: set<Lock>, l: Lock, rest: Program)
    requires l in held - kept
    ensures After(held, kept, [Release(l)] + rest) == After(held - {l}, kept, rest)
  {
    assert ([Release(l)] + rest)[1..] == rest;
  }

  lemma BalancedGet(held: set<Lock>, kept: set<Lock>, l: Lock, build: Program, ok: bool)
    requires MayTake(held, l) && Balanced(held + {l}, held + {l}, build)
    ensures Balanced(held, kept, [Get(l, build, ok)])
  {
  }

  lemma BalancedLocked(held: set<Lock>, kept: set<Lock>, d: nat, inner: Program)
    requires MayTake(held, Pdf(d)) && Pdf(d) !in kept && Balanced(held + {Pdf(d)}, kept, inner)
    ensures Balanced(held, kept, Locked(d, inner))
  {
    var l := Pdf(d);
    var tail := [Release(l)];
    AfterJoins(held + {l}, kept, inner, tail);
    assert held + {l} - {l} == held;
    assert Locked(d, inner)[1..] == inner + tail;
  }

  lemma BalancedSection(held: set<Lock>, kept: set<Lock>, l: Lock)
    requires MayTake(held, l) && l !in kept
    ensures Balanced(held, kept, [Acquire(l), Release(l)])
  {
    assert [Acquire(l), Release(l)] == [Acquire(l)] + ([Release(l)] + []);
    TakeFirst(held, kept, l, [Release(l)] + []);
    FreeFirst(held + {l}, kept, l, []);
    assert held + {l} - {l} == held;
  }

  lemma DiffIsBalanced(l: nat, r: nat)
    ensures Balanced({}, {}, DiffBody(l, r))
  {
    var o, pl, pr := DiffOrder, Pdf(l), Pdf(r);
    var last := [Release(pl)] + [];
    FreeFirst({pl}, {}, pl, []);
    assert {pl} - {pl} == {};
    TakeFirst({}, {}, o, DiffBody(l, r)[1..]);
    assert {} + {o} == {o};
    if l != r {
      var free := [Release(o)] + ([Release(pr)] + last);
      FreeFirst({pl, pr}, {}, pr, last);
      FreeFirst({o, pl, pr}, {}, o, [Release(pr)] + last);
      assert {pl, pr} - {pr} == {pl} && {o, pl, pr} - {o} == {pl, pr};
      TakeFirst({o, pl}, {}, pr, free);
      TakeFirst({o}, {}, pl, [Acquire(pr)] + free);
      assert {o, pl} + {pr} == {o, pl, pr} && {o} + {pl} == {o, pl};
      assert DiffBody(l, r) == [Acquire(o)] + ([Acquire(pl)] + ([Acquire(pr)] + free));
    } else {
      FreeFirst({o, pl}, {}, o, last);
      assert {o, pl} - {o} == {pl} && {o} + {pl} == {o, pl};
      TakeFirst({o}, {}, pl, [Release(o)] + last);
      assert DiffBody(l, r) == [Acquire(o)] + ([Acquire(pl)] + ([Release(o)] + last));
    }
  }

  /** Every call of the inspector respects the lock order and ends holding nothing. */
  lemma ScriptIsBalanced(c: Call)
    ensures Balanced({}, {}, Script(c))
  {
    hide After, StoreFree, Balanced, Times, Locked, DiffBody;
    EmptyIsBalanced({}, {});
    BalancedSection({}, {}, Registry);
    match c {
      case Registering =>
      case Reading(d) => ReadingIsBalanced({}, {}, d);
      case Diff(l, r) => DiffIsBalanced(l, r);
      case ImageIndex(d, n, ok) =>
        ImageBuildIsBalanced(d, n);
        assert {} + {ImageCache(d)} == {ImageCache(d)};
        BalancedGet({}, {}, ImageCache(d), ImageBuild(d, n), ok);
      case ReverseRefs(d) =>
        ReadingIsBalanced({ReverseOnce(d)}, {ReverseOnce(d)}, d);
        assert {} + {ReverseOnce(d)} == {ReverseOnce(d)};
        BalancedGet({}, {}, ReverseOnce(d), Locked(d, []), true);
        ReadingIsBalanced({}, {}, d);
        BalancedJoin({}, {}, [Get(ReverseOnce(d), Locked(d, []), true)], Locked(d, []));
      case PageIndex(d) => PageTreeIsBalanced({}, {}, d);
      case ObjectIndex(d, ok) => CacheIsBalanced(d, ObjectCache(d), ok);
      case XRefTable(d, ok) => CacheIsBalanced(d, XRefCache(d), ok);
      case ContentStream(d) => StreamIsBalanced(d);
      case PageContents(d, n) =>
        PageTreeIsBalanced({}, {}, d);
        StreamIsBalanced(d);
        BalancedJoin({}, {}, GET_DOCUMENT, Locked(d, StreamSection(d)));
        BalancedTimes({}, {}, n, GET_DOCUMENT + Locked(d, StreamSection(d)));
        BalancedJoin({}, {}, Locked(d, PageTree(d)), Times(n, GET_DOCUMENT + Locked(d, StreamSection(d))));
      case Structure(d, n) =>
        PageTreeIsBalanced({}, {}, d);
        StreamIsBalanced(d);
        BalancedTimes({}, {}, n, Locked(d, StreamSection(d)));
        BalancedJoin({}, {}, Locked(d, PageTree(d)), Times(n, Locked(d, StreamSection(d))));
      case PlainTextOf(d, ok) =>
        EmptyIsBalanced({PlainText(d)}, {PlainText(d)});
        assert {} + {PlainText(d)} == {PlainText(d)};
        BalancedGet({}, {}, PlainText(d), [], ok);
    }
    BalancedJoin({}, {}, GET_DOCUMENT, Body(c));
  }

  lemma EmptyIsBalanced(held: set<Lock>, kept: set<Lock>)
    ensures Balanced(held, kept, [])
  {
  }

  lemma ReadingIsBalanced(held: set<Lock>, kept: set<Lock>, d: nat)
    requires MayTake(held, Pdf(d)) && Pdf(d) !in kept
    ensures Balanced(held, kept, Locked(d, []))
  {
    EmptyIsBalanced(held + {Pdf(d)}, kept);
    BalancedLocked(held, kept, d, []);
  }

  lemma PageTreeIsBalanced(held: set<Lock>, kept: set<Lock>, d: nat)
    requires MayTake(held, Pdf(d)) && Pdf(d) !in kept && PageCache(d) !in held
    requires forall l :: l in held ==> Rank(l) < Rank(PageCache(d))
    ensures Balanced(held, kept, Locked(d, PageTree(d)))
  {
    var inside := held + {Pdf(d)};
    EmptyIsBalanced(inside + {PageCache(d)}, inside + {PageCache(d)});
    BalancedGet(inside, kept, PageCache(d), [], true);
    BalancedLocked(held, kept, d, PageTree(d));
  }

  lemma CacheIsBalanced(d: nat, l: Lock, ok: bool)
    requires Rank(l) == 3
    ensures Balanced({}, {}, Locked(d, [Get(l, [], ok)]))
  {
    var inside := {} + {Pdf(d)};
    EmptyIsBalanced(inside + {l}, inside + {l});
    BalancedGet(inside, {}, l, [], ok);
    BalancedLocked({}, {}, d, [Get(l, [], ok)]);
  }

  lemma StreamIsBalanced(d: nat)
    ensures Balanced({}, {}, Locked(d, StreamSection(d)))
  {
    BalancedSection({} + {Pdf(d)}, {}, StreamMu(d));
    BalancedLocked({}, {}, d, StreamSection(d));
  }

  lemma ImageBuildIsBalanced(d: nat, n: nat)
    ensures Balanced({ImageCache(d)}, {ImageCache(d)}, ImageBuild(d, n))
  {
    var held := {ImageCache(d)};
    PageTreeIsBalanced(held, held, d);
    ReadingIsBalanced(held, held, d);
    BalancedTimes(held, held, n, Locked(d, []));
    BalancedJoin(held, held, Locked(d, PageTree(d)), Times(n, Locked(d, [])));
  }

  // What every step keeps.

  ghost function HeldBy(s: State, i: nat): set<Lock> {
    set l | l in s.holder && s.holder[l] == i
  }

  /** A store that is due comes before its lock is released, once, and finds nothing stored. */
  ghost predicate StoresOnce(s: State, i: nat, prog: Program) {
    forall p :: 0 <= p < |prog| && prog[p].Store? ==>
      && prog[p].lock in HeldBy(s, i)
      && prog[p].lock !in s.stored
      && (forall q :: 0 <= q < p ==> prog[q] != Release(prog[p].lock) && prog[q] != Store(prog[p].lock))
  }

  ghost predicate BuildsStoreFree(prog: Program) {
    forall p :: 0 <= p < |prog| && prog[p].Get? ==> StoreFree(prog[p].build)
  }

  ghost predicate ThreadHolds(s: State, i: nat)
    requires i < |s.progs|
  {
    && After(HeldBy(s, i), {}, s.progs[i]) == Some({})
    && StoresOnce(s, i, s.progs[i])
    && BuildsStoreFree(s.progs[i])
  }

  /** Every call that was given a cache's value was given the one stored. */
  ghost predicate OneValue(s: State) {
    forall k :: 0 <= k < |s.given| ==> s.given[k].0 in s.stored && s.stored[s.given[k].0] == s.given[k].1
  }

  ghost predicate Inv(s: State) {
    && (forall i :: 0 <= i < |s.progs| ==> ThreadHolds(s, i))
    && (forall l :: l in s.holder ==> s.holder[l] < |s.progs|)
    && OneValue(s)
  }

  /** A thread is left alone by steps that neither take nor free its locks nor store for it. */
  lemma OtherHolds(s: State, t: State, i: nat)
    requires i < |s.progs| && i < |t.progs| && ThreadHolds(s, i) && t.progs[i] == s.progs[i]
    requires HeldBy(t, i) == HeldBy(s, i)
    requires forall l :: l in t.stored && l !in s.stored ==> l !in HeldBy(s, i)
    ensures ThreadHolds(t, i)
  {
  }

  lemma BeginKeeps(s: State, c: Call)
    requires Inv(s)
    ensures Inv(Step(s, Begin(c)).value)
  {
    hide After, StoreFree, Script;
    var t := Step(s, Begin(c)).value;
    var n := |s.progs|;
    forall i | 0 <= i < n
      ensures ThreadHolds(t, i)
    {
      assert ThreadHolds(s, i);
      assert HeldBy(t, i) == HeldBy(s, i);
    }
    ScriptIsBalanced(c);
    assert HeldBy(t, n) == {};
    BalancedStarts(t, n);
  }

  lemma BalancedStarts(t: State, n: nat)
    requires n < |t.progs| && HeldBy(t, n) == {} && Balanced({}, {}, t.progs[n])
    ensures ThreadHolds(t, n)
  {
  }

  lemma RunKeeps(s: State, i: nat)
    requires Inv(s) && i < |s.progs| && StepThread(s, i).Some?
    ensures Inv(StepThread(s, i).value)
  {
    hide After, StoreFree, StoresOnce, BuildsStoreFree;
    var t := StepThread(s, i).value;
    assert ThreadHolds(s, i);
    match s.progs[i][0] {
      case Acquire(l) => AcquireKeeps(s, i, l);
      case Release(l) => ReleaseKeeps(s, i, l);
      case Get(l, build, ok) => GetKeeps(s, i, l, build, ok);
      case Store(l) => StoreKeeps(s, i, l);
    }
    forall j | 0 <= j < |t.progs| && j != i
      ensures ThreadHolds(t, j)
    {
      assert ThreadHolds(s, j);
      OthersHeld(s, t, i, j);
      OtherHolds(s, t, j);
    }
  }

  /** What a step of thread i does to the locks of another. */
  lemma OthersHeld(s: State, t: State, i: nat, j: nat)
    requires Inv(s) && i < |s.progs| && j < |s.progs| && i != j && StepThread(s, i) == Some(t)
    ensures HeldBy(t, j) == HeldBy(s, j)
    ensures forall l :: l in t.stored && l !in s.stored ==> l !in HeldBy(s, j)
  {
    assert ThreadHolds(s, i);
    var a := s.progs[i][0];
    if a.Release? || a.Store? {
      assert a.lock in HeldBy(s, i);
    }
  }

  lemma AcquireKeeps(s: State, i: nat, l: Lock)
    requires Inv(s) && i < |s.progs| && StepThread(s, i).Some? && s.progs[i][0] == Acquire(l)
    ensures ThreadHolds(StepThread(s, i).value, i) && OneValue(StepThread(s, i).value)
  {
    hide StoreFree;
    var t := StepThread(s, i).value;
    assert ThreadHolds(s, i);
    assert HeldBy(t, i) == HeldBy(s, i) + {l};
    TailStoresOnce(s, t, i);
  }

  /** What holds of the stores due holds of those after the first action. */
  lemma TailStoresOnce(s: State, t: State, i: nat)
    requires i < |s.progs| && ThreadHolds(s, i) && s.progs[i] != []
    requires t.stored == s.stored && HeldBy(s, i) <= HeldBy(t, i)
    ensures StoresOnce(t, i, s.progs[i][1..]) && BuildsStoreFree(s.progs[i][1..])
  {
    var rest := s.progs[i][1..];
    forall p | 0 <= p < |rest|
      ensures rest[p] == s.progs[i][p + 1]
    {
    }
  }

  lemma ReleaseKeeps(s: State, i: nat, l: Lock)
    requires Inv(s) && i < |s.progs| && StepThread(s, i).Some? && s.progs[i][0] == Release(l)
    ensures ThreadHolds(StepThread(s, i).value, i) && OneValue(StepThread(s, i).value)
  {
    hide StoreFree;
    var t := StepThread(s, i).value;
    assert ThreadHolds(s, i);
    assert HeldBy(t, i) == HeldBy(s, i) - {l};
    TailStoresOnce(s, s, i);
    var rest := s.progs[i][1..];
    forall p | 0 <= p < |rest| && rest[p].Store?
      ensures rest[p].lock != l
    {
      assert s.progs[i][p + 1] == rest[p];
    }
  }

  lemma StoreKeeps(s: State, i: nat, l: Lock)
    requires Inv(s) && i < |s.progs| && StepThread(s, i).Some? && s.progs[i][0] == Store(l)
    ensures ThreadHolds(StepThread(s, i).value, i) && OneValue(StepThread(s, i).value)
  {
    hide StoreFree;
    var t := StepThread(s, i).value;
    assert ThreadHolds(s, i);
    assert HeldBy(t, i) == HeldBy(s, i);
    TailStoresOnce(s, s, i);
    var rest := s.progs[i][1..];
    forall p | 0 <= p < |rest| && rest[p].Store?
      ensures rest[p].lock != l
    {
      assert s.progs[i][p + 1] == rest[p];
    }
  }

  lemma {:induction false} AfterLessKept(held: set<Lock>, kept: set<Lock>, p: Program)
    requires After(held, kept, p).Some?
    ensures After(held, {}, p) == After(held, kept, p)
    ensures forall q :: 0 <= q < |p| && p[q].Release? ==> p[q].lock !in kept
    decreases |p|
  {
    if p != [] {
      match p[0] {
        case Acquire(l) => AfterLessKept(held + {l}, kept, p[1..]);
        case Release(l) => AfterLessKept(held - {l}, kept, p[1..]);
        case Get(l, build, ok) => AfterLessKept(held, kept, p[1..]);
        case Store(l) => AfterLessKept(held, kept, p[1..]);
      }
      forall q | 0 <= q < |p| && p[q].Release?
        ensures p[q].lock !in kept
      {
        assert q > 0 ==> p[q] == p[1..][q - 1];
      }
    }
  }

  /** The end of a cache read: store the value if there is a new one, and release the mutex. */
  function Ending(l: Lock, store: bool): Program {
    (if store then [Store(l)] else []) + [Release(l)]
  }

  lemma GetKeeps(s: State, i: nat, l: Lock, build: Program, ok: bool)
    requires Inv(s) && i < |s.progs| && StepThread(s, i).Some? && s.progs[i][0] == Get(l, build, ok)
    ensures ThreadHolds(StepThread(s, i).value, i) && OneValue(StepThread(s, i).value)
  {
    hide StoreFree, After, StoresOnce, BuildsStoreFree, OneValue;
    var t := StepThread(s, i).value;
    assert ThreadHolds(s, i);
    var held := HeldBy(s, i);
    var rest := s.progs[i][1..];
    assert HeldBy(t, i) == held + {l};
    GetMeans(held, l, build, ok, rest, s.progs[i]);
    assert BuildsStoreFree(s.progs[i]) && s.progs[i][0].Get?;
    GetBuild(s.progs[i]);
    assert OneValue(t) by {
      GivenKeeps(s, t, l);
    }
    TailStoresOnce(s, s, i);
    var first := if l in s.stored then [] else build;
    var store := l !in s.stored && ok;
    assert t.progs[i] == first + Ending(l, store) + rest;
    if l in s.stored {
      EmptyIsBalanced(held + {l}, held + {l});
    }
    ExpandedAfter(held, l, first, store, rest);
    ExpandedStores(s, t, i, held, l, first, store, rest);
  }

  lemma GetBuild(p: Program)
    requires BuildsStoreFree(p) && p != [] && p[0].Get?
    ensures StoreFree(p[0].build)
  {
  }

  lemma GivenKeeps(s: State, t: State, l: Lock)
    requires OneValue(s) && t.stored == s.stored
    requires t.given == s.given || (l in s.stored && t.given == s.given + [(l, s.stored[l])])
    ensures OneValue(t)
  {
  }

  lemma GetMeans(held: set<Lock>, l: Lock, build: Program, ok: bool, rest: Program, p: Program)
    requires p != [] && p[0] == Get(l, build, ok) && rest == p[1..] && After(held, {}, p) == Some({})
    ensures MayTake(held, l) && After(held + {l}, held + {l}, build) == Some(held + {l})
    ensures After(held, {}, rest) == Some({})
  {
  }

  lemma ExpandedAfter(held: set<Lock>, l: Lock, first: Program, store: bool, rest: Program)
    requires l !in held && After(held + {l}, held + {l}, first) == Some(held + {l})
    requires After(held, {}, rest) == Some({})
    ensures After(held + {l}, {}, first + Ending(l, store) + rest) == Some({})
  {
    AfterLessKept(held + {l}, held + {l}, first);
    assert held + {l} - {l} == held;
    assert ([Release(l)] + rest)[1..] == rest;
    assert After(held + {l}, {}, [Release(l)] + rest) == Some({});
    if store {
      assert ([Store(l)] + ([Release(l)] + rest))[1..] == [Release(l)] + rest;
      assert Ending(l, store) + rest == [Store(l)] + ([Release(l)] + rest);
    } else {
      assert Ending(l, store) + rest == [Release(l)] + rest;
    }
    AfterJoins(held + {l}, {}, first, Ending(l, store) + rest);
    assert first + Ending(l, store) + rest == first + (Ending(l, store) + rest);
  }

  lemma ExpandedStores(s: State, t: State, i: nat, held: set<Lock>, l: Lock, first: Program, store: bool, rest: Program)
    requires StoresOnce(s, i, rest) && BuildsStoreFree(rest) && held == HeldBy(s, i) && HeldBy(t, i) == held + {l}
    requires t.stored == s.stored && l !in held && (store ==> l !in s.stored)
    requires After(held + {l}, held + {l}, first) == Some(held + {l}) && StoreFree(first)
    ensures StoresOnce(t, i, first + Ending(l, store) + rest) && BuildsStoreFree(first + Ending(l, store) + rest)
  {
    hide After;
    AfterLessKept(held + {l}, held + {l}, first);
    var prog := first + Ending(l, store) + rest;
    var k := |first| + |Ending(l, store)|;
    forall p | 0 <= p < |prog| && prog[p].Store?
      ensures prog[p].lock in HeldBy(t, i) && prog[p].lock !in t.stored
      ensures forall q :: 0 <= q < p ==> prog[q] != Release(prog[p].lock) && prog[q] != Store(prog[p].lock)
    {
      assert p >= |first|;
      assert forall q :: 0 <= q < |first| ==> prog[q] == first[q];
      assert forall q :: |first| <= q < k ==> prog[q] == Ending(l, store)[q - |first|];
      if p >= k {
        assert prog[p] == rest[p - k];
        assert forall q :: k <= q < |prog| ==> prog[q] == rest[q - k];
      }
    }
  }

  lemma {:induction false} RunIsSafe(run: seq<Event>)
    requires Execute(Init(), run).Some?
    ensures Inv(Execute(Init(), run).value)
    decreases |run|
  {
    hide Inv, Script;
    if run == [] {
      InitIsSafe();
    } else {
      var before := run[..|run| - 1];
      RunIsSafe(before);
      var s := Execute(Init(), before).value;
      match run[|run| - 1] {
        case Begin(c) => BeginKeeps(s, c);
        case Run(i) => RunKeeps(s, i);
      }
    }
  }

  lemma InitIsSafe()
    ensures Inv(Init())
  {
  }

  // No deadlock.

  /** Thread i waits for a lock that is held. */
  ghost predicate Waits(s: State, i: nat) {
    && i < |s.progs| && s.progs[i] != [] && (s.progs[i][0].Acquire? || s.progs[i][0].Get?)
    && s.progs[i][0].lock in s.holder
  }

  lemma WaitsOrRuns(s: State, i: nat)
    requires i < |s.progs| && s.progs[i] != []
    ensures Waits(s, i) <==> StepThread(s, i).None?
  {
  }

  /** A thread holding a lock is not at its end. */
  lemma HolderIsUnfinished(s: State, l: Lock)
    requires Inv(s) && l in s.holder
    ensures s.holder[l] < |s.progs| && s.progs[s.holder[l]] != []
  {
    assert ThreadHolds(s, s.holder[l]);
    assert l in HeldBy(s, s.holder[l]);
  }

  /** What a waiting thread holds is below what it waits for, or both are documents' pdfMu and it holds the
      ordering mutex. */
  lemma WaitsUpwards(s: State, i: nat, h: Lock)
    requires Inv(s) && Waits(s, i) && h in s.holder && s.holder[h] == i
    ensures var l := s.progs[i][0].lock;
      && l !in HeldBy(s, i)
      && (Rank(h) < Rank(l) || (h.Pdf? && l.Pdf? && DiffOrder in HeldBy(s, i)))
  {
    assert ThreadHolds(s, i);
    assert h in HeldBy(s, i);
  }

  /** From any unfinished call, following who holds what it waits for leads to one that can move. */
  lemma {:induction false} FollowHolders(s: State, i: nat) returns (j: nat)
    requires Inv(s) && i < |s.progs| && s.progs[i] != []
    ensures j < |s.progs| && StepThread(s, j).Some?
    decreases if Waits(s, i) then MAX_RANK - Rank(s.progs[i][0].lock) + 1 else 0
  {
    hide Inv, StepThread;
    WaitsOrRuns(s, i);
    if !Waits(s, i) {
      return i;
    }
    var l := s.progs[i][0].lock;
    var h := s.holder[l];
    HolderIsUnfinished(s, l);
    WaitsOrRuns(s, h);
    if !Waits(s, h) {
      return h;
    }
    WaitsUpwards(s, h, l);
    var l2 := s.progs[h][0].lock;
    if Rank(l) < Rank(l2) {
      j := FollowHolders(s, h);
    } else {
      var h2 := s.holder[l2];
      HolderIsUnfinished(s, l2);
      WaitsOrRuns(s, h2);
      if !Waits(s, h2) {
        return h2;
      }
      WaitsUpwards(s, h2, l2);
      j := FollowHolders(s, h2);
    }
  }

  /** Deadlock freedom: in every state that any calls can reach, some unfinished call can move. */
  lemma NoDeadlock(run: seq<Event>, s: State, i: nat) returns (j: nat)
    requires Execute(Init(), run) == Some(s) && i < |s.progs| && s.progs[i] != []
    ensures Step(s, Run(j)).Some?
  {
    RunIsSafe(run);
    j := FollowHolders(s, i);
  }

  /** Calls that read the same cache are given the same value, however they interleave. */
  lemma CachesGiveOneValue(run: seq<Event>, s: State, a: nat, b: nat)
    requires Execute(Init(), run) == Some(s) && a < |s.given| && b < |s.given| && s.given[a].0 == s.given[b].0
    ensures s.given[a].1 == s.given[b].1
  {
    RunIsSafe(run);
  }

  // Every call ends.

  ghost function Size(p: Program): nat
    decreases p
  {
    if p == [] then 0
    else (if p[0].Get? then 3 + Size(p[0].build) else 1) + Size(p[1..])
  }

  ghost function Work(progs: seq<Program>): nat {
    if progs == [] then 0 else Size(progs[|progs| - 1]) + Work(progs[..|progs| - 1])
  }

  lemma {:induction false} SizeJoins(a: Program, b: Program)
    ensures Size(a + b) == Size(a) + Size(b)
    decreases |a|
  {
    if a == [] {
      assert a + b == b;
    } else {
      assert (a + b)[1..] == a[1..] + b;
      SizeJoins(a[1..], b);
    }
  }

  lemma {:induction false} WorkOfOne(progs: seq<Program>, i: nat, p: Program)
    requires i < |progs|
    ensures Work(progs[i := p]) + Size(progs[i]) == Work(progs) + Size(p)
    decreases |progs|
  {
    hide Size;
    var n := |progs| - 1;
    if i == n {
      assert progs[i := p][..n] == progs[..n];
    } else {
      assert progs[i := p][..n] == progs[..n][i := p];
      WorkOfOne(progs[..n], i, p);
    }
  }

  lemma StepShrinks(s: State, i: nat)
    requires i < |s.progs| && StepThread(s, i).Some?
    ensures Size(StepThread(s, i).value.progs[i]) < Size(s.progs[i])
  {
    var rest := s.progs[i][1..];
    match s.progs[i][0]
    case Get(l, build, ok) =>
      SizeJoins(build, if ok then [Store(l)] else []);
      SizeJoins(build + (if ok then [Store(l)] else []), [Release(l)]);
      SizeJoins(build + (if ok then [Store(l)] else []) + [Release(l)], rest);
      SizeJoins([Release(l)], rest);
      assert [Store(l)][1..] == [] && [Release(l)][1..] == [];
    case _ =>
  }

  /** Each step of a call leaves less to do, so calls can move only as often as their programs are long, and with
      no deadlock all of them end. */
  lemma WorkFalls(s: State, i: nat)
    requires Step(s, Run(i)).Some?
    ensures Work(Step(s, Run(i)).value.progs) < Work(s.progs)
  {
    hide Size;
    var t := StepThread(s, i).value;
    StepShrinks(s, i);
    OnlyOneMoves(s, i);
    WorkOfOne(s.progs, i, t.progs[i]);
  }

  lemma OnlyOneMoves(s: State, i: nat)
    requires i < |s.progs| && StepThread(s, i).Some?
    ensures StepThread(s, i).value.progs == s.progs[i := StepThread(s, i).value.progs[i]]
  {
  }

  /** Calls already begun can all run to their end from any reachable state. */
  lemma {:induction false} AllCanFinish(run: seq<Event>, s: State) returns (more: seq<Event>, t: State)
    requires Execute(Init(), run) == Some(s)
    ensures Execute(Init(), run + more) == Some(t)
    ensures |t.progs| == |s.progs| && forall i :: 0 <= i < |t.progs| ==> t.progs[i] == []
    decreases Work(s.progs)
  {
    hide Work, Size, StepThread;
    if i :| 0 <= i < |s.progs| && s.progs[i] != [] {
      var j := NoDeadlock(run, s, i);
      WorkFalls(s, j);
      OnlyOneMoves(s, j);
      var next := Step(s, Run(j)).value;
      assert (run + [Run(j)])[..|run|] == run;
      more, t := AllCanFinish(run + [Run(j)], next);
      assert run + [Run(j)] + more == run + ([Run(j)] + more);
      more := [Run(j)] + more;
    } else {
      more, t := [], s;
      assert run + [] == run;
    }
  }

  // Why diffs take the ordering mutex.

  function Unordered(left: nat, right: nat): Program {
    [Acquire(Pdf(left)), Acquire(Pdf(right)), Release(Pdf(right)), Release(Pdf(left))]
  }

  /** Without it, two diffs of the same documents in opposite order can each hold what the other waits for. */
  lemma UnorderedDiffsDeadlock()
    ensures exists s0, s1, s2: State ::
      && s0 == State([Unordered(0, 1), Unordered(1, 0)], map[], map[], [])
      && Step(s0, Run(0)) == Some(s1) && Step(s1, Run(1)) == Some(s2)
      && s2.progs[0] != [] && s2.progs[1] != [] && forall j: nat :: Step(s2, Run(j)).None?
  {
    var s0 := State([Unordered(0, 1), Unordered(1, 0)], map[], map[], []);
    var s1 := Step(s0, Run(0)).value;
    var s2 := Step(s1, Run(1)).value;
    assert s2.progs[0] == Unordered(0, 1)[1..] && s2.progs[1] == Unordered(1, 0)[1..];
    assert Step(s2, Run(0)).None? && Step(s2, Run(1)).None?;
    assert forall j: nat :: Step(s2, Run(j)).None?;
  }
}
