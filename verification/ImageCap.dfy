/** Why the incomplete flag is only conservative once the nesting cap cuts a walk: a form stopped at the cap
    is not in the guard of the walk it was met in, so that walk is reused below the form itself, where the
    plain walk skips the form as a cycle and is complete. */
module ImageCap {
  import opened ImageGraph
  import opened ImageTrace
  import opened ImageMemo
  import opened ImageReach
  import opened ImageMemoWalk
  import opened ImageWalker
  import opened ImageIndex

  /** Forms 0 to 32, each naming only the next; the last names form 1. */
  const LOOP: Store := map i: nat | 0 <= i <= 32 :: Form(XObjects([Ref("X", if i == 32 then 1 else i + 1, 0)]))

  /** A reused walk's incomplete flag is right exactly when the cap did not cut the walk, or the walk enters a form
      with something that cannot be read, or some form it meets at the cap is not above it where it is reused. */
  lemma ReusedFlagIff(s: Store, roots: set<nat>, f: nat, fw: FormWalk, st0: seq<nat>, st: seq<nat>)
    requires MemoSound(s, roots, f, fw, st0)
    requires |st| < MAX_FORM_WALK_DEPTH && f !in st && AllForms(s, st)
    requires forall k :: 0 <= k < |st| ==> Reaches(s, st[k], f) && st[k] !in fw.rw.guard
    requires if fw.rw.capped then fw.depth == |st| else |st| + fw.rw.height < MAX_FORM_WALK_DEPTH
    ensures var t := TraceForm(s, f, st0);
      fw.rw.incomplete == PlainForm(s, Lookup(s, f).resources, f, st).incomplete <==>
      !fw.rw.capped || MeetsUnread(s, t) || MeetsCap(t, st)
  {
    assert st0 + [] == st0 && st + [] == st;
    MoveForm(s, f, st0, st, []);
    assert TraceForm(s, f, st).capKids == TraceForm(s, f, st0).capKids;
    FormIncompleteIff(s, f, st);
    ReuseIsSound(s, roots, f, fw, st0, st, if fw.rw.capped then [f] + fw.rw.guard else []);
  }

  /** The forms above form n on the way down from form 0. */
  function Above(n: nat): seq<nat> {
    seq(n, i => i)
  }

  /** The forms below form n that its capped walk guards, deepest first. */
  function Guard(n: nat): seq<nat>
    requires n <= 31
  {
    seq(31 - n, i => 31 - i)
  }

  /** The walk of form n on the way down from form 0. */
  function LoopFound(n: nat): Found
    requires n <= 31
  {
    Found([], true, 1, 31 - n, true, Guard(n))
  }

  function LoopForms(n: nat): map<nat, Stored>
    requires n <= 32
  {
    map k | n <= k <= 31 :: Stored(LoopFound(k), k)
  }

  lemma LoopGrows(n: nat)
    requires n <= 31
    ensures n < 31 ==> Guard(n) == Guard(n + 1) + [n + 1]
    ensures LoopForms(n) == LoopForms(n + 1)[n := Stored(LoopFound(n), n)] && LoopForms(32) == map[]
    ensures Above(n) + [n] == Above(n + 1) && FormEntries(LOOP, n) == [Ref("X", n + 1, 0)]
  {
  }

  /** Coming down from form 0 each form's walk is cut by the cap and stored at its own depth. */
  lemma {:induction false} LoopIsStored(n: nat)
    requires n <= 31
    ensures var c := MemoForm(LOOP, LOOP[n].resources, n, Above(n), map[]);
      && c == FormWalked(LoopFound(n), Guard(n) + [n], NO_CYCLE, LoopForms(n), 32 - n, c.uses)
      && c.uses <= 33 * (32 - n)
    decreases 32 - n
  {
    LoopGrows(n);
    var w := MemoOwn(LOOP, LOOP[n].resources, n, Above(n), map[]);
    assert w == Walked(LoopFound(n), w.seen, NO_CYCLE, LoopForms(n + 1), 32 - n, w.uses) && w.uses <= 33 * (32 - n) by {
      LoopOwn(n);
    }
    hide MemoOwn, LoopForms;
  }

  lemma {:induction false} LoopOwn(n: nat)
    requires n <= 31
    ensures var w := MemoOwn(LOOP, LOOP[n].resources, n, Above(n), map[]);
      w == Walked(LoopFound(n), w.seen, NO_CYCLE, LoopForms(n + 1), 32 - n, w.uses) && w.uses <= 33 * (32 - n)
    decreases 32 - n, 0
  {
    hide LoopForms, MemoForm;
    LoopGrows(n);
    var st, es := Above(n + 1), FormEntries(LOOP, n);
    var none := Walked(NOTHING, {}, NO_CYCLE, map[], 0, 0);
    assert MemoWalk(LOOP, es, 0, st, map[]) == none;
    assert MemoWalk(LOOP, es, 1, st, map[]) == MemoEntry(LOOP, es[0], st, none.(steps := 1));
    if n < 31 {
      LoopIsStored(n + 1);
    } else {
      LoopGrows(31);
    }
  }

  /** Below form 32 the walk of form n comes round to form 32, which it skips. */
  lemma {:induction false} LoopIsComplete(n: nat)
    requires 1 <= n <= 31
    ensures PlainForm(LOOP, LOOP[n].resources, n, [32] + seq(n - 1, i => i + 1)) ==
      Plain([], if n < 31 then {n + 1} else {}, false)
    decreases 31 - n
  {
    var st, es := [32] + seq(n - 1, i => i + 1), FormEntries(LOOP, n);
    assert es == [Ref("X", n + 1, 0)];
    assert st + [n] == [32] + seq(n, i => i + 1);
    assert (st + [n])[0] == 32;
    assert PlainWalk(LOOP, es, 1, st + [n]) == PlainEntry(LOOP, es[0], st + [n], PlainWalk(LOOP, es, 0, st + [n]));
    if n < 31 {
      LoopIsComplete(n + 1);
    }
  }

  /** A page that names form 0, and a page that names form 32. */
  const LOOP_PAGES: seq<Leaf> := [Leaf(false, None, Private(XObjects([Ref("X", 0, 0)]))),
                                  Leaf(false, None, Private(XObjects([Ref("X", 32, 0)])))]

  /** The first page leaves every form from 0 to 31 stored. */
  lemma FirstPage()
    ensures var w := MemoPages(LOOP, map[], LOOP_PAGES, 1);
      w.groups == [Group(1, [], true)] && w.forms == LoopForms(0) && w.pages == map[] && w.steps == 33 && w.uses <= 1200
  {
    hide LoopForms, MemoForm;
    var es := [Ref("X", 0, 0)];
    assert Above(0) == [];
    LoopIsStored(0);
    var none := Walked(NOTHING, {}, NO_CYCLE, map[], 0, 0);
    assert MemoWalk(LOOP, es, 0, [], map[]) == none;
    assert MemoWalk(LOOP, es, 1, [], map[]) == MemoEntry(LOOP, es[0], [], none.(steps := 1));
    assert MemoPages(LOOP, map[], LOOP_PAGES, 0) == Paged([], map[], map[], 0, 0);
    assert MemoPages(LOOP, map[], LOOP_PAGES, 1) == MemoLeaf(LOOP, map[], LOOP_PAGES[0], Paged([], map[], map[], 0, 0));
  }

  /** Form 32 finds the walk of form 1 stored at the depth it needs, and not guarding form 32. */
  lemma LoopIsReused()
    ensures var c := MemoForm(LOOP, LOOP[32].resources, 32, [], LoopForms(0));
      c.found.images == [] && c.found.incomplete && |c.up| == 32 && c.found.issues == 1 && c.steps == 1 && c.uses <= 100
  {
    var es := FormEntries(LOOP, 32);
    assert es == [Ref("X", 1, 0)] && [] + [32] == [32];
    var none := Walked(NOTHING, {}, NO_CYCLE, LoopForms(0), 0, 0);
    assert MemoWalk(LOOP, es, 0, [32], LoopForms(0)) == none;
    assert MemoWalk(LOOP, es, 1, [32], LoopForms(0)) == MemoEntry(LOOP, es[0], [32], none.(steps := 1));
    assert CanReuse(LoopForms(0)[1], [32]);
    assert MemoForm(LOOP, LOOP[1].resources, 1, [32], LoopForms(0)) ==
      FormWalked(LoopFound(1), [1] + Guard(1), NO_CYCLE, LoopForms(0), 0, 0);
  }

  /** From form 32 the walk comes round to it, and so is complete. */
  lemma RoundIsComplete()
    ensures PlainPage(LOOP, XObjects([Ref("X", 32, 0)])) == Plain([], {32}, false)
  {
    var es, fs := [Ref("X", 32, 0)], FormEntries(LOOP, 32);
    assert fs == [Ref("X", 1, 0)] && [] + [32] == [32] == [32] + seq(0, i => i + 1);
    LoopIsComplete(1);
    assert PlainWalk(LOOP, fs, 0, [32]) == PlainWalk(LOOP, es, 0, []) == Plain([], {}, false);
    assert PlainWalk(LOOP, fs, 1, [32]) == PlainEntry(LOOP, fs[0], [32], Plain([], {}, false));
    assert PlainWalk(LOOP, es, 1, []) == PlainEntry(LOOP, es[0], [], Plain([], {}, false));
  }

  /** The second page's walk reuses that of form 1, and so is not complete. */
  lemma SecondPage()
    ensures var w := MemoPages(LOOP, map[], LOOP_PAGES, 2);
      w.groups == [Group(1, [], true), Group(2, [], true)] && w.steps == 35 && w.uses <= 1400
  {
    hide LoopForms, MemoForm;
    var es := [Ref("X", 32, 0)];
    FirstPage();
    LoopIsReused();
    var before := MemoPages(LOOP, map[], LOOP_PAGES, 1);
    var none := Walked(NOTHING, {}, NO_CYCLE, LoopForms(0), 0, 0);
    assert MemoWalk(LOOP, es, 0, [], LoopForms(0)) == none;
    assert MemoWalk(LOOP, es, 1, [], LoopForms(0)) == MemoEntry(LOOP, es[0], [], none.(steps := 1));
    assert MemoPages(LOOP, map[], LOOP_PAGES, 2) == MemoLeaf(LOOP, map[], LOOP_PAGES[1], before);
  }

  /** The forms pages name directly, so that both are roots. */
  const LOOP_ROOTS: set<nat> := {0, 32}

  const MAX_IMAGE_WALK_ENTRIES := 1_000_000
  const MAX_IMAGE_WALK_USES := 4_000_000

  /** The walker's own run over the two pages: it does not stop, and marks the second page incomplete, though every
      form is walked there. */
  method CappedReuseOverReports() returns (t: Tree)
    ensures GroupAt(t.groups, 2) == Group(2, [], true)
    ensures !PlainPage(LOOP, LOOP_PAGES[1].resources.r).incomplete
  {
    var w := new Walker(LOOP, map[], MAX_IMAGE_WALK_ENTRIES, MAX_IMAGE_WALK_USES, LOOP_ROOTS);
    SecondPage();
    RoundIsComplete();
    t := w.Build(LOOP_PAGES);
  }

  /** The loop has a chain of distinct forms longer than the cap. */
  lemma DeepChain()
    ensures !NoDeepChain(LOOP, {0, 32})
  {
    var st := seq(33, i => i);
    forall i | 0 <= i < 32
      ensures Kid(LOOP, st[i], st[i + 1])
    {
      assert FormEntries(LOOP, i)[0].num == i + 1;
    }
    assert Chain(LOOP, {0, 32}, st) && Distinct(st);
  }
}
