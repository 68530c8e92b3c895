/** How one entry of an /XObject dictionary extends a walk: facts about the plain walk, and for each kind
    of entry the lemma that a sound walk of n entries becomes a sound walk of n + 1. */
module ImageSteps {
  import opened ImageGraph
  import opened ImageTrace
  import opened ImageMemo

  ghost predicate Lists(images: seq<Use>, x: nat) {
    exists i :: 0 <= i < |images| && images[i].num == x
  }

  ghost predicate EachOnce(images: seq<Use>) {
    forall i, j :: 0 <= i < j < |images| ==> images[i].num != images[j].num
  }

  ghost predicate AllImages(s: Store, images: seq<Use>) {
    forall i :: 0 <= i < |images| ==> Lookup(s, images[i].num).Image?
  }

  /** A plain walk lists only images, each once, and has reached exactly those and forms of its entries. */
  ghost predicate WellListed(s: Store, es: seq<Entry>, n: nat, w: Plain)
    requires n <= |es|
  {
    && AllImages(s, w.images) && EachOnce(w.images)
    && (forall i :: 0 <= i < |w.images| ==> w.images[i].num in w.seen)
    && (forall x :: x in w.seen ==>
          (Lookup(s, x).Image? && Lists(w.images, x)) || NamedBefore(s, es, n, x))
  }

  ghost predicate NamedBefore(s: Store, es: seq<Entry>, n: nat, x: nat)
    requires n <= |es|
  {
    exists j :: 0 <= j < n && FormRef(s, es[j]) && es[j].num == x
  }

  lemma {:induction false} MergeIsWellListed(s: Store, es: seq<Entry>, n: nat, key: string, images: seq<Use>, m: nat,
                                             acc: Plain)
    requires n <= |es| && m <= |images| && WellListed(s, es, n, acc) && AllImages(s, images)
    ensures WellListed(s, es, n, Merge(key, images, m, acc))
    ensures Merge(key, images, m, acc).incomplete == acc.incomplete
    ensures acc.seen <= Merge(key, images, m, acc).seen
    ensures forall i :: 0 <= i < m ==> images[i].num in Merge(key, images, m, acc).seen
  {
    if m > 0 {
      MergeIsWellListed(s, es, n, key, images, m - 1, acc);
      var a, u := Merge(key, images, m - 1, acc), images[m - 1];
      if u.num !in a.seen {
        var b := Merge(key, images, m, acc);
        assert b.images == a.images + [Use(u.num, u.gen, [key] + u.path)];
        assert b.images[|a.images|].num == u.num;
        forall x | Lists(a.images, x)
          ensures Lists(b.images, x)
        {
          var i :| 0 <= i < |a.images| && a.images[i].num == x;
          assert b.images[i].num == x;
        }
      }
    }
  }

  lemma {:induction false} PlainIsWellListed(s: Store, es: seq<Entry>, n: nat, st: seq<nat>)
    requires n <= |es| && |st| <= MAX_FORM_WALK_DEPTH
    ensures WellListed(s, es, n, PlainWalk(s, es, n, st))
    decreases MAX_FORM_WALK_DEPTH - |st|, n
  {
    if n > 0 {
      var e, a := es[n - 1], PlainWalk(s, es, n - 1, st);
      PlainIsWellListed(s, es, n - 1, st);
      forall x | NamedBefore(s, es, n - 1, x)
        ensures NamedBefore(s, es, n, x)
      {
      }
      if e.Ref? && e.num !in a.seen && e.num !in st {
        if ImageRef(s, e) {
          ImageIsWellListed(s, es, n, e, a);
        } else if FormRef(s, e) && |st| < MAX_FORM_WALK_DEPTH {
          PlainFormListsImages(s, e.num, st);
          var c := PlainForm(s, Lookup(s, e.num).resources, e.num, st);
          assert NamedBefore(s, es, n, e.num);
          MergeIsWellListed(s, es, n, e.key, c.images, |c.images|,
                            Plain(a.images, a.seen + {e.num}, a.incomplete || c.incomplete));
        }
      }
    }
  }

  lemma ImageIsWellListed(s: Store, es: seq<Entry>, n: nat, e: Entry, a: Plain)
    requires n <= |es| && WellListed(s, es, n, a) && ImageRef(s, e) && e.num !in a.seen
    ensures WellListed(s, es, n, Plain(a.images + [Use(e.num, e.gen, [e.key])], a.seen + {e.num}, a.incomplete))
  {
    var images := a.images + [Use(e.num, e.gen, [e.key])];
    assert images[|a.images|].num == e.num;
    forall x | Lists(a.images, x)
      ensures Lists(images, x)
    {
      var i :| 0 <= i < |a.images| && a.images[i].num == x;
      assert images[i].num == x;
    }
  }

  lemma {:induction false} PlainFormListsImages(s: Store, f: nat, st: seq<nat>)
    requires Lookup(s, f).Form? && |st| < MAX_FORM_WALK_DEPTH
    ensures var w := PlainForm(s, Lookup(s, f).resources, f, st); AllImages(s, w.images) && EachOnce(w.images)
    decreases MAX_FORM_WALK_DEPTH - |st| - 1, |FormEntries(s, f)| + 1
  {
    PlainIsWellListed(s, FormEntries(s, f), |FormEntries(s, f)|, st + [f]);
  }

  /** The entries es are those of a page (st empty, forms in roots) or of the last form of a chain st. */
  ghost predicate Below(s: Store, roots: set<nat>, es: seq<Entry>, st: seq<nat>) {
    && Chain(s, roots, st) && Distinct(st) && AllForms(s, st)
    && forall j :: 0 <= j < |es| && FormRef(s, es[j]) ==>
         if st == [] then es[j].num in roots else Kid(s, st[|st| - 1], es[j].num)
  }

  lemma BelowKid(s: Store, roots: set<nat>, es: seq<Entry>, st: seq<nat>, j: nat)
    requires Below(s, roots, es, st) && j < |es| && FormRef(s, es[j]) && es[j].num !in st
    ensures Below(s, roots, FormEntries(s, es[j].num), st + [es[j].num]) && AllForms(s, st)
    ensures forall k :: 0 <= k < |st| ==> Reaches(s, st[k], es[j].num)
  {
    var f := es[j].num;
    forall k | 0 <= k < |st|
      ensures Reaches(s, st[k], f)
    {
      ChainReaches(s, roots, st, k, f);
    }
    var st1 := st + [f];
    assert forall i :: 0 <= i < |st| ==> st1[i] == st[i];
    assert Chain(s, roots, st1);
    var fs := FormEntries(s, f);
    forall i | 0 <= i < |fs| && FormRef(s, fs[i])
      ensures Kid(s, st1[|st1| - 1], fs[i].num)
    {
      assert st1[|st1| - 1] == f;
      assert Names(s, fs, fs[i].num);
    }
  }

  lemma JoinCovers(s: Store, t1: Trace, t2: Trace, st: seq<nat>, capped1: bool, low1: nat, guard1: seq<nat>,
                   capped2: bool, low2: nat, guard2: seq<nat>)
    requires Covers(s, t1, st, capped1, low1, guard1) && Covers(s, t2, st, capped2, low2, guard2)
    ensures Covers(s, Join(t1, t2), st, capped1 || capped2, Min(low1, low2), guard1 + guard2)
  {
    var low := Min(low1, low2);
    forall c | c in t1.capKids + t2.capKids
      ensures capped1 || capped2 || AtOrAbove(st, c, low)
    {
      if c in t1.capKids && !capped1 {
        assert AtOrAbove(st, c, low1);
      } else if c in t2.capKids && !capped2 {
        assert AtOrAbove(st, c, low2);
      }
    }
  }

  ghost predicate AllSeen(images: seq<Use>, seen: set<nat>) {
    forall i :: 0 <= i < |images| ==> images[i].num in seen
  }

  lemma SoundListsOnce(s: Store, roots: set<nat>, es: seq<Entry>, n: nat, st: seq<nat>, rw: ResWalk, low: nat)
    requires n <= |es| && |st| <= MAX_FORM_WALK_DEPTH && Sound(s, roots, es, n, st, rw, low)
    ensures EachOnce(rw.images) && AllSeen(rw.images, PlainWalk(s, es, n, st).seen)
  {
    PlainIsWellListed(s, es, n, st);
  }

  /** The walk of no entries. */
  lemma StartIsSound(s: Store, roots: set<nat>, es: seq<Entry>, st: seq<nat>)
    requires |st| <= MAX_FORM_WALK_DEPTH
    ensures Sound(s, roots, es, 0, st, EMPTY_WALK, NO_CYCLE) && PlainWalk(s, es, 0, st).seen == {}
  {
  }

  /** An entry whose object was already reached adds nothing. */
  lemma StepSeen(s: Store, roots: set<nat>, es: seq<Entry>, n: nat, st: seq<nat>, rw: ResWalk, low: nat)
    requires n < |es| && |st| <= MAX_FORM_WALK_DEPTH && Sound(s, roots, es, n, st, rw, low)
    requires es[n].Ref? && es[n].num in PlainWalk(s, es, n, st).seen
    ensures Sound(s, roots, es, n + 1, st, rw, low)
    ensures PlainWalk(s, es, n + 1, st).seen == PlainWalk(s, es, n, st).seen
  {
    PlainIsWellListed(s, es, n, st);
    if FormRef(s, es[n]) {
      var j :| 0 <= j < n && FormRef(s, es[j]) && es[j].num == es[n].num;
      TraceHolds(s, es, n, st, j);
      assert TraceEntry(s, es[n], st) == TraceEntry(s, es[j], st);
    }
  }

  ghost predicate Within(a: Trace, b: Trace) {
    a.entered <= b.entered && a.skips <= b.skips && a.capKids <= b.capKids && a.height <= b.height
  }

  lemma {:induction false} TraceHolds(s: Store, es: seq<Entry>, n: nat, st: seq<nat>, j: nat)
    requires j < n <= |es| && |st| <= MAX_FORM_WALK_DEPTH
    ensures Within(TraceEntry(s, es[j], st), TraceWalk(s, es, n, st))
    decreases n
  {
    if j < n - 1 {
      TraceHolds(s, es, n - 1, st, j);
    }
  }

  /** A direct value, or a reference to something that is neither an image nor a form, adds nothing. */
  lemma StepNothing(s: Store, roots: set<nat>, es: seq<Entry>, n: nat, st: seq<nat>, rw: ResWalk, low: nat)
    requires n < |es| && |st| <= MAX_FORM_WALK_DEPTH && Sound(s, roots, es, n, st, rw, low)
    requires es[n].Direct? || Lookup(s, es[n].num).Other?
    ensures Sound(s, roots, es, n + 1, st, rw, low)
    ensures PlainWalk(s, es, n + 1, st).seen == PlainWalk(s, es, n, st).seen
  {
  }

  /** A form above the entries is skipped as a cycle, and low takes its stack position. */
  lemma StepCycle(s: Store, roots: set<nat>, es: seq<Entry>, n: nat, st: seq<nat>, rw: ResWalk, low: nat, pos: nat)
    requires n < |es| && |st| <= MAX_FORM_WALK_DEPTH && Sound(s, roots, es, n, st, rw, low)
    requires es[n].Ref? && pos < |st| && st[pos] == es[n].num && Below(s, roots, es, st)
    ensures Sound(s, roots, es, n + 1, st, rw, Min(low, pos))
    ensures PlainWalk(s, es, n + 1, st).seen == PlainWalk(s, es, n, st).seen
  {
    var te := TraceEntry(s, es[n], st);
    assert te == if |st| == MAX_FORM_WALK_DEPTH then Trace({}, {}, {es[n].num}, 0) else Trace({}, {es[n].num}, {}, 0);
    assert AtOrAbove(st, es[n].num, pos);
    assert Covers(s, te, st, false, pos, []);
    JoinCovers(s, TraceWalk(s, es, n, st), te, st, rw.capped, low, rw.guard, false, pos, []);
    assert rw.guard + [] == rw.guard;
  }

  /** An object that cannot be read makes the walk incomplete. */
  lemma StepFailing(s: Store, roots: set<nat>, es: seq<Entry>, n: nat, st: seq<nat>, rw: ResWalk, low: nat,
                    rw': ResWalk)
    requires n < |es| && |st| <= MAX_FORM_WALK_DEPTH && Sound(s, roots, es, n, st, rw, low)
    requires es[n].Ref? && Lookup(s, es[n].num).Failing? && Below(s, roots, es, st)
    requires es[n].num !in PlainWalk(s, es, n, st).seen
    requires rw' == rw.(incomplete := true, issues := rw'.issues) && rw'.issues != []
    ensures Sound(s, roots, es, n + 1, st, rw', low)
    ensures PlainWalk(s, es, n + 1, st).seen == PlainWalk(s, es, n, st).seen
  {
  }

  /** An image is listed under its own resource name. */
  lemma StepImage(s: Store, roots: set<nat>, es: seq<Entry>, n: nat, st: seq<nat>, rw: ResWalk, low: nat, rw': ResWalk)
    requires n < |es| && |st| <= MAX_FORM_WALK_DEPTH && Sound(s, roots, es, n, st, rw, low)
    requires ImageRef(s, es[n]) && Below(s, roots, es, st)
    requires es[n].num !in PlainWalk(s, es, n, st).seen
    requires rw' == rw.(images := rw.images + [Use(es[n].num, es[n].gen, [es[n].key])])
    ensures Sound(s, roots, es, n + 1, st, rw', low)
    ensures PlainWalk(s, es, n + 1, st).seen == PlainWalk(s, es, n, st).seen + {es[n].num}
  {
  }

  /** A form at the nesting cap is not walked. */
  lemma StepCapped(s: Store, roots: set<nat>, es: seq<Entry>, n: nat, st: seq<nat>, rw: ResWalk, low: nat, rw': ResWalk)
    requires n < |es| && |st| == MAX_FORM_WALK_DEPTH && Sound(s, roots, es, n, st, rw, low)
    requires FormRef(s, es[n]) && es[n].num !in st && Below(s, roots, es, st)
    requires es[n].num !in PlainWalk(s, es, n, st).seen
    requires rw' == rw.(incomplete := true, capped := true, issues := rw'.issues) && rw'.issues != []
    ensures Sound(s, roots, es, n + 1, st, rw', low)
    ensures PlainWalk(s, es, n + 1, st).seen == PlainWalk(s, es, n, st).seen
  {
    var te := TraceEntry(s, es[n], st);
    assert Covers(s, te, st, true, low, []);
    JoinCovers(s, TraceWalk(s, es, n, st), te, st, rw.capped, low, rw.guard, true, low, []);
    assert rw.guard + [] == rw.guard;
    BelowKid(s, roots, es, st, n);
    assert Distinct(st + [es[n].num]);
    assert !NoDeepChain(s, roots);
  }

  /** A form walked or reused below st has its images merged in under its resource name. */
  lemma StepForm(s: Store, roots: set<nat>, es: seq<Entry>, n: nat, st: seq<nat>, rw: ResWalk, low: nat,
                 child: ResWalk, up: seq<nat>, childLow: nat, rw': ResWalk)
    requires n < |es| && |st| < MAX_FORM_WALK_DEPTH && Sound(s, roots, es, n, st, rw, low)
    requires FormRef(s, es[n]) && es[n].num !in st
    requires es[n].num !in PlainWalk(s, es, n, st).seen
    requires SoundForm(s, roots, es[n].num, st, child, up, childLow)
    requires rw'.images == Merge(es[n].key, child.images, |child.images|,
                                 Plain(rw.images, PlainWalk(s, es, n, st).seen + {es[n].num}, false)).images
    requires rw'.incomplete == (rw.incomplete || child.incomplete)
    requires rw'.capped == (rw.capped || child.capped)
    requires rw'.issues == rw.issues + child.issues
    requires rw'.height == Max(rw.height, child.height + 1)
    requires rw'.guard == rw.guard + up
    ensures Sound(s, roots, es, n + 1, st, rw', Min(low, childLow))
    ensures Merge(es[n].key, child.images, |child.images|,
                  Plain(rw.images, PlainWalk(s, es, n, st).seen + {es[n].num}, false)).seen
         == PlainWalk(s, es, n + 1, st).seen
  {
    var w := PlainWalk(s, es, n, st);
    var c := PlainForm(s, Lookup(s, es[n].num).resources, es[n].num, st);
    MergeKeepsFlag(es[n].key, child.images, |child.images|, Plain(rw.images, w.seen + {es[n].num}, false),
                   w.incomplete || c.incomplete);
    MergeFlag(es[n].key, child.images, |child.images|,
              Plain(rw.images, w.seen + {es[n].num}, w.incomplete || c.incomplete));
    JoinCovers(s, TraceWalk(s, es, n, st), TraceEntry(s, es[n], st), st, rw.capped, low, rw.guard,
               child.capped, childLow, up);
  }
}
