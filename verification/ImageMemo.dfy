/** What the memoised walk guarantees about each result it returns or stores, and why: a fresh walk of a
    form is a plain walk, a stored walk may be reused below any stack its guard does not meet, and
    entries extend a sound walk to a sound walk. */
module ImageMemo {
  import opened ImageGraph
  import opened ImageTrace

  /** A walk of one resources dictionary: its images, whether it was cut short and by which issues, the
      number of form levels it entered, whether the nesting cap cut it, and the forms that another walk
      must not have above it for this walk to be reused. */
  datatype ResWalk = ResWalk(images: seq<Use>, incomplete: bool, issues: seq<nat>, height: nat, capped: bool,
                             guard: seq<nat>)

  /** A finished form walk and the number of forms above it. */
  datatype FormWalk = FormWalk(rw: ResWalk, depth: nat)

  /** The stack position of no form: the largest 64-bit integer. */
  const NO_CYCLE: nat := 0x7fff_ffff_ffff_ffff

  function Min(a: nat, b: nat): nat { if a <= b then a else b }

  const EMPTY_WALK := ResWalk([], false, [], 0, false, [])

  /** low, capped and guard account for everything in the trace t of a walk below st: each skip and each
      form met at the cap is reported, and each entered form that can reach a form above is guarded. */
  ghost predicate Covers(s: Store, t: Trace, st: seq<nat>, capped: bool, low: nat, guard: seq<nat>) {
    && (forall k :: 0 <= k < |st| && st[k] in t.skips ==> low <= k)
    && (forall c :: c in t.capKids ==> capped || AtOrAbove(st, c, low))
    && (forall x, k :: x in t.entered && 0 <= k < |st| && Reaches(s, x, st[k]) ==> x in guard)
  }

  ghost predicate AtOrAbove(st: seq<nat>, c: nat, low: nat) {
    exists k :: low <= k < |st| && st[k] == c
  }

  /** The flags of a walk against the plain walk: it never claims to be complete when the plain walk is
      not, it is exact when the cap did not cut it, which it does not when no chain of forms below roots
      passes the cap, and an incomplete walk has an issue. */
  ghost predicate FlagsAgree(s: Store, roots: set<nat>, rw: ResWalk, plainIncomplete: bool) {
    && (plainIncomplete ==> rw.incomplete)
    && (rw.capped ==> rw.incomplete)
    && (rw.incomplete ==> rw.issues != [])
    && (!rw.capped ==> rw.incomplete == plainIncomplete)
    && (NoDeepChain(s, roots) ==> !rw.capped)
  }

  /** rw and low describe the walk of the first n entries of es below st. */
  ghost predicate Sound(s: Store, roots: set<nat>, es: seq<Entry>, n: nat, st: seq<nat>, rw: ResWalk, low: nat)
    requires n <= |es| && |st| <= MAX_FORM_WALK_DEPTH
  {
    var w, t := PlainWalk(s, es, n, st), TraceWalk(s, es, n, st);
    && rw.images == w.images
    && FlagsAgree(s, roots, rw, w.incomplete)
    && Covers(s, t, st, rw.capped, low, rw.guard)
    && t.height <= rw.height
  }

  /** child, up and low describe the walk of form f below st as its caller uses it. */
  ghost predicate SoundForm(s: Store, roots: set<nat>, f: nat, st: seq<nat>, child: ResWalk, up: seq<nat>, low: nat)
    requires Lookup(s, f).Form? && |st| < MAX_FORM_WALK_DEPTH
  {
    var w, t := PlainForm(s, Lookup(s, f).resources, f, st), TraceForm(s, f, st);
    && child.images == w.images
    && FlagsAgree(s, roots, child, w.incomplete)
    && Covers(s, t, st, child.capped, low, up)
    && t.height <= child.height + 1
  }

  /** The stored walk fw of form f is its plain walk below st0, the stack it was made under. */
  ghost predicate MemoSound(s: Store, roots: set<nat>, f: nat, fw: FormWalk, st0: seq<nat>) {
    && Lookup(s, f).Form? && |st0| == fw.depth < MAX_FORM_WALK_DEPTH && f !in st0 && AllForms(s, st0)
    && var w, t := PlainForm(s, Lookup(s, f).resources, f, st0), TraceForm(s, f, st0);
       && fw.rw.images == w.images
       && FlagsAgree(s, roots, fw.rw, w.incomplete)
       && t.skips == {}
       && (t.capKids != {} ==> fw.rw.capped)
       && (forall x :: x in t.entered && Reaches(s, x, f) ==> x in fw.rw.guard || x == f)
       && t.height <= fw.rw.height + 1
  }

  /** A walk of f's resources that skipped no form above f can be stored. */
  lemma StoreIsSound(s: Store, roots: set<nat>, f: nat, st: seq<nat>, rw: ResWalk, childLow: nat)
    requires Lookup(s, f).Form? && |st| < MAX_FORM_WALK_DEPTH && f !in st && AllForms(s, st)
    requires Lookup(s, f).resources.XObjects?
    requires Sound(s, roots, FormEntries(s, f), |FormEntries(s, f)|, st + [f], rw, childLow)
    requires |st| <= childLow
    ensures MemoSound(s, roots, f, FormWalk(rw, |st|), st)
  {
    var es := FormEntries(s, f);
    var c := TraceWalk(s, es, |es|, st + [f]);
    TraceIsWell(s, es, |es|, st + [f]);
    assert (st + [f])[|st|] == f;
    forall x | x in c.skips
      ensures x == f
    {
      var k :| 0 <= k < |st + [f]| && (st + [f])[k] == x;
    }
  }

  /** A form whose resources cannot be read is stored as an incomplete walk of nothing. */
  lemma StoreUnreadable(s: Store, roots: set<nat>, f: nat, st: seq<nat>, rw: ResWalk)
    requires Lookup(s, f).Form? && |st| < MAX_FORM_WALK_DEPTH && f !in st && AllForms(s, st)
    requires Lookup(s, f).resources.Unreadable?
    requires rw.images == [] && rw.incomplete && rw.issues != [] && !rw.capped
    ensures MemoSound(s, roots, f, FormWalk(rw, |st|), st)
    ensures SoundForm(s, roots, f, st, rw, [], NO_CYCLE)
  {
    assert FormEntries(s, f) == [];
    assert TraceForm(s, f, st) == Trace({f}, {}, {}, 1);
    forall k | 0 <= k < |st|
      ensures !Reaches(s, f, st[k])
    {
      UnskippedReachesNothingAbove(s, f, st, f, st[k]);
    }
  }

  /** A fresh walk of f's resources, with the cycles that close at f or below it left out of low and
      with f and its guard handed up when the walk was capped or depends on a form above f. */
  lemma FreshIsSound(s: Store, roots: set<nat>, f: nat, st: seq<nat>, rw: ResWalk, childLow: nat, up: seq<nat>)
    requires Lookup(s, f).Form? && |st| < MAX_FORM_WALK_DEPTH && f !in st && AllForms(s, st)
    requires Lookup(s, f).resources.XObjects?
    requires Sound(s, roots, FormEntries(s, f), |FormEntries(s, f)|, st + [f], rw, childLow)
    requires up == if childLow < |st| || rw.capped then rw.guard + [f] else []
    ensures SoundForm(s, roots, f, st, rw, up, if childLow < |st| then childLow else NO_CYCLE)
  {
    var es := FormEntries(s, f);
    var c, t := TraceWalk(s, es, |es|, st + [f]), TraceForm(s, f, st);
    forall k | 0 <= k < |st|
      ensures (st + [f])[k] == st[k]
    {
    }
    forall x, k | x in t.entered && 0 <= k < |st| && Reaches(s, x, st[k])
      ensures x in up
    {
      if |st| <= childLow && !rw.capped {
        StoreIsSound(s, roots, f, st, rw, childLow);
        UnskippedReachesNothingAbove(s, f, st, x, st[k]);
      } else if x != f {
        assert (st + [f])[k] == st[k];
      }
    }
    forall a | a in t.capKids
      ensures rw.capped || AtOrAbove(st, a, childLow)
    {
      if !rw.capped {
        var k :| childLow <= k < |st + [f]| && (st + [f])[k] == a;
      }
    }
  }

  /** A stored walk none of whose guarded forms is above it, and whose cap falls in the same place, is the
      plain walk below the current stack. */
  lemma ReuseIsSound(s: Store, roots: set<nat>, f: nat, fw: FormWalk, st0: seq<nat>, st: seq<nat>, up: seq<nat>)
    requires MemoSound(s, roots, f, fw, st0)
    requires |st| < MAX_FORM_WALK_DEPTH && f !in st && AllForms(s, st)
    requires forall k :: 0 <= k < |st| ==> Reaches(s, st[k], f) && st[k] !in fw.rw.guard
    requires if fw.rw.capped then fw.depth == |st| else |st| + fw.rw.height < MAX_FORM_WALK_DEPTH
    requires up == if fw.rw.capped then [f] + fw.rw.guard else []
    ensures SoundForm(s, roots, f, st, fw.rw, up, NO_CYCLE)
  {
    var t0, t := TraceForm(s, f, st0), TraceForm(s, f, st);
    assert st0 + [] == st0 && st + [] == st;
    TraceFormIsWell(s, f, st);
    MoveForm(s, f, st0, st, []);
    assert t.skips == {} && t.capKids == t0.capKids;
    forall x, k | x in t.entered && 0 <= k < |st| && Reaches(s, x, st[k])
      ensures x in up
    {
      ReachesTransitive(s, x, st[k], f);
      if !fw.rw.capped {
        UnskippedReachesNothingAbove(s, f, st, x, st[k]);
      }
    }
  }
}
