/** What a plain walk does at each form reference: which forms it enters, which forms above it it skips
    as cycles, and which forms it meets at the nesting cap.  The lemmas here say when the walk of a form
    below one stack of forms is also its walk below another, which is what reusing a memo relies on. */
module ImageTrace {
  import opened ImageGraph

  /** entered: the forms walked; skips: the forms above the walked entries that they name again below
      the cap; capKids: the forms named at the cap, other than those entered on the way there; height:
      the number of form levels entered. */
  datatype Trace = Trace(entered: set<nat>, skips: set<nat>, capKids: set<nat>, height: nat)

  function Max(a: nat, b: nat): nat { if a < b then b else a }

  function Join(a: Trace, b: Trace): Trace {
    Trace(a.entered + b.entered, a.skips + b.skips, a.capKids + b.capKids, Max(a.height, b.height))
  }

  const NO_TRACE := Trace({}, {}, {}, 0)

  function TraceWalk(s: Store, es: seq<Entry>, n: nat, st: seq<nat>): Trace
    requires n <= |es| && |st| <= MAX_FORM_WALK_DEPTH
    decreases MAX_FORM_WALK_DEPTH - |st|, n
  {
    if n == 0 then NO_TRACE
    else Join(TraceWalk(s, es, n - 1, st), TraceEntry(s, es[n - 1], st))
  }

  function TraceEntry(s: Store, e: Entry, st: seq<nat>): Trace
    requires |st| <= MAX_FORM_WALK_DEPTH
    decreases MAX_FORM_WALK_DEPTH - |st|, 0
  {
    if !FormRef(s, e) then NO_TRACE
    else if |st| == MAX_FORM_WALK_DEPTH then Trace({}, {}, {e.num}, 0)
    else if e.num in st then Trace({}, {e.num}, {}, 0)
    else TraceForm(s, e.num, st)
  }

  function TraceForm(s: Store, f: nat, st: seq<nat>): Trace
    requires |st| < MAX_FORM_WALK_DEPTH
    decreases MAX_FORM_WALK_DEPTH - |st| - 1, |FormEntries(s, f)| + 1
  {
    var c := TraceWalk(s, FormEntries(s, f), |FormEntries(s, f)|, st + [f]);
    Trace({f} + c.entered, c.skips - {f}, c.capKids - {f}, c.height + 1)
  }

  /** A walk enters no form above it, skips only forms above it, and everything its entries and the
      entered forms name is entered, skipped or met at the cap. */
  ghost predicate WellTraced(s: Store, es: seq<Entry>, n: nat, st: seq<nat>, t: Trace)
    requires n <= |es|
  {
    && (forall x :: x in t.entered ==> x !in st)
    && (forall x :: x in t.skips ==> x in st)
    && (forall j :: 0 <= j < n && FormRef(s, es[j]) ==> es[j].num in t.entered + t.skips + t.capKids)
    && (forall x, y :: x in t.entered && Kid(s, x, y) ==> y in t.entered + t.skips + t.capKids)
  }

  lemma {:induction false} TraceIsWell(s: Store, es: seq<Entry>, n: nat, st: seq<nat>)
    requires n <= |es| && |st| <= MAX_FORM_WALK_DEPTH
    ensures WellTraced(s, es, n, st, TraceWalk(s, es, n, st))
    decreases MAX_FORM_WALK_DEPTH - |st|, n
  {
    if n > 0 {
      TraceIsWell(s, es, n - 1, st);
      var e := es[n - 1];
      if FormRef(s, e) && |st| < MAX_FORM_WALK_DEPTH && e.num !in st {
        TraceFormIsWell(s, e.num, st);
      }
    }
  }

  lemma {:induction false} TraceFormIsWell(s: Store, f: nat, st: seq<nat>)
    requires |st| < MAX_FORM_WALK_DEPTH && f !in st
    ensures WellTraced(s, [], 0, st, TraceForm(s, f, st))
    decreases MAX_FORM_WALK_DEPTH - |st| - 1, |FormEntries(s, f)| + 1
  {
    TraceIsWell(s, FormEntries(s, f), |FormEntries(s, f)|, st + [f]);
  }

  /** No form in a walk that skips nothing above it and meets no form at the cap reaches a form above it. */
  lemma UnskippedReachesNothingAbove(s: Store, f: nat, st: seq<nat>, x: nat, a: nat)
    requires |st| < MAX_FORM_WALK_DEPTH && f !in st && a in st
    requires TraceForm(s, f, st).skips == {} && TraceForm(s, f, st).capKids == {}
    requires x in TraceForm(s, f, st).entered
    ensures !Reaches(s, x, a)
  {
    TraceFormIsWell(s, f, st);
    var c := TraceForm(s, f, st).entered;
    assert Closed(s, c) && x in c && a !in c;
  }

  ghost predicate AllForms(s: Store, st: seq<nat>) {
    forall i :: 0 <= i < |st| ==> Lookup(s, st[i]).Form?
  }

  /** The walk t below st can be moved below st' : it enters no form of st', skips no form of st, and
      its cap falls in the same place, or it never meets the cap and still fits under it. */
  ghost predicate Movable(t: Trace, st: seq<nat>, st': seq<nat>, p: seq<nat>) {
    && (forall x :: x in t.entered ==> x !in st')
    && (forall x :: x in t.skips ==> x !in st)
    && (|st| == |st'| ||
        ((forall x :: x in t.capKids ==> x in p) && |st'| + |p| + t.height <= MAX_FORM_WALK_DEPTH))
  }

  /** What moving a walk preserves: the forms it enters and what it finds.  At the cap a form above is
      skipped and any other form is reported as not walked, so the incomplete flags may differ there. */
  ghost predicate SameWalk(s: Store, es: seq<Entry>, n: nat, st: seq<nat>, st': seq<nat>, p: seq<nat>)
    requires n <= |es| && |st + p| <= MAX_FORM_WALK_DEPTH && |st' + p| <= MAX_FORM_WALK_DEPTH
  {
    var t, t' := TraceWalk(s, es, n, st + p), TraceWalk(s, es, n, st' + p);
    var w, w' := PlainWalk(s, es, n, st + p), PlainWalk(s, es, n, st' + p);
    && SameTrace(t, t', st', p)
    && w'.images == w.images && w'.seen == w.seen
    && SameFlag(t, w.incomplete, w'.incomplete, p)
  }

  ghost predicate SameTrace(t: Trace, t': Trace, st': seq<nat>, p: seq<nat>) {
    && t'.entered == t.entered && t'.height == t.height
    && (forall x :: x in t'.skips ==> x !in st')
    && (forall x :: x !in p ==> (x in t'.capKids <==> x in t.capKids))
  }

  ghost predicate SameFlag(t: Trace, incomplete: bool, incomplete': bool, p: seq<nat>) {
    && (incomplete' ==> incomplete || exists x :: x in t.capKids && x !in p)
    && ((forall x :: x in t.capKids ==> x in p) ==> incomplete == incomplete')
  }

  lemma {:induction false} MoveWalk(s: Store, es: seq<Entry>, n: nat, st: seq<nat>, st': seq<nat>, p: seq<nat>)
    requires n <= |es| && |st + p| <= MAX_FORM_WALK_DEPTH && |st' + p| <= MAX_FORM_WALK_DEPTH
    requires AllForms(s, st) && AllForms(s, st') && AllForms(s, p) && (forall x :: x in p ==> x !in st')
    requires Movable(TraceWalk(s, es, n, st + p), st, st', p)
    ensures SameWalk(s, es, n, st, st', p)
    decreases MAX_FORM_WALK_DEPTH - |st + p|, n
  {
    if n > 0 {
      var e := es[n - 1];
      var te := TraceEntry(s, e, st + p);
      assert TraceWalk(s, es, n, st + p) == Join(TraceWalk(s, es, n - 1, st + p), te);
      MoveWalk(s, es, n - 1, st, st', p);
      if FormRef(s, e) && |st + p| < MAX_FORM_WALK_DEPTH && e.num !in st + p {
        assert te == TraceForm(s, e.num, st + p);
        MoveForm(s, e.num, st, st', p);
        MergeFlags(s, e, st, st', p, PlainWalk(s, es, n - 1, st + p), PlainWalk(s, es, n - 1, st' + p));
      }
      assert TraceWalk(s, es, n, st' + p) == Join(TraceWalk(s, es, n - 1, st' + p), TraceEntry(s, e, st' + p));
    }
  }

  /** Entering the same form after the same images gives the same images and the joined flags. */
  lemma MergeFlags(s: Store, e: Entry, st: seq<nat>, st': seq<nat>, p: seq<nat>, w: Plain, w': Plain)
    requires FormRef(s, e) && |st + p| < MAX_FORM_WALK_DEPTH && |st' + p| < MAX_FORM_WALK_DEPTH
    requires e.num !in st + p && e.num !in st' + p && w.images == w'.images && w.seen == w'.seen
    requires PlainForm(s, Lookup(s, e.num).resources, e.num, st + p).images
          == PlainForm(s, Lookup(s, e.num).resources, e.num, st' + p).images
    ensures var r, r' := PlainEntry(s, e, st + p, w), PlainEntry(s, e, st' + p, w');
            var r0 := Lookup(s, e.num).resources;
            && r.images == r'.images && r.seen == r'.seen
            && r.incomplete == (w.incomplete ||
                 (e.num !in w.seen && PlainForm(s, r0, e.num, st + p).incomplete))
            && r'.incomplete == (w'.incomplete ||
                 (e.num !in w.seen && PlainForm(s, r0, e.num, st' + p).incomplete))
  {
    if e.num !in w.seen {
      var c := PlainForm(s, Lookup(s, e.num).resources, e.num, st + p);
      var c' := PlainForm(s, Lookup(s, e.num).resources, e.num, st' + p);
      var a := Plain(w.images, w.seen + {e.num}, w.incomplete || c.incomplete);
      MergeKeepsFlag(e.key, c.images, |c.images|, a, a.incomplete);
      MergeKeepsFlag(e.key, c.images, |c.images|, a, w'.incomplete || c'.incomplete);
    }
  }

  lemma {:induction false} MoveForm(s: Store, f: nat, st: seq<nat>, st': seq<nat>, p: seq<nat>)
    requires Lookup(s, f).Form?
    requires |st + p| < MAX_FORM_WALK_DEPTH && |st' + p| <= MAX_FORM_WALK_DEPTH && f !in st + p
    requires AllForms(s, st) && AllForms(s, st') && AllForms(s, p) && (forall x :: x in p ==> x !in st')
    requires Movable(TraceForm(s, f, st + p), st, st', p)
    ensures |st' + p| < MAX_FORM_WALK_DEPTH
    ensures SameTrace(TraceForm(s, f, st + p), TraceForm(s, f, st' + p), st', p)
    ensures var r := Lookup(s, f).resources;
            var w, w' := PlainForm(s, r, f, st + p), PlainForm(s, r, f, st' + p);
            w'.images == w.images && SameFlag(TraceForm(s, f, st + p), w.incomplete, w'.incomplete, p)
    decreases MAX_FORM_WALK_DEPTH - |st + p| - 1, |FormEntries(s, f)| + 1
  {
    assert (st + p) + [f] == st + (p + [f]);
    assert (st' + p) + [f] == st' + (p + [f]);
    var es := FormEntries(s, f);
    var t := TraceWalk(s, es, |es|, st + (p + [f]));
    assert Movable(t, st, st', p + [f]);
    MoveWalk(s, es, |es|, st, st', p + [f]);
  }
}
