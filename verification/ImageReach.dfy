/** The plain walk against reachability: a complete walk lists exactly the images reachable through forms,
    each once, and every listed path names its image. */
module ImageReach {
  import opened ImageGraph
  import opened ImageTrace
  import opened ImageSteps

  ghost predicate NamesImage(s: Store, es: seq<Entry>, x: nat) {
    exists j :: 0 <= j < |es| && ImageRef(s, es[j]) && es[j].num == x
  }

  /** Image x is named by es or by the resources of a form reachable from a form es names. */
  ghost predicate ReachableImage(s: Store, es: seq<Entry>, x: nat) {
    NamesImage(s, es, x) ||
    exists f, g :: Names(s, es, f) && Reaches(s, f, g) && NamesImage(s, FormEntries(s, g), x)
  }

  /** The resource names of path lead from es through forms to a reference to image x with generation gen. */
  ghost predicate PathLeads(s: Store, es: seq<Entry>, path: seq<string>, x: nat, gen: nat)
    decreases |path|
  {
    path != [] &&
    if |path| == 1 then
      exists j :: 0 <= j < |es| && ImageRef(s, es[j]) && es[j].key == path[0] && es[j].num == x && es[j].gen == gen
    else exists j :: 0 <= j < |es| && FormRef(s, es[j]) && es[j].key == path[0] &&
                     PathLeads(s, FormEntries(s, es[j].num), path[1..], x, gen)
  }

  ghost predicate PathsLead(s: Store, es: seq<Entry>, images: seq<Use>) {
    forall i :: 0 <= i < |images| ==> PathLeads(s, es, images[i].path, images[i].num, images[i].gen)
  }

  lemma {:induction false} MergePaths(s: Store, es: seq<Entry>, j: nat, images: seq<Use>, m: nat, acc: Plain)
    requires j < |es| && FormRef(s, es[j]) && m <= |images|
    requires PathsLead(s, es, acc.images) && PathsLead(s, FormEntries(s, es[j].num), images)
    ensures PathsLead(s, es, Merge(es[j].key, images, m, acc).images)
  {
    if m > 0 {
      MergePaths(s, es, j, images, m - 1, acc);
      var u := images[m - 1];
      var path := [es[j].key] + u.path;
      assert path[1..] == u.path;
      assert PathLeads(s, FormEntries(s, es[j].num), u.path, u.num, u.gen);
      assert PathLeads(s, es, path, u.num, u.gen);
    }
  }

  /** Every path a plain walk lists leads to its image. */
  lemma {:induction false} PlainPathsLead(s: Store, es: seq<Entry>, n: nat, st: seq<nat>)
    requires n <= |es| && |st| <= MAX_FORM_WALK_DEPTH
    ensures PathsLead(s, es, PlainWalk(s, es, n, st).images)
    decreases MAX_FORM_WALK_DEPTH - |st|, n
  {
    if n > 0 {
      var e, a := es[n - 1], PlainWalk(s, es, n - 1, st);
      PlainPathsLead(s, es, n - 1, st);
      if e.Ref? && e.num !in a.seen && e.num !in st {
        if ImageRef(s, e) {
          assert PathLeads(s, es, [e.key], e.num, e.gen);
        } else if FormRef(s, e) && |st| < MAX_FORM_WALK_DEPTH {
          var fs := FormEntries(s, e.num);
          var c := PlainForm(s, Lookup(s, e.num).resources, e.num, st);
          if Lookup(s, e.num).resources.XObjects? {
            PlainPathsLead(s, fs, |fs|, st + [e.num]);
          }
          MergePaths(s, es, n - 1, c.images, |c.images|,
                     Plain(a.images, a.seen + {e.num}, a.incomplete || c.incomplete));
        }
      }
    }
  }

  /** An image whose path leads to it is reachable. */
  lemma {:induction false} PathReaches(s: Store, es: seq<Entry>, path: seq<string>, x: nat, gen: nat)
    requires PathLeads(s, es, path, x, gen)
    ensures ReachableImage(s, es, x)
    decreases |path|
  {
    if |path| == 1 {
      assert NamesImage(s, es, x);
    } else {
      var j :| 0 <= j < |es| && FormRef(s, es[j]) && es[j].key == path[0] &&
               PathLeads(s, FormEntries(s, es[j].num), path[1..], x, gen);
      var f := es[j].num;
      PathReaches(s, FormEntries(s, f), path[1..], x, gen);
      assert Names(s, es, f);
      if !NamesImage(s, FormEntries(s, f), x) {
        var h, g :| Names(s, FormEntries(s, f), h) && Reaches(s, h, g) && NamesImage(s, FormEntries(s, g), x);
        KidReaches(s, f, h);
        ReachesTransitive(s, f, h, g);
      } else {
        assert Reaches(s, f, f);
      }
    }
  }

  /** Everything the first n entries and the forms entered from them name as an image was reached. */
  ghost predicate AllReached(s: Store, es: seq<Entry>, n: nat, w: Plain, t: Trace)
    requires n <= |es|
  {
    && (forall j :: 0 <= j < n && ImageRef(s, es[j]) ==> es[j].num in w.seen)
    && (forall g, x :: g in t.entered && NamesImage(s, FormEntries(s, g), x) ==> x in w.seen)
  }

  /** A complete plain walk met no form at the cap but the ones above it, and reached every image. */
  lemma {:induction false} CompleteReachesAll(s: Store, es: seq<Entry>, n: nat, st: seq<nat>)
    requires n <= |es| && |st| <= MAX_FORM_WALK_DEPTH && AllForms(s, st)
    requires !PlainWalk(s, es, n, st).incomplete
    ensures forall x :: x in TraceWalk(s, es, n, st).capKids ==> x in st
    ensures AllReached(s, es, n, PlainWalk(s, es, n, st), TraceWalk(s, es, n, st))
    decreases MAX_FORM_WALK_DEPTH - |st|, n
  {
    if n > 0 {
      var e, a := es[n - 1], PlainWalk(s, es, n - 1, st);
      var w, te := PlainWalk(s, es, n, st), TraceEntry(s, e, st);
      assert w == PlainEntry(s, e, st, a) && TraceWalk(s, es, n, st) == Join(TraceWalk(s, es, n - 1, st), te);
      if FormRef(s, e) && e.num !in a.seen && e.num !in st && |st| < MAX_FORM_WALK_DEPTH {
        var c := PlainForm(s, Lookup(s, e.num).resources, e.num, st);
        var b := Plain(a.images, a.seen + {e.num}, a.incomplete || c.incomplete);
        MergeFlag(e.key, c.images, |c.images|, b);
        CompleteReachesAll(s, es, n - 1, st);
        CompleteFormReachesAll(s, e.num, st);
        PlainFormListsImages(s, e.num, st);
        PlainIsWellListed(s, es, n - 1, st);
        MergeReaches(s, e.key, c.images, |c.images|, b);
        forall g, x | g in te.entered && NamesImage(s, FormEntries(s, g), x)
          ensures x in w.seen
        {
          assert Lists(c.images, x);
        }
      } else {
        CompleteReachesAll(s, es, n - 1, st);
        if FormRef(s, e) && e.num in a.seen {
          PlainIsWellListed(s, es, n - 1, st);
          var j :| 0 <= j < n - 1 && FormRef(s, es[j]) && es[j].num == e.num;
          TraceHolds(s, es, n - 1, st, j);
          assert te == TraceEntry(s, es[j], st);
        }
      }
    }
  }

  lemma {:induction false} MergeReaches(s: Store, key: string, images: seq<Use>, m: nat, acc: Plain)
    requires m <= |images|
    ensures acc.seen <= Merge(key, images, m, acc).seen
    ensures forall i :: 0 <= i < m ==> images[i].num in Merge(key, images, m, acc).seen
  {
    if m > 0 {
      MergeReaches(s, key, images, m - 1, acc);
    }
  }

  lemma {:induction false} CompleteFormReachesAll(s: Store, f: nat, st: seq<nat>)
    requires Lookup(s, f).Form? && |st| < MAX_FORM_WALK_DEPTH && f !in st && AllForms(s, st)
    requires !PlainForm(s, Lookup(s, f).resources, f, st).incomplete
    ensures forall x :: x in TraceForm(s, f, st).capKids ==> x in st
    ensures forall g, x :: g in TraceForm(s, f, st).entered && NamesImage(s, FormEntries(s, g), x) ==>
              Lists(PlainForm(s, Lookup(s, f).resources, f, st).images, x)
    decreases MAX_FORM_WALK_DEPTH - |st| - 1, |FormEntries(s, f)| + 1
  {
    var fs := FormEntries(s, f);
    CompleteReachesAll(s, fs, |fs|, st + [f]);
    PlainIsWellListed(s, fs, |fs|, st + [f]);
    var w, t := PlainWalk(s, fs, |fs|, st + [f]), TraceWalk(s, fs, |fs|, st + [f]);
    forall g, x | g in TraceForm(s, f, st).entered && NamesImage(s, FormEntries(s, g), x)
      ensures Lists(w.images, x)
    {
      assert x in w.seen;
      assert Lookup(s, x).Image?;
    }
  }

  /** A complete walk of a page's resources lists exactly the images reachable from them, each once, each
      under a path that leads to it. */
  lemma CompletePageIsExact(s: Store, r: Resources)
    requires !PlainPage(s, r).incomplete
    ensures r.XObjects? && EachOnce(PlainPage(s, r).images) && PathsLead(s, r.entries, PlainPage(s, r).images)
    ensures forall x :: Lists(PlainPage(s, r).images, x) <==> ReachableImage(s, r.entries, x)
  {
    var es := r.entries;
    var w, t := PlainWalk(s, es, |es|, []), TraceWalk(s, es, |es|, []);
    PlainIsWellListed(s, es, |es|, []);
    PlainPathsLead(s, es, |es|, []);
    CompleteReachesAll(s, es, |es|, []);
    TraceIsWell(s, es, |es|, []);
    assert Closed(s, t.entered);
    forall x
      ensures Lists(w.images, x) <==> ReachableImage(s, es, x)
    {
      if Lists(w.images, x) {
        var i :| 0 <= i < |w.images| && w.images[i].num == x;
        PathReaches(s, es, w.images[i].path, x, w.images[i].gen);
      }
      if ReachableImage(s, es, x) {
        assert Lookup(s, x).Image?;
        if !NamesImage(s, es, x) {
          var f, g :| Names(s, es, f) && Reaches(s, f, g) && NamesImage(s, FormEntries(s, g), x);
          assert f in t.entered && g in t.entered;
        }
        assert x in w.seen;
      }
    }
  }

  // What makes a plain walk incomplete.

  predicate NamesFailing(s: Store, es: seq<Entry>, n: nat)
    requires n <= |es|
  {
    exists j :: 0 <= j < n && es[j].Ref? && Lookup(s, es[j].num).Failing?
  }

  /** The resources of form f, or an object they name, cannot be read. */
  predicate HasUnread(s: Store, f: nat) {
    (Lookup(s, f).Form? && Lookup(s, f).resources.Unreadable?) ||
    NamesFailing(s, FormEntries(s, f), |FormEntries(s, f)|)
  }

  /** A walk meets a form at the cap that is not above it. */
  ghost predicate MeetsCap(t: Trace, st: seq<nat>) {
    exists c :: c in t.capKids && c !in st
  }

  /** A walk enters a form with something that cannot be read. */
  ghost predicate MeetsUnread(s: Store, t: Trace) {
    exists f :: f in t.entered && HasUnread(s, f)
  }

  /** A plain walk is incomplete exactly when it meets a form at the cap or something that cannot be read. */
  lemma {:induction false} IncompleteIff(s: Store, es: seq<Entry>, n: nat, st: seq<nat>)
    requires n <= |es| && |st| <= MAX_FORM_WALK_DEPTH && AllForms(s, st)
    ensures var t := TraceWalk(s, es, n, st);
      PlainWalk(s, es, n, st).incomplete <==> NamesFailing(s, es, n) || MeetsCap(t, st) || MeetsUnread(s, t)
    decreases MAX_FORM_WALK_DEPTH - |st|, n
  {
    if n > 0 {
      hide HasUnread;
      var e, a := es[n - 1], PlainWalk(s, es, n - 1, st);
      var w, te := PlainWalk(s, es, n, st), TraceEntry(s, e, st);
      assert w == PlainEntry(s, e, st, a) && TraceWalk(s, es, n, st) == Join(TraceWalk(s, es, n - 1, st), te);
      IncompleteIff(s, es, n - 1, st);
      PlainIsWellListed(s, es, n - 1, st);
      if FormRef(s, e) && e.num !in st {
        if e.num in a.seen {
          var j :| 0 <= j < n - 1 && FormRef(s, es[j]) && es[j].num == e.num;
          TraceHolds(s, es, n - 1, st, j);
        } else if |st| < MAX_FORM_WALK_DEPTH {
          var c := PlainForm(s, Lookup(s, e.num).resources, e.num, st);
          MergeFlag(e.key, c.images, |c.images|, Plain(a.images, a.seen + {e.num}, a.incomplete || c.incomplete));
          FormIncompleteIff(s, e.num, st);
        }
      }
    }
  }

  lemma {:induction false} FormIncompleteIff(s: Store, f: nat, st: seq<nat>)
    requires Lookup(s, f).Form? && |st| < MAX_FORM_WALK_DEPTH && f !in st && AllForms(s, st)
    ensures var t := TraceForm(s, f, st);
      PlainForm(s, Lookup(s, f).resources, f, st).incomplete <==> MeetsCap(t, st) || MeetsUnread(s, t)
    decreases MAX_FORM_WALK_DEPTH - |st| - 1, |FormEntries(s, f)| + 1
  {
    var fs := FormEntries(s, f);
    IncompleteIff(s, fs, |fs|, st + [f]);
    var c, t := TraceWalk(s, fs, |fs|, st + [f]), TraceForm(s, f, st);
    assert MeetsCap(t, st) <==> MeetsCap(c, st + [f]);
    if HasUnread(s, f) {
      assert f in t.entered;
    }
    if MeetsUnread(s, c) {
      var g :| g in c.entered && HasUnread(s, g);
      assert g in t.entered;
    }
    if MeetsUnread(s, t) && !HasUnread(s, f) {
      var g :| g in t.entered && HasUnread(s, g);
      assert g in c.entered;
    }
  }
}
