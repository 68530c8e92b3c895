/** The order of a walk: each image stands under the first path that leads to it, in the order of these paths.  Paths
    are compared by the positions of the entries they take, so nothing here depends on how a walk collects its
    images. */
module ImageOrder {
  import opened ImageGraph
  import opened ImageSteps

  /** The entries at the positions at lead from es, below the forms st, through forms that are entered no twice and no
      deeper than the cap, to the image of u, under its resource names. */
  ghost predicate Leads(s: Store, es: seq<Entry>, st: seq<nat>, at: seq<nat>, u: Use)
    decreases |at|
  {
    && at != [] && |u.path| == |at| && at[0] < |es| && es[at[0]].Ref?
    && var e := es[at[0]];
       && e.num !in st && e.key == u.path[0]
       && if |at| == 1 then Lookup(s, e.num).Image? && e.num == u.num && e.gen == u.gen
          else
            && Lookup(s, e.num).Form? && |st| < MAX_FORM_WALK_DEPTH
            && Leads(s, FormEntries(s, e.num), st + [e.num], at[1..], Use(u.num, u.gen, u.path[1..]))
  }

  /** The order of positions: by the first entry in which they differ. */
  predicate Earlier(a: seq<nat>, b: seq<nat>) {
    a != [] && b != [] && (a[0] < b[0] || (a[0] == b[0] && Earlier(a[1..], b[1..])))
  }

  lemma {:induction false} EarlierIsOrder(a: seq<nat>, b: seq<nat>, c: seq<nat>)
    ensures !Earlier(a, a)
    ensures Earlier(a, b) ==> !Earlier(b, a)
    ensures Earlier(a, b) && Earlier(b, c) ==> Earlier(a, c)
  {
    if a != [] {
      EarlierIsOrder(a[1..], if b == [] then [] else b[1..], if c == [] then [] else c[1..]);
    }
  }

  /** The image of u is listed under the path at or one before it. */
  ghost predicate Covered(images: seq<Use>, ps: seq<seq<nat>>, at: seq<nat>, num: nat) {
    exists i :: 0 <= i < |images| && i < |ps| && images[i].num == num && (ps[i] == at || Earlier(ps[i], at))
  }

  /** The images that a path from the first n entries leads to, each once, each under the first such path, in the order
      of these paths ps. */
  ghost predicate InWalkOrder(s: Store, es: seq<Entry>, n: nat, st: seq<nat>, images: seq<Use>, ps: seq<seq<nat>>) {
    && |ps| == |images|
    && (forall i :: 0 <= i < |images| ==> Leads(s, es, st, ps[i], images[i]) && ps[i][0] < n)
    && (forall i, j :: 0 <= i < j < |images| ==> Earlier(ps[i], ps[j]) && images[i].num != images[j].num)
    && (forall at, u :: Leads(s, es, st, at, u) && at[0] < n ==> Covered(images, ps, at, u.num))
  }

  /** The images of a page in walk order. */
  ghost predicate WalkOrder(s: Store, r: Resources, images: seq<Use>) {
    exists ps :: InWalkOrder(s, EntriesOf(r), |EntriesOf(r)|, [], images, ps)
  }

  /** Positions fix what they lead to. */
  lemma {:induction false} LeadsToOne(s: Store, es: seq<Entry>, st: seq<nat>, at: seq<nat>, u: Use, v: Use)
    requires Leads(s, es, st, at, u) && Leads(s, es, st, at, v)
    ensures u == v
    decreases |at|
  {
    if |at| > 1 {
      var f := es[at[0]].num;
      LeadsToOne(s, FormEntries(s, f), st + [f], at[1..], Use(u.num, u.gen, u.path[1..]),
                 Use(v.num, v.gen, v.path[1..]));
      assert u.path == [u.path[0]] + u.path[1..] && v.path == [v.path[0]] + v.path[1..];
    } else {
      assert u.path == [u.path[0]] && v.path == [v.path[0]];
    }
  }

  /** What is listed in one list is listed in the other no later. */
  lemma NoLater(s: Store, es: seq<Entry>, n: nat, st: seq<nat>, a: seq<Use>, ps: seq<seq<nat>>, b: seq<Use>,
                qs: seq<seq<nat>>, i: nat) returns (j: nat)
    requires InWalkOrder(s, es, n, st, a, ps) && InWalkOrder(s, es, n, st, b, qs) && i < |a|
    ensures j < |b| && b[j].num == a[i].num && (qs[j] == ps[i] || Earlier(qs[j], ps[i]))
  {
    hide Leads, Earlier;
    assert Covered(b, qs, ps[i], a[i].num);
    j :| 0 <= j < |b| && b[j].num == a[i].num && (qs[j] == ps[i] || Earlier(qs[j], ps[i]));
  }

  lemma ListedOnce(s: Store, es: seq<Entry>, n: nat, st: seq<nat>, a: seq<Use>, ps: seq<seq<nat>>, i: nat, k: nat)
    requires InWalkOrder(s, es, n, st, a, ps) && i < |a| && k < |a| && a[i].num == a[k].num
    ensures i == k && Leads(s, es, st, ps[i], a[i])
  {
    hide Leads, Earlier, Covered;
  }

  /** What is listed in one list stands in the other under the same path. */
  lemma SamePlace(s: Store, es: seq<Entry>, n: nat, st: seq<nat>, a: seq<Use>, ps: seq<seq<nat>>, b: seq<Use>,
                  qs: seq<seq<nat>>, i: nat) returns (j: nat)
    requires InWalkOrder(s, es, n, st, a, ps) && InWalkOrder(s, es, n, st, b, qs) && i < |a|
    ensures j < |b| && b[j] == a[i] && qs[j] == ps[i]
  {
    j := NoLater(s, es, n, st, a, ps, b, qs, i);
    var k := NoLater(s, es, n, st, b, qs, a, ps, j);
    ListedOnce(s, es, n, st, a, ps, i, k);
    ListedOnce(s, es, n, st, b, qs, j, j);
    EarlierIsOrder(ps[i], qs[j], ps[i]);
    hide *;
    LeadsToOne(s, es, st, ps[i], a[i], b[j]);
  }

  ghost predicate Rising(ps: seq<seq<nat>>) {
    forall i, j :: 0 <= i < j < |ps| ==> Earlier(ps[i], ps[j])
  }

  lemma RisingOnce(ps: seq<seq<nat>>, i: nat, j: nat)
    requires Rising(ps) && i < |ps| && j < |ps| && (ps[i] == ps[j] || Earlier(ps[i], ps[j]))
    ensures i <= j
  {
    EarlierIsOrder(ps[i], ps[j], ps[i]);
  }

  /** The next place after those that two rising lists share, when each holds the other's. */
  lemma NextPlace(ps: seq<seq<nat>>, qs: seq<seq<nat>>, i: nat, j: nat, k: nat)
    requires Rising(ps) && Rising(qs) && i < |ps| && j < |qs| && i <= |qs| && ps[..i] == qs[..i]
    requires qs[j] == ps[i] && (i < |qs| ==> k < |ps| && ps[k] == qs[i])
    ensures j == i
  {
    hide Earlier;
    if j < i {
      assert qs[j] == qs[..i][j] && ps[j] == ps[..i][j];
      RisingOnce(ps, i, j);
    } else if j > i {
      assert Earlier(qs[i], qs[j]);
      RisingOnce(ps, k, i);
      assert k < i ==> qs[k] == qs[..i][k] && ps[k] == ps[..i][k];
      if k < i {
        RisingOnce(qs, i, k);
      } else {
        RisingOnce(qs, j, i);
      }
    }
  }

  /** There is only one list in walk order. */
  lemma {:induction false} OrderIsUnique(s: Store, es: seq<Entry>, n: nat, st: seq<nat>, a: seq<Use>, ps: seq<seq<nat>>,
                                         b: seq<Use>, qs: seq<seq<nat>>, m: nat)
    requires InWalkOrder(s, es, n, st, a, ps) && InWalkOrder(s, es, n, st, b, qs) && m <= |a|
    ensures m <= |b| && a[..m] == b[..m] && ps[..m] == qs[..m]
  {
    hide Leads, Earlier, Covered;
    if m > 0 {
      var i := m - 1;
      OrderIsUnique(s, es, n, st, a, ps, b, qs, i);
      var j := SamePlace(s, es, n, st, a, ps, b, qs, i);
      var k := 0;
      if i < |b| {
        k := SamePlace(s, es, n, st, b, qs, a, ps, i);
      }
      NextPlace(ps, qs, i, j, k);
      assert a[..m] == a[..i] + [a[i]] && b[..m] == b[..i] + [b[i]];
      assert ps[..m] == ps[..i] + [ps[i]] && qs[..m] == qs[..i] + [qs[i]];
    }
  }

  /** A page's images have one walk order. */
  lemma OneWalkOrder(s: Store, r: Resources, a: seq<Use>, b: seq<Use>)
    requires WalkOrder(s, r, a) && WalkOrder(s, r, b)
    ensures a == b
  {
    hide InWalkOrder;
    var es := EntriesOf(r);
    var ps :| InWalkOrder(s, es, |es|, [], a, ps);
    var qs :| InWalkOrder(s, es, |es|, [], b, qs);
    OrderIsUnique(s, es, |es|, [], a, ps, b, qs, |a|);
    OrderIsUnique(s, es, |es|, [], b, qs, a, ps, |b|);
  }

  // The plain walk lists images in this order.

  /** A list partly extended by the images of the form that entry n names: those before the m-th, which stand under the
      paths cps below the form. */
  ghost predicate Partly(s: Store, es: seq<Entry>, n: nat, st: seq<nat>, child: seq<Use>, cps: seq<seq<nat>>, m: nat,
                         images: seq<Use>, ps: seq<seq<nat>>)
    requires m <= |child| == |cps|
  {
    && |ps| == |images|
    && (forall i :: 0 <= i < |images| ==>
          && Leads(s, es, st, ps[i], images[i])
          && (ps[i][0] < n || exists k :: 0 <= k < m && ps[i] == [n] + cps[k]))
    && (forall i, j :: 0 <= i < j < |images| ==> Earlier(ps[i], ps[j]) && images[i].num != images[j].num)
    && (forall at, u :: Leads(s, es, st, at, u) && at[0] < n ==> Covered(images, ps, at, u.num))
    && (forall k :: 0 <= k < m ==> Covered(images, ps, [n] + cps[k], child[k].num))
  }

  /** What was reached and is an image is listed. */
  ghost predicate SeenIsListed(s: Store, w: Plain) {
    && AllImages(s, w.images)
    && (forall i :: 0 <= i < |w.images| ==> w.images[i].num in w.seen)
    && (forall x :: x in w.seen && Lookup(s, x).Image? ==> Lists(w.images, x))
  }

  lemma StillCovered(images: seq<Use>, ps: seq<seq<nat>>, u: Use, p: seq<nat>, at: seq<nat>, num: nat)
    requires |ps| == |images| && Covered(images, ps, at, num)
    ensures Covered(images + [u], ps + [p], at, num)
  {
    var i :| 0 <= i < |images| && images[i].num == num && (ps[i] == at || Earlier(ps[i], at));
    assert (images + [u])[i] == images[i] && (ps + [p])[i] == ps[i];
  }

  lemma NewlyCovered(images: seq<Use>, ps: seq<seq<nat>>, u: Use, p: seq<nat>)
    requires |ps| == |images|
    ensures Covered(images + [u], ps + [p], p, u.num)
  {
    assert (images + [u])[|images|] == u && (ps + [p])[|ps|] == p;
  }

  lemma OldCovers(images: seq<Use>, ps: seq<seq<nat>>, i: nat, at: seq<nat>)
    requires i < |images| == |ps| && (ps[i] == at || Earlier(ps[i], at))
    ensures Covered(images, ps, at, images[i].num)
  {
  }

  /** A path one step longer. */
  lemma LeadsFrom(s: Store, es: seq<Entry>, n: nat, st: seq<nat>, at: seq<nat>, u: Use)
    requires n < |es| && FormRef(s, es[n]) && es[n].num !in st && |st| < MAX_FORM_WALK_DEPTH
    requires Leads(s, FormEntries(s, es[n].num), st + [es[n].num], at, u)
    ensures Leads(s, es, st, [n] + at, Use(u.num, u.gen, [es[n].key] + u.path))
  {
    assert ([n] + at)[1..] == at && ([es[n].key] + u.path)[1..] == u.path;
    assert Use(u.num, u.gen, u.path) == u;
  }

  lemma LaterThan(a: seq<nat>, n: nat, at: seq<nat>)
    requires a != [] && a[0] < n
    ensures Earlier(a, [n] + at)
  {
  }

  lemma AfterSame(n: nat, a: seq<nat>, b: seq<nat>)
    ensures Earlier([n] + a, [n] + b) == Earlier(a, b)
  {
    assert ([n] + a)[1..] == a && ([n] + b)[1..] == b;
  }

  /** The place of every image so far is before the path of the form's next one. */
  lemma PlacesBefore(s: Store, es: seq<Entry>, n: nat, st: seq<nat>, child: seq<Use>, cps: seq<seq<nat>>, m: nat,
                     images: seq<Use>, ps: seq<seq<nat>>, i: nat)
    requires n < |es| && FormRef(s, es[n]) && m < |child|
    requires InWalkOrder(s, FormEntries(s, es[n].num), |FormEntries(s, es[n].num)|, st + [es[n].num], child, cps)
    requires Partly(s, es, n, st, child, cps, m, images, ps) && i < |images|
    ensures Earlier(ps[i], [n] + cps[m])
  {
    hide Earlier, Covered;
    assert Leads(s, es, st, ps[i], images[i]);
    if ps[i][0] < n {
      LaterThan(ps[i], n, cps[m]);
    } else {
      var k :| 0 <= k < m && ps[i] == [n] + cps[k];
      AfterSame(n, cps[k], cps[m]);
    }
  }

  lemma CoversStay(s: Store, es: seq<Entry>, n: nat, st: seq<nat>, images: seq<Use>, ps: seq<seq<nat>>, v: Use,
                   p: seq<nat>)
    requires |ps| == |images| && forall at, u :: Leads(s, es, st, at, u) && at[0] < n ==> Covered(images, ps, at, u.num)
    ensures forall at, u :: Leads(s, es, st, at, u) && at[0] < n ==> Covered(images + [v], ps + [p], at, u.num)
  {
    hide Covered;
    forall at, u | Leads(s, es, st, at, u) && at[0] < n
      ensures Covered(images + [v], ps + [p], at, u.num)
    {
      StillCovered(images, ps, v, p, at, u.num);
    }
  }

  /** The form's next image, listed already. */
  lemma ListedAlready(s: Store, es: seq<Entry>, n: nat, st: seq<nat>, child: seq<Use>, cps: seq<seq<nat>>, m: nat,
                      images: seq<Use>, ps: seq<seq<nat>>)
    requires n < |es| && FormRef(s, es[n]) && m < |child| == |cps|
    requires InWalkOrder(s, FormEntries(s, es[n].num), |FormEntries(s, es[n].num)|, st + [es[n].num], child, cps)
    requires Partly(s, es, n, st, child, cps, m, images, ps) && Lists(images, child[m].num)
    ensures Partly(s, es, n, st, child, cps, m + 1, images, ps)
  {
    hide Earlier, Leads, InWalkOrder, Covered, FormRef;
    var i :| 0 <= i < |images| && images[i].num == child[m].num;
    PlacesBefore(s, es, n, st, child, cps, m, images, ps, i);
    OldCovers(images, ps, i, [n] + cps[m]);
  }

  lemma ChildLeads(s: Store, es: seq<Entry>, n: nat, st: seq<nat>, images: seq<Use>, ps: seq<seq<nat>>, m: nat)
    requires InWalkOrder(s, es, n, st, images, ps) && m < |images|
    ensures Leads(s, es, st, ps[m], images[m])
  {
  }

  /** The form's next image, appended under its path. */
  lemma AppendedNext(s: Store, es: seq<Entry>, n: nat, st: seq<nat>, child: seq<Use>, cps: seq<seq<nat>>, m: nat,
                     images: seq<Use>, ps: seq<seq<nat>>)
    requires n < |es| && FormRef(s, es[n]) && es[n].num !in st && |st| < MAX_FORM_WALK_DEPTH && m < |child| == |cps|
    requires InWalkOrder(s, FormEntries(s, es[n].num), |FormEntries(s, es[n].num)|, st + [es[n].num], child, cps)
    requires Partly(s, es, n, st, child, cps, m, images, ps) && !Lists(images, child[m].num)
    ensures var v := Use(child[m].num, child[m].gen, [es[n].key] + child[m].path);
      Partly(s, es, n, st, child, cps, m + 1, images + [v], ps + [[n] + cps[m]])
  {
    hide InWalkOrder, Leads, Earlier, Covered;
    var u, p := child[m], [n] + cps[m];
    var v := Use(u.num, u.gen, [es[n].key] + u.path);
    ChildLeads(s, FormEntries(s, es[n].num), |FormEntries(s, es[n].num)|, st + [es[n].num], child, cps, m);
    LeadsFrom(s, es, n, st, cps[m], u);
    CoversStay(s, es, n, st, images, ps, v, p);
    NewlyCovered(images, ps, v, p);
    forall i | 0 <= i < |ps|
      ensures Earlier(ps[i], p) && images[i].num != v.num
    {
      PlacesBefore(s, es, n, st, child, cps, m, images, ps, i);
    }
    forall k | 0 <= k < m
      ensures Covered(images + [v], ps + [p], [n] + cps[k], child[k].num)
    {
      StillCovered(images, ps, v, p, [n] + cps[k], child[k].num);
    }
  }

  /** One more image of the form: listed already, or appended under its path. */
  lemma OneMore(s: Store, es: seq<Entry>, n: nat, st: seq<nat>, child: seq<Use>, cps: seq<seq<nat>>, m: nat,
                w: Plain, ps: seq<seq<nat>>) returns (qs: seq<seq<nat>>)
    requires n < |es| && FormRef(s, es[n]) && es[n].num !in st && |st| < MAX_FORM_WALK_DEPTH
    requires InWalkOrder(s, FormEntries(s, es[n].num), |FormEntries(s, es[n].num)|, st + [es[n].num], child, cps)
    requires m < |child| && AllImages(s, child) && SeenIsListed(s, w)
    requires |child| == |cps| && Partly(s, es, n, st, child, cps, m, w.images, ps)
    ensures var u := child[m];
      var next := if u.num in w.seen then w
                  else Plain(w.images + [Use(u.num, u.gen, [es[n].key] + u.path)], w.seen + {u.num}, w.incomplete);
      SeenIsListed(s, next) && Partly(s, es, n, st, child, cps, m + 1, next.images, qs)
  {
    hide Partly, InWalkOrder;
    var u := child[m];
    if u.num in w.seen {
      qs := ps;
      ListedAlready(s, es, n, st, child, cps, m, w.images, ps);
    } else {
      qs := ps + [[n] + cps[m]];
      AppendedNext(s, es, n, st, child, cps, m, w.images, ps);
      SeenStays(s, w, Use(u.num, u.gen, [es[n].key] + u.path));
    }
  }

  lemma SeenStays(s: Store, w: Plain, v: Use)
    requires SeenIsListed(s, w) && Lookup(s, v.num).Image?
    ensures SeenIsListed(s, Plain(w.images + [v], w.seen + {v.num}, w.incomplete))
  {
    var images := w.images + [v];
    assert images[|w.images|] == v;
    forall x | Lists(w.images, x)
      ensures Lists(images, x)
    {
      var i :| 0 <= i < |w.images| && w.images[i].num == x;
      assert images[i].num == x;
    }
  }

  lemma {:induction false} MergeInOrder(s: Store, es: seq<Entry>, n: nat, st: seq<nat>, child: seq<Use>,
                                        cps: seq<seq<nat>>, m: nat, acc: Plain, ps: seq<seq<nat>>)
    returns (qs: seq<seq<nat>>)
    requires n < |es| && FormRef(s, es[n]) && es[n].num !in st && |st| < MAX_FORM_WALK_DEPTH
    requires InWalkOrder(s, FormEntries(s, es[n].num), |FormEntries(s, es[n].num)|, st + [es[n].num], child, cps)
    requires AllImages(s, child) && SeenIsListed(s, acc) && InWalkOrder(s, es, n, st, acc.images, ps)
    requires m <= |child|
    ensures var w := Merge(es[n].key, child, m, acc);
      SeenIsListed(s, w) && Partly(s, es, n, st, child, cps, m, w.images, qs)
  {
    hide Leads, Earlier, Covered, SeenIsListed;
    if m == 0 {
      qs := ps;
    } else {
      qs := MergeInOrder(s, es, n, st, child, cps, m - 1, acc, ps);
      qs := OneMore(s, es, n, st, child, cps, m - 1, Merge(es[n].key, child, m - 1, acc), qs);
    }
  }

  /** What covers the path below the form covers the path to it. */
  lemma CoveredThrough(images: seq<Use>, ps: seq<seq<nat>>, n: nat, child: seq<Use>, cps: seq<seq<nat>>, tail: seq<nat>,
                       num: nat)
    requires |ps| == |images| && |child| == |cps| && Covered(child, cps, tail, num)
    requires forall k :: 0 <= k < |child| ==> Covered(images, ps, [n] + cps[k], child[k].num)
    ensures Covered(images, ps, [n] + tail, num)
  {
    hide Earlier;
    var k :| 0 <= k < |child| && child[k].num == num && (cps[k] == tail || Earlier(cps[k], tail));
    AfterSame(n, cps[k], tail);
    assert Covered(images, ps, [n] + cps[k], child[k].num);
    var i :| 0 <= i < |images| && images[i].num == num && (ps[i] == [n] + cps[k] || Earlier(ps[i], [n] + cps[k]));
    EarlierIsOrder(ps[i], [n] + cps[k], [n] + tail);
  }

  lemma BelowForm(s: Store, es: seq<Entry>, n: nat, st: seq<nat>, at: seq<nat>, u: Use)
    requires n < |es| && FormRef(s, es[n]) && Leads(s, es, st, at, u) && at[0] == n
    ensures at == [n] + at[1..]
    ensures Leads(s, FormEntries(s, es[n].num), st + [es[n].num], at[1..], Use(u.num, u.gen, u.path[1..]))
  {
  }

  /** Once all the form's images are merged, every path through the first n + 1 entries is covered. */
  lemma MergedInOrder(s: Store, es: seq<Entry>, n: nat, st: seq<nat>, child: seq<Use>, cps: seq<seq<nat>>,
                      images: seq<Use>, ps: seq<seq<nat>>)
    requires n < |es| && FormRef(s, es[n])
    requires InWalkOrder(s, FormEntries(s, es[n].num), |FormEntries(s, es[n].num)|, st + [es[n].num], child, cps)
    requires Partly(s, es, n, st, child, cps, |child|, images, ps)
    ensures InWalkOrder(s, es, n + 1, st, images, ps)
  {
    hide Earlier, Covered, FormRef;
    forall at, u | Leads(s, es, st, at, u) && at[0] < n + 1
      ensures Covered(images, ps, at, u.num)
    {
      if at[0] == n {
        BelowForm(s, es, n, st, at, u);
        FormIsEntered(s, FormEntries(s, es[n].num), st + [es[n].num], at[1..], Use(u.num, u.gen, u.path[1..]));
        CoveredThrough(images, ps, n, child, cps, at[1..], u.num);
      }
    }
  }

  lemma FormIsEntered(s: Store, es: seq<Entry>, st: seq<nat>, at: seq<nat>, u: Use)
    requires Leads(s, es, st, at, u)
    ensures at != [] && at[0] < |es|
  {
  }

  /** A path through a later entry is behind that of any image listed so far. */
  lemma BehindAll(images: seq<Use>, ps: seq<seq<nat>>, n: nat, at: seq<nat>, num: nat)
    requires |ps| == |images| && Lists(images, num) && at != [] && at[0] == n
    requires forall i :: 0 <= i < |ps| ==> ps[i] != [] && ps[i][0] < n
    ensures Covered(images, ps, at, num)
  {
    var i :| 0 <= i < |images| && images[i].num == num;
    LaterThan(ps[i], n, at[1..]);
    assert at == [n] + at[1..];
  }

  /** An entry that adds no path of its own leaves the order as it is. */
  lemma SameOrder(s: Store, es: seq<Entry>, n: nat, st: seq<nat>, images: seq<Use>, ps: seq<seq<nat>>)
    requires n < |es| && InWalkOrder(s, es, n, st, images, ps)
    requires forall at, u :: Leads(s, es, st, at, u) && at[0] == n ==> Lists(images, u.num)
    ensures InWalkOrder(s, es, n + 1, st, images, ps)
  {
    forall at, u | Leads(s, es, st, at, u) && at[0] == n
      ensures Covered(images, ps, at, u.num)
    {
      assert Lists(images, u.num);
      BehindAll(images, ps, n, at, u.num);
    }
  }

  /** A form named again leads to nothing that it did not lead to before. */
  lemma NamedAgain(s: Store, es: seq<Entry>, n: nat, j: nat, st: seq<nat>, images: seq<Use>, ps: seq<seq<nat>>)
    requires j < n < |es| && InWalkOrder(s, es, n, st, images, ps)
    requires FormRef(s, es[j]) && FormRef(s, es[n]) && es[j].num == es[n].num
    ensures InWalkOrder(s, es, n + 1, st, images, ps)
  {
    forall at, u | Leads(s, es, st, at, u) && at[0] == n
      ensures Lists(images, u.num)
    {
      var from, v := [j] + at[1..], Use(u.num, u.gen, [es[j].key] + u.path[1..]);
      assert from[1..] == at[1..] && v.path[1..] == u.path[1..];
      assert Leads(s, es, st, from, v);
      assert Covered(images, ps, from, u.num);
    }
    SameOrder(s, es, n, st, images, ps);
  }

  /** An image not reached before stands last. */
  lemma ImageInOrder(s: Store, es: seq<Entry>, n: nat, st: seq<nat>, images: seq<Use>, ps: seq<seq<nat>>)
    requires n < |es| && ImageRef(s, es[n]) && es[n].num !in st && !Lists(images, es[n].num)
    requires InWalkOrder(s, es, n, st, images, ps)
    ensures InWalkOrder(s, es, n + 1, st, images + [Use(es[n].num, es[n].gen, [es[n].key])], ps + [[n]])
  {
    var v, p := Use(es[n].num, es[n].gen, [es[n].key]), [n];
    assert Leads(s, es, st, p, v);
    forall i | 0 <= i < |ps|
      ensures Earlier(ps[i], p) && images[i].num != v.num
    {
      LaterThan(ps[i], n, []);
      assert [n] + [] == p;
    }
    forall at, u | Leads(s, es, st, at, u) && at[0] < n + 1
      ensures Covered(images + [v], ps + [p], at, u.num)
    {
      if at[0] < n {
        StillCovered(images, ps, v, p, at, u.num);
      } else {
        assert at == p;
        NewlyCovered(images, ps, v, p);
      }
    }
  }

  lemma WellListedIsListed(s: Store, es: seq<Entry>, n: nat, w: Plain)
    requires n <= |es| && WellListed(s, es, n, w)
    ensures SeenIsListed(s, w)
  {
  }

  /** The plain walk lists images in walk order. */
  lemma {:induction false} PlainInOrder(s: Store, es: seq<Entry>, n: nat, st: seq<nat>) returns (ps: seq<seq<nat>>)
    requires n <= |es| && |st| <= MAX_FORM_WALK_DEPTH
    ensures InWalkOrder(s, es, n, st, PlainWalk(s, es, n, st).images, ps)
    decreases MAX_FORM_WALK_DEPTH - |st|, n
  {
    ps := [];
    if n > 0 {
      hide InWalkOrder, Partly, SeenIsListed, WellListed;
      ps := PlainInOrder(s, es, n - 1, st);
      PlainIsWellListed(s, es, n - 1, st);
      ps := EntryInOrder(s, es, n - 1, st, PlainWalk(s, es, n - 1, st), ps);
    }
  }

  lemma {:induction false} EntryInOrder(s: Store, es: seq<Entry>, n: nat, st: seq<nat>, a: Plain, ps: seq<seq<nat>>)
    returns (qs: seq<seq<nat>>)
    requires n < |es| && |st| <= MAX_FORM_WALK_DEPTH && WellListed(s, es, n, a)
    requires InWalkOrder(s, es, n, st, a.images, ps)
    ensures InWalkOrder(s, es, n + 1, st, PlainEntry(s, es[n], st, a).images, qs)
    decreases MAX_FORM_WALK_DEPTH - |st|, n
  {
    hide InWalkOrder, Partly, SeenIsListed;
    var e := es[n];
    qs := ps;
    if e.Ref? && e.num in a.seen {
      if Lookup(s, e.num).Image? && Lists(a.images, e.num) {
        SameOrder(s, es, n, st, a.images, ps);
      } else {
        var j :| 0 <= j < n && FormRef(s, es[j]) && es[j].num == e.num;
        NamedAgain(s, es, n, j, st, a.images, ps);
      }
    } else if e.Ref? && e.num !in st && ImageRef(s, e) {
      NotListed(s, es, n, a, e.num);
      ImageInOrder(s, es, n, st, a.images, ps);
      qs := ps + [[n]];
    } else if e.Ref? && e.num !in st && FormRef(s, e) && |st| < MAX_FORM_WALK_DEPTH {
      qs := FormInOrder(s, es, n, st, a, ps);
    } else {
      SameOrder(s, es, n, st, a.images, ps);
    }
  }

  lemma NotListed(s: Store, es: seq<Entry>, n: nat, a: Plain, x: nat)
    requires n <= |es| && WellListed(s, es, n, a) && x !in a.seen
    ensures !Lists(a.images, x)
  {
  }

  lemma {:induction false} FormInOrder(s: Store, es: seq<Entry>, n: nat, st: seq<nat>, a: Plain, ps: seq<seq<nat>>)
    returns (qs: seq<seq<nat>>)
    requires n < |es| && |st| < MAX_FORM_WALK_DEPTH && WellListed(s, es, n, a)
    requires InWalkOrder(s, es, n, st, a.images, ps)
    requires FormRef(s, es[n]) && es[n].num !in st && es[n].num !in a.seen
    ensures InWalkOrder(s, es, n + 1, st, PlainEntry(s, es[n], st, a).images, qs)
    decreases MAX_FORM_WALK_DEPTH - |st| - 1, |FormEntries(s, es[n].num)| + 1
  {
    hide InWalkOrder, Partly, SeenIsListed;
    var f, fs := es[n].num, FormEntries(s, es[n].num);
    var c := PlainForm(s, Lookup(s, f).resources, f, st);
    var cps := PlainInOrder(s, fs, |fs|, st + [f]);
    assert c.images == PlainWalk(s, fs, |fs|, st + [f]).images;
    PlainFormListsImages(s, f, st);
    WellListedIsListed(s, es, n, a);
    var acc := Plain(a.images, a.seen + {f}, a.incomplete || c.incomplete);
    FormSeen(s, a, f, acc);
    qs := MergeInOrder(s, es, n, st, c.images, cps, |c.images|, acc, ps);
    MergedInOrder(s, es, n, st, c.images, cps, PlainEntry(s, es[n], st, a).images, qs);
  }

  lemma FormSeen(s: Store, a: Plain, f: nat, acc: Plain)
    requires SeenIsListed(s, a) && Lookup(s, f).Form? && acc == Plain(a.images, a.seen + {f}, acc.incomplete)
    ensures SeenIsListed(s, acc)
  {
  }

  /** A page's images are listed in walk order. */
  lemma PageInOrder(s: Store, r: Resources)
    ensures WalkOrder(s, r, PlainPage(s, r).images)
  {
    hide InWalkOrder;
    var es := EntriesOf(r);
    var ps := PlainInOrder(s, es, |es|, []);
    assert PlainPage(s, r).images == PlainWalk(s, es, |es|, []).images;
  }
}
