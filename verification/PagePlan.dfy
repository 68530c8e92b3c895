/** Page trees as they may be planned, and the pages a walk lists of one. */
module PagePlan {
  import opened PdfObjects
  import opened PageTree
  import opened PageLog
  import opened PageNumbers

  /** A page, or a group of pages and groups; each with the attributes that it has of its own. */
  datatype Plan = Sheet(own: map<string, Obj>) | Group(own: map<string, Obj>, kids: seq<Plan>)

  /** What an entry stands for: the object it refers to, or itself. */
  function Stored(s: Store, o: Obj): Obj {
    if o.Ref? && o.num in s then s[o.num] else o
  }

  predicate Stands(s: Store, m: map<string, Obj>, key: string, v: Obj) {
    key in m && Stored(s, m[key]) == v
  }

  predicate OwnIs(s: Store, m: map<string, Obj>, own: map<string, Obj>, key: string) {
    if key in own then !own[key].Null? && !own[key].Ref? && Stands(s, m, key, own[key]) else key !in m
  }

  predicate AllOwn(s: Store, m: map<string, Obj>, own: map<string, Obj>) {
    && OwnIs(s, m, own, "Resources") && OwnIs(s, m, own, "MediaBox") && OwnIs(s, m, own, "CropBox")
    && OwnIs(s, m, own, "Rotate")
  }

  predicate HasOtherType(s: Store, m: map<string, Obj>) {
    "Type" !in m || (Stored(s, m["Type"]).Scalar? && Stored(s, m["Type"]).raw != "/Page")
  }

  /** The object is a dictionary, or a reference to one, made as planned: a page says so with its type, or has no kids
      and is not typed as a group; a group has an array of kids, each made as planned. */
  predicate Planted(s: Store, o: Obj, plan: Plan)
    decreases plan
  {
    var d := Stored(s, o);
    d.Dict? && AllOwn(s, d.entries, plan.own) &&
    match plan
    case Sheet(_) =>
      || Stands(s, d.entries, "Type", Scalar("/Page"))
      || ("Kids" !in d.entries && HasOtherType(s, d.entries) && !Stands(s, d.entries, "Type", Scalar("/Pages")))
    case Group(_, kids) =>
      && HasOtherType(s, d.entries) && "Kids" in d.entries
      && var a := Stored(s, d.entries["Kids"]);
      && a.Array? && |a.elems| == |kids|
      && forall i :: 0 <= i < |kids| ==> Planted(s, a.elems[i], kids[i])
  }

  /** Groups stand in at most n groups, themselves included. */
  predicate Fits(plan: Plan, n: nat)
    decreases plan
  {
    plan.Sheet? || (n > 0 && forall i :: 0 <= i < |plan.kids| ==> Fits(plan.kids[i], n - 1))
  }

  /** A page with the attributes in effect. */
  datatype PlannedPage = PlannedPage(dict: map<string, Obj>, ref: Option<RefKey>, attrs: map<string, Obj>)

  function RefIn(o: Obj): Option<RefKey> {
    if o.Ref? then Some((o.num, o.gen)) else None
  }

  /** The pages in order, below attributes that hold above. */
  function Pages(s: Store, o: Obj, plan: Plan, above: map<string, Obj>): seq<PlannedPage>
    requires Planted(s, o, plan)
    decreases plan, 1
  {
    match plan
    case Sheet(own) => [PlannedPage(Stored(s, o).entries, RefIn(o), above + own)]
    case Group(own, kids) => KidPages(s, o, plan, |kids|, above + own)
  }

  function KidPages(s: Store, o: Obj, plan: Plan, n: nat, above: map<string, Obj>): seq<PlannedPage>
    requires plan.Group? && Planted(s, o, plan) && n <= |plan.kids|
    decreases plan, 0, n
  {
    if n == 0 then []
    else
      KidPages(s, o, plan, n - 1, above)
      + Pages(s, Stored(s, Stored(s, o).entries["Kids"]).elems[n - 1], plan.kids[n - 1], above)
  }

  // Where the plan's parts stand.

  function PlanAt(plan: Plan, p: Position): Option<Plan>
    decreases |p|
  {
    if p == [] then Some(plan)
    else
      var n := |p| - 1;
      match PlanAt(plan, p[..n])
      case Some(Group(_, kids)) => if p[n] < |kids| then Some(kids[p[n]]) else None
      case _ => None
  }

  lemma PlantedNode(s: Store, o: Obj, plan: Plan)
    requires Planted(s, o, plan)
    ensures Stored(s, o).Dict? && DictOf(s, o) == Some(Stored(s, o).entries)
    ensures KindOf(s, Stored(s, o).entries) == if plan.Sheet? then PageNode else Intermediate
    ensures plan.Group? ==> KidsOf(s, Stored(s, o).entries) == Some(Stored(s, Stored(s, o).entries["Kids"]).elems)
    ensures plan.Sheet? ==> KidsOf(s, Stored(s, o).entries) == None
  {
    var d := Stored(s, o);
    assert Lookup(s, o) == Some(d);
    var m := d.entries;
    if "Type" in m {
      var typ := Stored(s, m["Type"]);
      assert typ.Scalar? ==> Lookup(s, Own(m, "Type")) == Some(typ);
    } else {
      assert Lookup(s, Own(m, "Type")) == None;
    }
  }

  /** What stands at a position is made as planned there, and nothing stands where nothing is planned. */
  lemma {:induction false} AtIsPlanned(t: Tree, plan: Plan, p: Position)
    requires Planted(t.store, t.root, plan)
    ensures At(t, p).Some? <==> PlanAt(plan, p).Some?
    ensures At(t, p).Some? ==> Planted(t.store, At(t, p).value, PlanAt(plan, p).value)
    decreases |p|
  {
    hide KindOf, KidsOf, DictOf, Lookup;
    if p != [] {
      var n := |p| - 1;
      AtIsPlanned(t, plan, p[..n]);
      if At(t, p[..n]).Some? {
        var o, g := At(t, p[..n]).value, PlanAt(plan, p[..n]).value;
        PlantedNode(t.store, o, g);
        assert DictAt(t, p[..n]) == Some(Stored(t.store, o).entries);
        assert KidsAt(t, p[..n]) == KidsOf(t.store, Stored(t.store, o).entries);
      } else {
        assert DictAt(t, p[..n]) == None;
        assert KidsAt(t, p[..n]) == None;
      }
    }
  }

  ghost predicate IsGroupAt(plan: Plan, p: Position) {
    PlanAt(plan, p).Some? && PlanAt(plan, p).value.Group?
  }

  ghost predicate IsSheetAt(plan: Plan, p: Position) {
    PlanAt(plan, p).Some? && PlanAt(plan, p).value.Sheet?
  }

  /** No two groups are the same object. */
  ghost predicate GroupsApart(t: Tree, plan: Plan) {
    forall p, q :: IsGroupAt(plan, p) && IsGroupAt(plan, q) && p != q ==> !SameNode(t, p, q)
  }

  lemma {:induction false} GroupsFit(plan: Plan, n: nat, p: Position)
    requires Fits(plan, n) && PlanAt(plan, p).Some?
    ensures PlanAt(plan, p).value.Group? ==> |p| < n && Fits(PlanAt(plan, p).value, n - |p|)
    decreases |p|
  {
    if p != [] {
      GroupsFit(plan, n, p[..|p| - 1]);
      hide PlanAt;
      var g := ParentPlan(plan, p);
      assert Fits(g.kids[p[|p| - 1]], n - (|p| - 1) - 1);
    }
  }

  lemma ParentPlan(plan: Plan, p: Position) returns (g: Plan)
    requires p != [] && PlanAt(plan, p).Some?
    ensures PlanAt(plan, p[..|p| - 1]) == Some(g) && g.Group? && p[|p| - 1] < |g.kids|
    ensures PlanAt(plan, p) == Some(g.kids[p[|p| - 1]])
  {
    g := PlanAt(plan, p[..|p| - 1]).value;
  }

  lemma {:induction false} NothingBelow(plan: Plan, p: Position, q: Position)
    requires IsSheetAt(plan, p) && p <= q && PlanAt(plan, q).Some?
    ensures p == q
    decreases |q|
  {
    if p != q {
      hide PlanAt;
      var g := ParentPlan(plan, q);
      assert p <= q[..|q| - 1];
      NothingBelow(plan, p, q[..|q| - 1]);
    }
  }

  // A walk of a planted tree lists its pages and nothing else.

  lemma SameKind(t: Tree, plan: Plan, p: Position, q: Position)
    requires Planted(t.store, t.root, plan) && SameNode(t, p, q)
    ensures IsGroupAt(plan, p) <==> IsGroupAt(plan, q)
  {
    hide KindOf, KidsOf, DictOf;
    AtIsPlanned(t, plan, p);
    AtIsPlanned(t, plan, q);
    PlantedNode(t.store, At(t, p).value, PlanAt(plan, p).value);
    PlantedNode(t.store, At(t, q).value, PlanAt(plan, q).value);
  }

  lemma KindIsPlanned(t: Tree, plan: Plan, p: Position)
    requires Planted(t.store, t.root, plan) && At(t, p).Some?
    ensures PlanAt(plan, p).Some? && DictAt(t, p).Some?
    ensures KindAt(t, p, Intermediate) <==> IsGroupAt(plan, p)
    ensures KindAt(t, p, PageNode) <==> IsSheetAt(plan, p)
    ensures !KindAt(t, p, Hollow) && (IsGroupAt(plan, p) ==> KidsAt(t, p).Some?)
    ensures At(t, p) != Some(Null) && Lookup(t.store, At(t, p).value).Some?
  {
    hide KindOf, KidsOf;
    AtIsPlanned(t, plan, p);
    PlantedNode(t.store, At(t, p).value, PlanAt(plan, p).value);
  }

  lemma RowIsSheet(t: Tree, plan: Plan, log: Log, j: nat)
    requires Planted(t.store, t.root, plan) && Fits(plan, 1024) && GroupsApart(t, plan)
    requires Faithful(t, log) && j < |log.rows|
    ensures |log.places| == |log.rows| && log.rows[j].Page? && IsSheetAt(plan, log.places[j])
  {
    hide KindAt, At, DictAt, KidsAt, PlanAt, Lookup, Fits, GroupsApart, SameNode;
    var p := log.places[j];
    assert RowHolds(t, log.rows[j], p, log.down);
    KindIsPlanned(t, plan, p);
    if log.rows[j].Problem? {
      GroupsFit(plan, 1024, p);
      forall q | q in log.down && SameNode(t, p, q)
        ensures q == p
      {
        GroupOnce(t, plan, p, q);
      }
      EarlierDiffers(p);
      assert false;
    }
    PageIsKind(t, p);
  }

  lemma PageIsKind(t: Tree, p: Position)
    ensures IsPage(t, p) <==> KindAt(t, p, PageNode)
  {
  }

  lemma EarlierDiffers(p: Position)
    ensures !Earlier(p, p)
  {
  }

  lemma GroupOnce(t: Tree, plan: Plan, p: Position, q: Position)
    requires Planted(t.store, t.root, plan) && GroupsApart(t, plan) && SameNode(t, p, q)
    ensures KindAt(t, q, Intermediate) ==> p == q
  {
    hide KindOf, At, PlanAt;
    if KindAt(t, q, Intermediate) {
      DictHasPlace(t, q);
      KindIsPlanned(t, plan, q);
      SameKind(t, plan, p, q);
    }
  }

  lemma DictHasPlace(t: Tree, q: Position)
    requires DictAt(t, q).Some?
    ensures At(t, q).Some?
  {
  }

  lemma SheetIsListed(t: Tree, plan: Plan, log: Log, p: Position)
    requires Planted(t.store, t.root, plan) && Fits(plan, 1024) && GroupsApart(t, plan)
    requires Faithful(t, log) && Covered(t, log, []) && IsSheetAt(plan, p)
    ensures p in log.places
  {
    hide KindAt, At, DictAt, KidsAt, PlanAt, Lookup, Fits, GroupsApart, SameNode;
    AtIsPlanned(t, plan, p);
    KindIsPlanned(t, plan, p);
    assert [] <= p && !KindAt(t, p, Intermediate);
    var r :| r in log.places && r <= p;
    var j :| 0 <= j < |log.places| && log.places[j] == r;
    assert |log.places| == |log.rows|;
    RowIsSheet(t, plan, log, j);
    NothingBelow(plan, r, p);
  }

  // The pages in order.

  function Below(i: nat, ps: seq<Position>): (r: seq<Position>)
    ensures |r| == |ps| && forall j :: 0 <= j < |ps| ==> r[j] == [i] + ps[j]
  {
    seq(|ps|, j requires 0 <= j < |ps| => [i] + ps[j])
  }

  /** Where the pages of a plan stand, in order. */
  function Sheets(plan: Plan): seq<Position>
    decreases plan, 1
  {
    match plan
    case Sheet(_) => [[]]
    case Group(_, kids) => KidSheets(plan, |kids|)
  }

  function KidSheets(plan: Plan, n: nat): seq<Position>
    requires plan.Group? && n <= |plan.kids|
    decreases plan, 0, n
  {
    if n == 0 then [] else KidSheets(plan, n - 1) + Below(n - 1, Sheets(plan.kids[n - 1]))
  }

  lemma {:induction false} PlanBelow(plan: Plan, i: nat, p: Position)
    requires plan.Group? && i < |plan.kids|
    ensures PlanAt(plan, [i] + p) == PlanAt(plan.kids[i], p)
    decreases |p|
  {
    if p == [] {
      assert [i] + p == [i] && [i][..0] == [];
      assert PlanAt(plan, []) == Some(plan);
    } else {
      assert ([i] + p)[..|p|] == [i] + p[..|p| - 1];
      PlanBelow(plan, i, p[..|p| - 1]);
    }
  }

  lemma {:induction false} SheetsStand(plan: Plan, p: Position)
    ensures p in Sheets(plan) <==> IsSheetAt(plan, p)
    decreases plan, 1
  {
    hide PlanAt;
    if plan.Sheet? {
      if p == [] {
        TopPlan(plan);
      } else if IsSheetAt(plan, p) {
        TopPlan(plan);
        NothingBelow(plan, [], p);
      }
    } else {
      KidSheetsStand(plan, |plan.kids|, p);
      if p == [] {
        TopPlan(plan);
      } else if IsSheetAt(plan, p) {
        FirstStep(plan, p);
      }
    }
  }

  lemma TopPlan(plan: Plan)
    ensures PlanAt(plan, []) == Some(plan)
  {
  }

  lemma {:induction false} FirstStep(plan: Plan, p: Position)
    requires plan.Group? && p != [] && PlanAt(plan, p).Some?
    ensures p[0] < |plan.kids|
    decreases |p|
  {
    hide PlanAt;
    var g := ParentPlan(plan, p);
    if |p| == 1 {
      assert p[..0] == [];
      TopPlan(plan);
    } else {
      FirstStep(plan, p[..|p| - 1]);
    }
  }

  lemma {:induction false} KidSheetsStand(plan: Plan, n: nat, p: Position)
    requires plan.Group? && n <= |plan.kids|
    ensures p in KidSheets(plan, n) <==> p != [] && p[0] < n && IsSheetAt(plan, p)
    decreases plan, 0, n
  {
    hide IsSheetAt, PlanAt;
    if n > 0 {
      KidSheetsStand(plan, n - 1, p);
      var b := Below(n - 1, Sheets(plan.kids[n - 1]));
      if p != [] && p[0] == n - 1 {
        var q := p[1..];
        assert p == [n - 1] + q;
        SheetBelow(plan, n - 1, q);
        SheetsStand(plan.kids[n - 1], q);
        BelowHolds(n - 1, Sheets(plan.kids[n - 1]), q);
      }
      assert p in b ==> p != [] && p[0] == n - 1;
    }
  }

  lemma BelowHolds(i: nat, ps: seq<Position>, q: Position)
    ensures [i] + q in Below(i, ps) <==> q in ps
  {
    var b := Below(i, ps);
    if [i] + q in b {
      var j :| 0 <= j < |b| && b[j] == [i] + q;
      assert ([i] + q)[1..] == q && ([i] + ps[j])[1..] == ps[j];
    }
    if q in ps {
      var j :| 0 <= j < |ps| && ps[j] == q;
      assert b[j] == [i] + q;
    }
  }

  lemma SheetBelow(plan: Plan, i: nat, q: Position)
    requires plan.Group? && i < |plan.kids|
    ensures IsSheetAt(plan, [i] + q) <==> IsSheetAt(plan.kids[i], q)
  {
    PlanBelow(plan, i, q);
  }

  lemma {:induction false} SheetsInOrder(plan: Plan)
    ensures InOrder(Sheets(plan))
    decreases plan, 1
  {
    if plan.Group? {
      KidSheetsInOrder(plan, |plan.kids|);
    }
  }

  lemma {:induction false} KidSheetsInOrder(plan: Plan, n: nat)
    requires plan.Group? && n <= |plan.kids|
    ensures InOrder(KidSheets(plan, n))
    decreases plan, 0, n
  {
    hide Earlier, IsSheetAt;
    if n > 0 {
      KidSheetsInOrder(plan, n - 1);
      SheetsInOrder(plan.kids[n - 1]);
      var a, b := KidSheets(plan, n - 1), Below(n - 1, Sheets(plan.kids[n - 1]));
      BelowInOrder(n - 1, Sheets(plan.kids[n - 1]));
      forall i, j | 0 <= i < |a| && 0 <= j < |b|
        ensures Earlier(a[i], b[j])
      {
        assert a[i] in a;
        KidSheetsStand(plan, n - 1, a[i]);
        FirstDecides(a[i], b[j]);
      }
      OrderJoins(a, b);
    }
  }

  lemma FirstDecides(p: Position, q: Position)
    requires p != [] && q != [] && p[0] < q[0]
    ensures Earlier(p, q)
  {
    assert EarlierAt(p, q, 0);
  }

  lemma OrderJoins(a: seq<Position>, b: seq<Position>)
    requires InOrder(a) && InOrder(b)
    requires forall i, j :: 0 <= i < |a| && 0 <= j < |b| ==> Earlier(a[i], b[j])
    ensures InOrder(a + b)
  {
    hide Earlier;
  }

  lemma BelowInOrder(i: nat, ps: seq<Position>)
    requires InOrder(ps)
    ensures InOrder(Below(i, ps))
  {
    var b := Below(i, ps);
    forall j, k | 0 <= j < k < |b|
      ensures Earlier(b[j], b[k])
    {
      var m: nat :| EarlierAt(ps[j], ps[k], m);
      assert b[j][..m + 1] == [i] + ps[j][..m] && b[k][..m + 1] == [i] + ps[k][..m];
      assert EarlierAt(b[j], b[k], m + 1);
    }
  }

  lemma NotBoth(p: Position, q: Position)
    ensures !(Earlier(p, q) && Earlier(q, p))
  {
    if j: nat :| EarlierAt(p, q, j) {
      forall k: nat
        ensures !EarlierAt(q, p, k)
      {
        if j < k && k <= |p| && k <= |q| && p[..k] == q[..k] {
          AgreeBefore(p, q, j, k);
        } else if k < j {
          AgreeBefore(p, q, k, j);
        }
      }
    }
  }

  lemma AgreeBefore(p: Position, q: Position, j: nat, k: nat)
    requires j < k && k <= |p| && k <= |q| && p[..k] == q[..k]
    ensures p[j] == q[j]
  {
    assert p[j] == p[..k][j] && q[j] == q[..k][j];
  }

  /** Positions in order are told by what they are. */
  lemma {:induction false} OneOrder(a: seq<Position>, b: seq<Position>)
    requires InOrder(a) && InOrder(b) && forall p :: p in a <==> p in b
    ensures a == b
    decreases |a|
  {
    hide Earlier;
    assert (a != [] ==> a[0] in a) && (b != [] ==> b[0] in b);
    if a != [] {
      SameFirst(a, b);
      assert a == [a[0]] + a[1..] && b == [b[0]] + b[1..];
      forall p
        ensures p in a[1..] <==> p in b[1..]
      {
        RestOf(a, p);
        RestOf(b, p);
      }
      OneOrder(a[1..], b[1..]);
    }
  }

  lemma SameFirst(a: seq<Position>, b: seq<Position>)
    requires InOrder(a) && InOrder(b) && (forall p :: p in a <==> p in b) && a != [] && b != []
    ensures a[0] == b[0]
  {
    hide Earlier;
    assert a[0] in b && b[0] in a;
    var i :| 0 <= i < |b| && b[i] == a[0];
    var j :| 0 <= j < |a| && a[j] == b[0];
    NotBoth(a[0], b[0]);
  }

  lemma RestOf(a: seq<Position>, p: Position)
    requires a != [] && InOrder(a)
    ensures p in a[1..] <==> p in a && p != a[0]
  {
    if p in a[1..] {
      var i :| 0 <= i < |a| - 1 && a[1..][i] == p;
      assert a[i + 1] == p && Earlier(a[0], a[i + 1]);
      EarlierDiffers(p);
    }
  }

  /** The listed places are those of the planned pages, in their order. */
  lemma PlacesArePlanned(t: Tree, plan: Plan, log: Log)
    requires Planted(t.store, t.root, plan) && Fits(plan, 1024) && GroupsApart(t, plan)
    requires Faithful(t, log) && Covered(t, log, [])
    ensures log.places == Sheets(plan) && |log.rows| == |log.places|
    ensures forall j :: 0 <= j < |log.rows| ==> log.rows[j].Page?
  {
    hide Planted, Fits, GroupsApart, Covered, IsSheetAt, RowHolds, DownHolds, Earlier;
    forall p
      ensures p in log.places <==> p in Sheets(plan)
    {
      SheetsStand(plan, p);
      if p in log.places {
        var j :| 0 <= j < |log.places| && log.places[j] == p;
        RowIsSheet(t, plan, log, j);
      }
      if IsSheetAt(plan, p) {
        SheetIsListed(t, plan, log, p);
      }
    }
    forall j | 0 <= j < |log.rows|
      ensures log.rows[j].Page?
    {
      RowIsSheet(t, plan, log, j);
    }
    SheetsInOrder(plan);
    OneOrder(log.places, Sheets(plan));
  }

  // What is listed of each page.

  /** A planned page is what stands at a position, with the attributes in effect there. */
  ghost predicate PageStands(t: Tree, p: Position, page: PlannedPage) {
    && DictAt(t, p) == Some(page.dict) && At(t, p).Some? && RefOf(At(t, p).value) == page.ref
    && forall i :: 0 <= i < 4 ==>
         InEffect(t, p, page.attrs, ATTRIBUTES[i]) && OwnResolves(t.store, page.dict, ATTRIBUTES[i])
  }

  predicate OwnResolves(s: Store, m: map<string, Obj>, key: string) {
    key in m <==> Lookup(s, Own(m, key)).Some?
  }

  predicate InEffect(t: Tree, p: Position, attrs: map<string, Obj>, key: string) {
    AttrAt(t, p, key).value == if key in attrs then Some(attrs[key]) else None
  }

  ghost predicate AllInEffect(t: Tree, p: Position, attrs: map<string, Obj>) {
    forall i :: 0 <= i < 4 ==> InEffect(t, p, attrs, ATTRIBUTES[i])
  }

  /** Attributes in effect above a node, and its own, are in effect at it. */
  lemma OwnOverrides(t: Tree, plan: Plan, p: Position, above: map<string, Obj>)
    requires Planted(t.store, t.root, plan) && PlanAt(plan, p).Some?
    requires if p == [] then above == map[] else AllInEffect(t, p[..|p| - 1], above)
    ensures AllInEffect(t, p, above + PlanAt(plan, p).value.own)
  {
    hide KindOf, KidsOf, PlanAt;
    AtIsPlanned(t, plan, p);
    var g := PlanAt(plan, p).value;
    PlantedNode(t.store, At(t, p).value, g);
    var m := DictAt(t, p).value;
    forall i | 0 <= i < 4
      ensures InEffect(t, p, above + g.own, ATTRIBUTES[i])
    {
      OwnIsPlanned(t.store, m, g.own, i);
      assert p != [] ==> InEffect(t, p[..|p| - 1], above, ATTRIBUTES[i]);
    }
  }

  lemma OwnIsPlanned(s: Store, m: map<string, Obj>, own: map<string, Obj>, i: nat)
    requires AllOwn(s, m, own) && i < 4
    ensures var key := ATTRIBUTES[i];
      OwnResolves(s, m, key)
      && if key in own then !Own(m, key).Null? && Lookup(s, Own(m, key)) == Some(own[key]) else Own(m, key).Null?
  {
  }

  /** The planned pages below a position stand in order at the places planned. */
  ghost predicate PagesStand(t: Tree, p: Position, places: seq<Position>, pages: seq<PlannedPage>) {
    |places| == |pages| && forall j :: 0 <= j < |places| ==> PageStands(t, p + places[j], pages[j])
  }

  lemma {:induction false} PagesArePlanned(t: Tree, whole: Plan, plan: Plan, p: Position, above: map<string, Obj>)
    requires Planted(t.store, t.root, whole) && PlanAt(whole, p) == Some(plan)
    requires if p == [] then above == map[] else AllInEffect(t, p[..|p| - 1], above)
    ensures At(t, p).Some? && Planted(t.store, At(t, p).value, plan)
    ensures PagesStand(t, p, Sheets(plan), Pages(t.store, At(t, p).value, plan, above))
    decreases plan, 1
  {
    hide KindOf, KidsOf, PlanAt, AllInEffect, Planted;
    AtIsPlanned(t, whole, p);
    PlantedNode(t.store, At(t, p).value, plan);
    OwnOverrides(t, whole, p, above);
    if plan.Sheet? {
      SheetStands(t, p, plan, above);
    } else {
      KidPagesArePlanned(t, whole, plan, |plan.kids|, p, above + plan.own);
    }
  }

  lemma SheetStands(t: Tree, p: Position, plan: Plan, above: map<string, Obj>)
    requires plan.Sheet? && At(t, p).Some? && Planted(t.store, At(t, p).value, plan)
    requires AllInEffect(t, p, above + plan.own)
    ensures PagesStand(t, p, Sheets(plan), Pages(t.store, At(t, p).value, plan, above))
  {
    PlantedNode(t.store, At(t, p).value, plan);
    forall i | 0 <= i < 4
      ensures OwnResolves(t.store, Stored(t.store, At(t, p).value).entries, ATTRIBUTES[i])
    {
      OwnIsPlanned(t.store, Stored(t.store, At(t, p).value).entries, plan.own, i);
    }
    assert p + [] == p;
  }

  lemma {:induction false} KidPagesArePlanned(t: Tree, whole: Plan, plan: Plan, n: nat, p: Position,
                                              above: map<string, Obj>)
    requires Planted(t.store, t.root, whole) && PlanAt(whole, p) == Some(plan) && plan.Group? && n <= |plan.kids|
    requires AllInEffect(t, p, above)
    ensures At(t, p).Some? && Planted(t.store, At(t, p).value, plan)
    ensures PagesStand(t, p, KidSheets(plan, n), KidPages(t.store, At(t, p).value, plan, n, above))
    decreases plan, 0, n
  {
    hide KindOf, KidsOf, PlanAt, AllInEffect, PageStands, Sheets, Pages;
    AtIsPlanned(t, whole, p);
    if n > 0 {
      KidPagesArePlanned(t, whole, plan, n - 1, p, above);
      var q, kid := p + [n - 1], plan.kids[n - 1];
      KidIsPlanned(t, whole, plan, n - 1, p);
      assert q[..|q| - 1] == p;
      PagesArePlanned(t, whole, kid, q, above);
      var o := At(t, p).value;
      PagesPush(t, p, n - 1, KidSheets(plan, n - 1), KidPages(t.store, o, plan, n - 1, above), Sheets(kid),
                Pages(t.store, At(t, q).value, kid, above));
    }
  }

  lemma KidIsPlanned(t: Tree, whole: Plan, plan: Plan, i: nat, p: Position)
    requires Planted(t.store, t.root, whole) && PlanAt(whole, p) == Some(plan) && plan.Group? && i < |plan.kids|
    ensures At(t, p).Some? && Planted(t.store, At(t, p).value, plan)
    ensures PlanAt(whole, p + [i]) == Some(plan.kids[i])
    ensures At(t, p + [i]) == Some(Stored(t.store, Stored(t.store, At(t, p).value).entries["Kids"]).elems[i])
  {
    hide KindOf, KidsOf;
    AtIsPlanned(t, whole, p);
    PlantedNode(t.store, At(t, p).value, plan);
    assert (p + [i])[..|p|] == p;
    assert DictAt(t, p) == Some(Stored(t.store, At(t, p).value).entries);
    assert KidsAt(t, p) == KidsOf(t.store, Stored(t.store, At(t, p).value).entries);
  }

  lemma PagesPush(t: Tree, p: Position, i: nat, places: seq<Position>, pages: seq<PlannedPage>, more: seq<Position>,
                  others: seq<PlannedPage>)
    requires PagesStand(t, p, places, pages) && PagesStand(t, p + [i], more, others)
    ensures PagesStand(t, p, places + Below(i, more), pages + others)
  {
    hide PageStands;
    forall j | 0 <= j < |more|
      ensures PageStands(t, p + Below(i, more)[j], others[j])
    {
      assert p + ([i] + more[j]) == p + [i] + more[j];
    }
  }

  /** The number a page's object was listed under before: that of the first page with the same object number. */
  ghost predicate NamesFirst(pages: seq<PlannedPage>, j: nat, also: Option<nat>)
    requires j < |pages|
  {
    match also
    case None => pages[j].ref.None? || forall i :: 0 <= i < j ==> !SameObject(pages[i].ref, pages[j].ref)
    case Some(n) =>
      && 0 < n <= j && SameObject(pages[n - 1].ref, pages[j].ref)
      && forall i :: 0 <= i < n - 1 ==> !SameObject(pages[i].ref, pages[j].ref)
  }

  predicate SameObject(a: Option<RefKey>, b: Option<RefKey>) {
    a.Some? && b.Some? && a.value.0 == b.value.0
  }

  /** Page j of the plan has row j and leaf j, the number after it, its dictionary and reference, its attributes in
      effect, and which of them are inherited. */
  ghost predicate ListsPage(pages: seq<PlannedPage>, j: nat, row: Row, leaf: Leaf)
    requires j < |pages|
  {
    && row.Page? && row.number == j + 1 && row.ref == leaf.ref == pages[j].ref && leaf.dict == pages[j].dict
    && NamesFirst(pages, j, row.also)
    && |leaf.attrs| == |row.inherited| == 4
    && forall i :: 0 <= i < 4 ==> ListsAttr(pages[j], leaf.attrs[i].value, row.inherited[i], ATTRIBUTES[i])
  }

  predicate ListsAttr(page: PlannedPage, value: Option<Obj>, inherited: bool, key: string) {
    && value == (if key in page.attrs then Some(page.attrs[key]) else None)
    && (inherited <==> key !in page.dict && key in page.attrs)
  }

  lemma {:induction false} CountAll(rows: seq<Row>, j: nat)
    requires j <= |rows| && forall i :: 0 <= i < |rows| ==> rows[i].Page?
    ensures PageCount(rows[..j]) == j
    decreases j
  {
    if j > 0 {
      CountAll(rows, j - 1);
      assert rows[..j][..j - 1] == rows[..j - 1];
    }
  }

  lemma {:induction false} FirstIsFirst(rows: seq<Row>, pages: seq<PlannedPage>, j: nat, k: nat, num: nat)
    requires k <= j < |rows| == |pages| && pages[j].ref.Some? && pages[j].ref.value.0 == num
    requires forall i :: 0 <= i < |rows| ==> rows[i].Page? && rows[i].number == i + 1 && rows[i].ref == pages[i].ref
    ensures match FirstNumber(rows[..k], num)
            case None => forall i :: 0 <= i < k ==> !SameObject(pages[i].ref, pages[j].ref)
            case Some(n) => 0 < n <= k && SameObject(pages[n - 1].ref, pages[j].ref)
                            && forall i :: 0 <= i < n - 1 ==> !SameObject(pages[i].ref, pages[j].ref)
    decreases k
  {
    if k > 0 {
      FirstIsFirst(rows, pages, j, k - 1, num);
      assert rows[..k][..k - 1] == rows[..k - 1] && rows[..k][k - 1] == rows[k - 1];
    }
  }

  /** A walk of a planted tree lists the planned pages, numbered from one in their order. */
  lemma PlanIsListed(t: Tree, plan: Plan, log: Log, leaves: seq<Leaf>)
    requires Planted(t.store, t.root, plan) && Fits(plan, 1024) && GroupsApart(t, plan)
    requires Faithful(t, log) && Numbered(t, log.rows, log.places, leaves) && Covered(t, log, [])
    ensures var pages := Pages(t.store, t.root, plan, map[]);
      && |pages| == |log.rows| == |leaves|
      && forall j :: 0 <= j < |pages| ==> ListsPage(pages, j, log.rows[j], leaves[j])
  {
    hide Planted, Fits, GroupsApart, Covered, Faithful, Pages, Sheets, ListsPage, PageStands, Numbered;
    PlacesArePlanned(t, plan, log);
    TopPlan(plan);
    PagesArePlanned(t, plan, plan, [], map[]);
    assert At(t, []) == Some(t.root);
    var pages := Pages(t.store, t.root, plan, map[]);
    CountIsAll(t, log, leaves);
    forall j | 0 <= j < |pages|
      ensures ListsPage(pages, j, log.rows[j], leaves[j])
    {
      assert [] + log.places[j] == log.places[j];
      RowsAreNumbered(t, log, leaves, pages);
      PageIsListed(t, log, leaves, pages, j);
    }
  }

  lemma CountIsAll(t: Tree, log: Log, leaves: seq<Leaf>)
    requires Numbered(t, log.rows, log.places, leaves) && forall j :: 0 <= j < |log.rows| ==> log.rows[j].Page?
    ensures |leaves| == |log.rows|
  {
    CountAll(log.rows, |log.rows|);
    assert log.rows[..|log.rows|] == log.rows;
  }

  lemma RowsAreNumbered(t: Tree, log: Log, leaves: seq<Leaf>, pages: seq<PlannedPage>)
    requires Faithful(t, log) && Numbered(t, log.rows, log.places, leaves)
    requires |pages| == |log.rows| == |log.places| && forall j :: 0 <= j < |log.rows| ==> log.rows[j].Page?
    requires PagesStand(t, [], log.places, pages)
    ensures forall i :: 0 <= i < |log.rows| ==> log.rows[i].number == i + 1 && log.rows[i].ref == pages[i].ref
  {
    hide LeafHolds, Earlier, DownHolds, InOrder;
    forall i | 0 <= i < |log.rows|
      ensures log.rows[i].number == i + 1 && log.rows[i].ref == pages[i].ref
    {
      CountAll(log.rows, i);
      assert [] + log.places[i] == log.places[i];
      assert PageStands(t, [] + log.places[i], pages[i]);
      assert RowHolds(t, log.rows[i], log.places[i], log.down);
    }
  }

  lemma FirstNamed(t: Tree, log: Log, leaves: seq<Leaf>, pages: seq<PlannedPage>, j: nat)
    requires Numbered(t, log.rows, log.places, leaves) && j < |pages| == |log.rows|
    requires forall i :: 0 <= i < |log.rows| ==>
      log.rows[i].Page? && log.rows[i].number == i + 1 && log.rows[i].ref == pages[i].ref
    ensures NamesFirst(pages, j, log.rows[j].also)
  {
    hide LeafHolds, PageCount;
    if pages[j].ref.Some? {
      FirstIsFirst(log.rows, pages, j, j, pages[j].ref.value.0);
    }
  }

  lemma PageIsListed(t: Tree, log: Log, leaves: seq<Leaf>, pages: seq<PlannedPage>, j: nat)
    requires Faithful(t, log) && Numbered(t, log.rows, log.places, leaves)
    requires j < |pages| == |log.rows| == |log.places| == |leaves|
    requires forall i :: 0 <= i < |log.rows| ==>
      log.rows[i].Page? && log.rows[i].number == i + 1 && log.rows[i].ref == pages[i].ref
    requires PageStands(t, log.places[j], pages[j])
    ensures ListsPage(pages, j, log.rows[j], leaves[j])
  {
    hide Earlier, DownHolds, InOrder, FirstNumber, PageCount, AttrAt, At, DictAt, NamesFirst, Lookup;
    var row, leaf := log.rows[j], leaves[j];
    assert RowHolds(t, row, log.places[j], log.down);
    assert LeafHolds(t, leaves[row.number - 1], log.places[j]);
    FirstNamed(t, log, leaves, pages, j);
    forall i | 0 <= i < 4
      ensures ListsAttr(pages[j], leaf.attrs[i].value, row.inherited[i], ATTRIBUTES[i])
    {
      assert InEffect(t, log.places[j], pages[j].attrs, ATTRIBUTES[i]);
      assert OwnResolves(t.store, pages[j].dict, ATTRIBUTES[i]);
    }
  }

  /** Whatever the tree is planned as, the planned pages are listed, and nothing else. */
  ghost predicate ListsPlans(t: Tree, rows: seq<Row>, leaves: seq<Leaf>) {
    forall plan :: Planted(t.store, t.root, plan) && Fits(plan, 1024) && GroupsApart(t, plan) ==>
      var pages := Pages(t.store, t.root, plan, map[]);
      && |pages| == |rows| == |leaves|
      && forall j :: 0 <= j < |pages| ==> ListsPage(pages, j, rows[j], leaves[j])
  }

  lemma PlansAreListed(t: Tree, log: Log, leaves: seq<Leaf>)
    requires Faithful(t, log) && Numbered(t, log.rows, log.places, leaves)
    requires DictAt(t, []).Some? ==> Covered(t, log, [])
    ensures ListsPlans(t, log.rows, leaves)
  {
    hide Faithful, Numbered, Covered, Fits, GroupsApart, ListsPage, Pages, KindOf, Planted;
    forall plan | Planted(t.store, t.root, plan) && Fits(plan, 1024) && GroupsApart(t, plan)
      ensures var pages := Pages(t.store, t.root, plan, map[]);
        && |pages| == |log.rows| == |leaves|
        && forall j :: 0 <= j < |pages| ==> ListsPage(pages, j, log.rows[j], leaves[j])
    {
      PlantedNode(t.store, t.root, plan);
      assert At(t, []) == Some(t.root);
      PlanIsListed(t, plan, log, leaves);
    }
  }
}
