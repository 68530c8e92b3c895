/** What a walk of the page tree has listed and descended into so far, and what makes that a faithful account. */
module PageLog {
  import opened PdfObjects
  import opened PageTree

  datatype Trouble = NullKid | NotADictionary | Dangling | Cycle | NoKids | KidsNotAnArray | Shared | TooDeep

  /** A row of the index: a numbered page, with which attributes are inherited, where entries resolve to nothing and
      the number its object was listed under before; or a problem. */
  datatype Row =
    | Page(number: nat, ref: Option<RefKey>, inherited: seq<bool>, unresolved: seq<Label>, also: Option<nat>)
    | Problem(ref: Option<RefKey>, trouble: Trouble)

  datatype Leaf = Leaf(dict: map<string, Obj>, ref: Option<RefKey>, attrs: seq<Attr>)

  /** The rows with the positions they stand for, and the positions descended into. */
  datatype Log = Log(rows: seq<Row>, places: seq<Position>, down: seq<Position>)

  function AttrsAt(t: Tree, p: Position): (r: seq<Attr>)
    ensures |r| == 4
  {
    seq(4, i requires 0 <= i < 4 => AttrAt(t, p, ATTRIBUTES[i]))
  }

  /** What is inherited at a position. */
  function AttrsAbove(t: Tree, p: Position): (r: seq<Attr>)
    ensures |r| == 4
  {
    if p == [] then [NO_ATTR, NO_ATTR, NO_ATTR, NO_ATTR] else AttrsAt(t, p[..|p| - 1])
  }

  /** Which attributes in effect come from a node above. */
  function InheritedAt(t: Tree, p: Position): (r: seq<bool>)
    ensures |r| == 4
  {
    seq(4, i requires 0 <= i < 4 =>
      Lookup(t.store, OwnAt(t, p, ATTRIBUTES[i])).None? && AttrAt(t, p, ATTRIBUTES[i]).value.Some?)
  }

  function Labels(attrs: seq<Attr>): (r: seq<Label>)
    ensures |r| == |attrs|
  {
    seq(|attrs|, i requires 0 <= i < |attrs| => attrs[i].unresolvedAt)
  }

  // Rows tell the truth.

  ghost predicate KindAt(t: Tree, p: Position, k: Kind) {
    DictAt(t, p).Some? && KindOf(t.store, DictAt(t, p).value) == k
  }

  ghost predicate SameNode(t: Tree, p: Position, q: Position) {
    NumAt(t, p).Some? && NumAt(t, p) == NumAt(t, q)
  }

  /** A problem row says what is wrong at its position. */
  ghost predicate TroubleHolds(t: Tree, x: Trouble, p: Position, down: seq<Position>) {
    match x
    case NullKid => At(t, p) == Some(Null)
    case NotADictionary => At(t, p).Some? && Lookup(t.store, At(t, p).value).Some? && DictAt(t, p).None?
    case Dangling => At(t, p).Some? && At(t, p).value.Ref? && Lookup(t.store, At(t, p).value).None?
    case Cycle => exists q :: q in down && q < p && SameNode(t, p, q)
    case NoKids => KindAt(t, p, Hollow)
    case KidsNotAnArray => KindAt(t, p, Intermediate) && KidsAt(t, p).None?
    case Shared => KindAt(t, p, Intermediate) && exists q :: q in down && Earlier(q, p) && SameNode(t, p, q)
    case TooDeep => KindAt(t, p, Intermediate) && |p| >= MAX_PAGE_TREE_DEPTH
  }

  ghost predicate RowHolds(t: Tree, row: Row, p: Position, down: seq<Position>) {
    && At(t, p).Some?
    && row.ref == RefOf(At(t, p).value)
    && match row
       case Page(_, _, inherited, unresolved, _) =>
         IsPage(t, p) && inherited == InheritedAt(t, p) && unresolved == Labels(AttrsAt(t, p))
       case Problem(_, x) => TroubleHolds(t, x, p, down)
  }

  ghost predicate RowsHold(t: Tree, log: Log) {
    && |log.places| == |log.rows|
    && forall j :: 0 <= j < |log.rows| ==> RowHolds(t, log.rows[j], log.places[j], log.down)
  }

  /** Rows stand in document order. */
  ghost predicate InOrder(places: seq<Position>) {
    forall i, j :: 0 <= i < j < |places| ==> Earlier(places[i], places[j])
  }

  /** Every node descended into is a dictionary to descend into, no indirect one twice, and no row stands for a node
      above it. */
  ghost predicate DownHolds(t: Tree, log: Log) {
    && (forall q :: q in log.down ==> KindAt(t, q, Intermediate))
    && (forall i, j :: 0 <= i < j < |log.down| ==> !SameNode(t, log.down[i], log.down[j]))
    && (|log.places| == |log.rows| ==>
        forall j, q :: 0 <= j < |log.rows| && q in log.down && log.places[j] <= q ==>
          log.places[j] == q && KidsAt(t, q).None?)
  }

  ghost predicate Faithful(t: Tree, log: Log) {
    RowsHold(t, log) && InOrder(log.places) && DownHolds(t, log)
  }

  /** The walk is about to visit position p: everything so far comes before it, or leads to it. */
  ghost predicate Ready(log: Log, p: Position) {
    && (forall q :: q in log.places ==> Earlier(q, p))
    && (forall q :: q in log.down ==> q < p || Earlier(q, p))
  }

  /** Everything at or below p is listed, is below something listed, or is descended into. */
  ghost predicate Covered(t: Tree, log: Log, p: Position) {
    forall q :: p <= q && At(t, q).Some? ==> q in log.down || exists r :: r in log.places && r <= q
  }

  /** The log has grown by rows and descents at or below p. */
  ghost predicate Grown(a: Log, b: Log, p: Position) {
    && a.rows <= b.rows && a.places <= b.places && a.down <= b.down
    && (forall j :: |a.places| <= j < |b.places| ==> p <= b.places[j])
    && (forall j :: |a.down| <= j < |b.down| ==> p <= b.down[j])
  }

  function AddRow(log: Log, p: Position, row: Row): Log {
    log.(rows := log.rows + [row], places := log.places + [p])
  }

  function Descend(log: Log, p: Position): Log {
    log.(down := log.down + [p])
  }

  lemma OrderPush(places: seq<Position>, p: Position)
    requires InOrder(places) && forall q :: q in places ==> Earlier(q, p)
    ensures InOrder(places + [p])
  {
    hide Earlier;
    var next := places + [p];
    forall i, j | 0 <= i < j < |next|
      ensures Earlier(next[i], next[j])
    {
      if j == |places| {
        assert next[i] in places;
      }
    }
  }

  lemma DownPush(t: Tree, log: Log, p: Position, row: Row)
    requires DownHolds(t, log) && |log.places| == |log.rows|
    requires forall q :: q in log.down && p <= q ==> p == q && KidsAt(t, q).None?
    ensures DownHolds(t, AddRow(log, p, row))
  {
    hide KindAt, SameNode, KidsAt;
  }

  lemma RowCovers(t: Tree, log: Log, p: Position, row: Row)
    ensures Covered(t, AddRow(log, p, row), p)
  {
    assert AddRow(log, p, row).places[|log.places|] == p;
    assert p in AddRow(log, p, row).places;
  }

  lemma NothingBelow(log: Log, p: Position)
    requires Ready(log, p)
    ensures forall q :: q in log.down ==> !(p <= q)
  {
    forall q | q in log.down
      ensures !(p <= q)
    {
      if Earlier(q, p) {
        NotEarlierAndBelow(q, p);
      }
    }
  }

  /** A row for p settles everything below it. */
  lemma AddRowKeeps(t: Tree, log: Log, p: Position, row: Row)
    requires Faithful(t, log) && Ready(log, p) && RowHolds(t, row, p, log.down)
    ensures var next := AddRow(log, p, row);
      Faithful(t, next) && Grown(log, next, p) && Covered(t, next, p)
  {
    hide RowHolds, Earlier, KidsAt, Covered, InOrder, DownHolds;
    NothingBelow(log, p);
    OrderPush(log.places, p);
    DownPush(t, log, p, row);
    RowCovers(t, log, p, row);
  }

  /** The row of a node just descended into whose kids are no array. */
  lemma AddHollowKeeps(t: Tree, log: Log, p: Position, row: Row)
    requires Faithful(t, log) && Ready(log, p) && KindAt(t, p, Intermediate) && KidsAt(t, p).None?
    requires forall q :: q in log.down ==> !SameNode(t, q, p)
    requires RowHolds(t, row, p, log.down + [p])
    ensures var next := AddRow(Descend(log, p), p, row);
      Faithful(t, next) && Grown(log, next, p) && Covered(t, next, p)
  {
    hide RowHolds, Earlier, KidsAt, Covered, InOrder, DownHolds, KindAt, SameNode;
    NothingBelow(log, p);
    DescendKeeps(t, log, p);
    var d := Descend(log, p);
    OrderPush(log.places, p);
    DownPush(t, d, p, row);
    RowCovers(t, d, p, row);
  }

  lemma DescendKeeps(t: Tree, log: Log, p: Position)
    requires Faithful(t, log) && Ready(log, p) && KindAt(t, p, Intermediate)
    requires forall q :: q in log.down ==> !SameNode(t, q, p)
    ensures Faithful(t, Descend(log, p)) && Grown(log, Descend(log, p), p)
  {
    hide RowHolds, KindAt, SameNode, Earlier, KidsAt;
    DescendRows(t, log, p);
    var next := Descend(log, p);
    forall j | 0 <= j < |log.rows|
      ensures !(log.places[j] <= p)
    {
      assert log.places[j] in log.places;
      NotEarlierAndBelow(log.places[j], p);
    }
    forall i, j | 0 <= i < j < |next.down|
      ensures !SameNode(t, next.down[i], next.down[j])
    {
      if j == |log.down| {
        assert next.down[i] in log.down;
      }
    }
  }

  lemma DescendRows(t: Tree, log: Log, p: Position)
    requires RowsHold(t, log)
    ensures RowsHold(t, Descend(log, p))
  {
    hide RowHolds;
    forall j | 0 <= j < |log.rows|
      ensures RowHolds(t, log.rows[j], log.places[j], log.down + [p])
    {
      MoreDown(t, log.rows[j], log.places[j], log.down, p);
    }
  }

  lemma MoreDown(t: Tree, row: Row, p: Position, down: seq<Position>, q: Position)
    requires RowHolds(t, row, p, down)
    ensures RowHolds(t, row, p, down + [q])
  {
  }

  lemma GrownTwice(a: Log, b: Log, c: Log, p: Position, q: Position)
    requires Grown(a, b, p) && Grown(b, c, q) && p <= q
    ensures Grown(a, c, p)
  {
  }

  /** After a visit of one kid the walk is ready for the next. */
  lemma ReadyNext(t: Tree, a: Log, b: Log, p: Position, i: nat)
    requires Ready(a, p + [i]) && Grown(a, b, p + [i])
    ensures Ready(b, p + [i + 1])
  {
    NextIsLater(p, i, i + 1);
    var k, n := p + [i], p + [i + 1];
    forall q | q in b.places
      ensures Earlier(q, n)
    {
      var j :| 0 <= j < |b.places| && b.places[j] == q;
      if j < |a.places| {
        assert a.places[j] == q && q in a.places;
        EarlierKid(q, p, i);
      } else {
        BelowEarlier(k, n, q);
      }
    }
    forall q | q in b.down
      ensures q < n || Earlier(q, n)
    {
      var j :| 0 <= j < |b.down| && b.down[j] == q;
      if j < |a.down| {
        assert a.down[j] == q && q in a.down;
        if q < k {
          PrefixStep(q, k);
          assert k[..|k| - 1] == p == n[..|n| - 1];
          PrefixStep(q, n);
        } else {
          EarlierKid(q, p, i);
        }
      } else {
        BelowEarlier(k, n, q);
      }
    }
  }

  lemma EarlierKid(q: Position, p: Position, i: nat)
    requires Earlier(q, p + [i])
    ensures Earlier(q, p + [i + 1])
  {
    var k: nat :| EarlierAt(q, p + [i], k);
    assert (p + [i + 1])[..k] == (p + [i])[..k];
    assert EarlierAt(q, p + [i + 1], k);
  }

  lemma ReadyFirst(log: Log, p: Position)
    requires Ready(log, p)
    ensures Ready(Descend(log, p), p + [0])
  {
    var n := p + [0];
    assert p < n;
    forall q | q in log.places
      ensures Earlier(q, n)
    {
      EarlierBelow(q, p, n);
    }
    forall q | q in log.down
      ensures q < n || Earlier(q, n)
    {
      if Earlier(q, p) {
        EarlierBelow(q, p, n);
      } else {
        PrefixStep(q, n);
        assert n[..|n| - 1] == p;
      }
    }
  }

  /** A node descended into is covered when all its kids are. */
  lemma CoveredByKids(t: Tree, log: Log, p: Position, kids: seq<Obj>)
    requires p in log.down && KidsAt(t, p) == Some(kids)
    requires forall i :: 0 <= i < |kids| ==> Covered(t, log, p + [i])
    ensures Covered(t, log, p)
  {
    forall q | p <= q && At(t, q).Some?
      ensures q in log.down || exists r :: r in log.places && r <= q
    {
      if q != p {
        var i := q[|p|];
        AboveExists(t, q, |p| + 1);
        assert q[..|p| + 1] == p + [i];
        assert (p + [i])[..|p|] == p;
        assert p + [i] <= q;
        assert Covered(t, log, p + [i]);
      }
    }
  }

  /** Whatever is at a position, something is at every position above it. */
  lemma {:induction false} AboveExists(t: Tree, q: Position, n: nat)
    requires At(t, q).Some? && n <= |q|
    ensures At(t, q[..n]).Some?
    decreases |q|
  {
    if n < |q| {
      assert KidsAt(t, q[..|q| - 1]).Some? && DictAt(t, q[..|q| - 1]).Some?;
      AboveExists(t, q[..|q| - 1], n);
      assert q[..|q| - 1][..n] == q[..n];
    } else {
      assert q[..n] == q;
    }
  }

  lemma CoveredGrows(t: Tree, a: Log, b: Log, p: Position, q: Position)
    requires Covered(t, a, p) && Grown(a, b, q)
    ensures Covered(t, b, p)
  {
    assert forall x :: x in a.down ==> x in b.down;
    assert forall x :: x in a.places ==> x in b.places;
  }

  // Every page is listed.

  /** Nodes that are the same indirect object have the same values below them. */
  lemma {:induction false} SameBelow(t: Tree, p: Position, q: Position, rest: Position)
    requires SameNode(t, p, q) && rest != []
    ensures At(t, p + rest) == At(t, q + rest)
    decreases |rest|
  {
    var n := |rest| - 1;
    assert (p + rest)[..|p| + n] == p + rest[..n] && (q + rest)[..|q| + n] == q + rest[..n];
    if n == 0 {
      assert p + rest[..n] == p && q + rest[..n] == q;
      assert KidsAt(t, p) == KidsAt(t, q);
    } else {
      SameBelow(t, p, q, rest[..n]);
      assert KidsAt(t, p + rest[..n]) == KidsAt(t, q + rest[..n]);
    }
  }

  /** What has something below it has kids. */
  lemma KidsAbove(t: Tree, p: Position, q: Position)
    requires p < q && At(t, q).Some?
    ensures KidsAt(t, p).Some?
  {
    AboveExists(t, q, |p| + 1);
    var k := q[..|p| + 1];
    assert k[..|p|] == p;
  }

  /** Nothing lies below a row other than one for a node met elsewhere. */
  lemma BelowRow(t: Tree, row: Row, p: Position, down: seq<Position>, q: Position)
    requires RowHolds(t, row, p, down) && p < q && At(t, q).Some?
    ensures row.Problem? && (row.trouble == Cycle || row.trouble == Shared || row.trouble == TooDeep)
  {
    KidsAbove(t, p, q);
  }

  predicate IsTooDeep(row: Row) {
    row.Problem? && row.trouble == TooDeep
  }

  /** With every position covered, each page node of the tree, however it is reached, is on a numbered row that stands
      for the same value, or lies below a node that a row notes as too deep. */
  lemma {:induction false} PageIsListed(t: Tree, log: Log, p: Position, rest: Position) returns (j: nat, tail: Position)
    requires Faithful(t, log) && Covered(t, log, [])
    requires p == [] || p in log.down
    requires IsPage(t, p + rest)
    ensures j < |log.rows| == |log.places| && At(t, log.places[j] + tail) == At(t, p + rest)
    ensures if tail == [] then log.rows[j].Page? else IsTooDeep(log.rows[j])
    decreases |rest|
  {
    hide Faithful, Covered, IsPage, RowHolds, SameNode, At;
    var q := p + rest;
    j := RowCovering(t, log, q);
    var r := log.places[j];
    tail := q[|r|..];
    assert q == r + tail;
    if r == q {
      RowOfPage(t, log, j);
    } else if !IsTooDeep(log.rows[j]) {
      var other := MetElsewhere(t, log, j, q);
      SameBelow(t, r, other, tail);
      RowBelowDown(t, log, p, rest, j, tail);
      AlsoPage(t, q, other + tail);
      j, tail := PageIsListed(t, log, other, tail);
    }
  }

  lemma AlsoPage(t: Tree, p: Position, q: Position)
    requires IsPage(t, p) && At(t, p) == At(t, q)
    ensures IsPage(t, q)
  {
  }

  /** The row that covers a page node. */
  lemma RowCovering(t: Tree, log: Log, q: Position) returns (j: nat)
    requires Faithful(t, log) && Covered(t, log, []) && IsPage(t, q)
    ensures j < |log.rows| == |log.places| && log.places[j] <= q && At(t, q).Some?
  {
    hide RowHolds;
    assert !KindAt(t, q, Intermediate) && q !in log.down;
    var r :| r in log.places && r <= q;
    j :| 0 <= j < |log.places| && log.places[j] == r;
  }

  /** A row with nodes below it stands for a node that was descended into elsewhere. */
  lemma MetElsewhere(t: Tree, log: Log, j: nat, q: Position) returns (other: Position)
    requires Faithful(t, log) && j < |log.rows| == |log.places| && !IsTooDeep(log.rows[j])
    requires log.places[j] < q && At(t, q).Some?
    ensures other in log.down && SameNode(t, log.places[j], other) && log.places[j] != []
  {
    hide SameNode, InOrder, DownHolds, At;
    var r := log.places[j];
    assert RowHolds(t, log.rows[j], r, log.down);
    BelowRow(t, log.rows[j], r, log.down, q);
    other :| other in log.down && SameNode(t, r, other) && (other < r || Earlier(other, r));
  }

  /** A row that covers a node below p stands below p itself. */
  lemma RowBelowDown(t: Tree, log: Log, p: Position, rest: Position, j: nat, tail: Position)
    requires Faithful(t, log) && (p == [] || p in log.down) && j < |log.rows| == |log.places|
    requires log.places[j] + tail == p + rest && tail != [] && IsPage(t, p + rest) && At(t, p + rest).Some?
    requires log.places[j] != []
    ensures |tail| < |rest|
  {
    hide RowsHold, InOrder, DownHolds, At, KidsAt, IsPage;
    var r := log.places[j];
    assert |r| + |tail| == |p| + |rest|;
    if |r| <= |p| {
      assert r == (r + tail)[..|r|] == (p + rest)[..|r|] == p[..|r|];
      RowAboveDown(t, log, j, p);
      PageIsBelow(t, log, p, rest);
      assert p < p + rest;
      KidsAbove(t, p, p + rest);
    }
  }

  lemma PageIsBelow(t: Tree, log: Log, p: Position, rest: Position)
    requires DownHolds(t, log) && p in log.down && IsPage(t, p + rest)
    ensures rest != []
  {
    assert KindAt(t, p, Intermediate);
    assert p + [] == p;
  }

  lemma RowAboveDown(t: Tree, log: Log, j: nat, q: Position)
    requires Faithful(t, log) && j < |log.rows| == |log.places| && q in log.down && log.places[j] <= q
    ensures KidsAt(t, q).None?
  {
    hide RowsHold, InOrder, KidsAt, SameNode, KindAt;
  }

  lemma RowOfPage(t: Tree, log: Log, j: nat)
    requires Faithful(t, log) && j < |log.rows| == |log.places| && IsPage(t, log.places[j])
    ensures log.rows[j].Page?
  {
    var p := log.places[j];
    assert RowHolds(t, log.rows[j], p, log.down);
  }
}
