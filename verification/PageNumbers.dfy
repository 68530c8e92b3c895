/** How the rows of a page listing are numbered. */
module PageNumbers {
  import opened PdfObjects
  import opened PageTree
  import opened PageLog

  function PageCount(rows: seq<Row>): nat {
    if rows == [] then 0
    else PageCount(rows[..|rows| - 1]) + (if rows[|rows| - 1].Page? then 1 else 0)
  }

  /** The number of the first page listed for an object. */
  function FirstNumber(rows: seq<Row>, num: nat): Option<nat> {
    if rows == [] then None
    else
      var before := FirstNumber(rows[..|rows| - 1], num);
      var last := rows[|rows| - 1];
      if before.Some? then before
      else if last.Page? && last.ref.Some? && last.ref.value.0 == num then Some(last.number)
      else None
  }

  ghost predicate LeafHolds(t: Tree, leaf: Leaf, p: Position) {
    && DictAt(t, p) == Some(leaf.dict)
    && leaf.ref == RefOf(At(t, p).value)
    && leaf.attrs == AttrsAt(t, p)
  }

  /** Pages are numbered from one up in the order of their rows, each number stands for its leaf, and a page whose
      object was listed before names the first number it got. */
  ghost predicate Numbered(t: Tree, rows: seq<Row>, places: seq<Position>, leaves: seq<Leaf>) {
    && |places| == |rows|
    && |leaves| == PageCount(rows)
    && forall j :: 0 <= j < |rows| && rows[j].Page? ==>
         && rows[j].number == PageCount(rows[..j]) + 1 <= |leaves|
         && LeafHolds(t, leaves[rows[j].number - 1], places[j])
         && rows[j].also == (if rows[j].ref.Some? then FirstNumber(rows[..j], rows[j].ref.value.0) else None)
  }

  ghost predicate FirstsHold(rows: seq<Row>, firstPage: map<nat, nat>) {
    forall num :: FirstNumber(rows, num) == if num in firstPage then Some(firstPage[num]) else None
  }

  lemma ProblemKeepsNumbers(t: Tree, rows: seq<Row>, places: seq<Position>, leaves: seq<Leaf>, firstPage: map<nat, nat>,
                            row: Row, p: Position)
    requires Numbered(t, rows, places, leaves) && FirstsHold(rows, firstPage) && row.Problem?
    ensures Numbered(t, rows + [row], places + [p], leaves) && FirstsHold(rows + [row], firstPage)
  {
    var next := rows + [row];
    assert next[..|rows|] == rows;
    forall j | 0 <= j < |rows|
      ensures next[..j] == rows[..j]
    {
    }
  }

  lemma PageKeepsNumbers(t: Tree, rows: seq<Row>, places: seq<Position>, leaves: seq<Leaf>, firstPage: map<nat, nat>,
                         row: Row, p: Position, leaf: Leaf)
    requires Numbered(t, rows, places, leaves) && FirstsHold(rows, firstPage) && row.Page? && LeafHolds(t, leaf, p)
    requires row.number == |leaves| + 1
    requires row.also ==
      if row.ref.Some? && row.ref.value.0 in firstPage then Some(firstPage[row.ref.value.0]) else None
    ensures Numbered(t, rows + [row], places + [p], leaves + [leaf])
    ensures FirstsHold(rows + [row],
      if row.ref.Some? && row.ref.value.0 !in firstPage then firstPage[row.ref.value.0 := row.number] else firstPage)
  {
    hide LeafHolds;
    var next := rows + [row];
    assert next[..|rows|] == rows;
    forall j | 0 <= j < |rows|
      ensures next[..j] == rows[..j]
    {
    }
  }

  /** Page numbers rise by one from row to row. */
  lemma {:induction false} CountGrows(rows: seq<Row>, i: nat, j: nat)
    requires i <= j <= |rows|
    ensures PageCount(rows[..i]) <= PageCount(rows[..j])
    decreases j
  {
    if i < j {
      CountGrows(rows, i, j - 1);
      assert rows[..j][..j - 1] == rows[..j - 1];
    }
  }

  /** Page k of the leaves is the page on the one row numbered k. */
  lemma NumbersAreDistinct(t: Tree, rows: seq<Row>, places: seq<Position>, leaves: seq<Leaf>, i: nat, j: nat)
    requires Numbered(t, rows, places, leaves)
    requires i < j < |rows| && rows[i].Page? && rows[j].Page?
    ensures rows[i].number < rows[j].number
  {
    CountGrows(rows, i + 1, j);
    assert rows[..i + 1][..i] == rows[..i];
  }
}
