/** The printed source line by line: four spaces for each level, one entry or element to a line. */
module SourceLayout {
  import opened PdfObjects
  import opened SourcePrinter

  datatype Row = Row(level: nat, text: string)

  function Blanks(level: nat): string {
    if level == 0 then "" else "    " + Blanks(level - 1)
  }

  function RowText(r: Row): string {
    Blanks(r.level) + r.text + "\n"
  }

  function RowsText(rows: seq<Row>): string {
    if rows == [] then "" else RowText(rows[0]) + RowsText(rows[1..])
  }

  predicate IsPlainValue(v: Value) {
    !v.List? && !v.Dictionary? && !v.StreamValue?
  }

  function OnOneLine(elems: seq<Value>): string {
    if elems == [] then "" else " " + ScalarText(elems[0]) + OnOneLine(elems[1..])
  }

  /** The lines of a value that stands at a level after some text. */
  function RowsOf(v: Value, level: nat, head: string): seq<Row>
    decreases v, 2
  {
    match v
    case Dictionary(m) =>
      [Row(level, head + "<<")] + EntryRows(v, Sorted(m.Keys), 0, level + 1) + [Row(level, ">>")]
    case StreamValue(m) =>
      [Row(level, head + "<<")] + EntryRows(v, Sorted(m.Keys), 0, level + 1) + [Row(level, ">>")]
    case List(elems) =>
      if |elems| < 5 && (forall e :: e in elems ==> IsPlainValue(e)) then
        [Row(level, head + "[" + OnOneLine(elems) + " ]")]
      else [Row(level, head + "[")] + ElemRows(v, 0, level + 1) + [Row(level, "]")]
    case _ => [Row(level, head + ScalarText(v))]
  }

  function EntryRows(v: Value, keys: seq<string>, i: nat, level: nat): seq<Row>
    requires (v.Dictionary? || v.StreamValue?) && i <= |keys| && forall i :: 0 <= i < |keys| ==> keys[i] in v.entries
    decreases v, 1, |keys| - i
  {
    if i == |keys| then []
    else RowsOf(v.entries[keys[i]], level, "/" + keys[i] + " ") + EntryRows(v, keys, i + 1, level)
  }

  function ElemRows(v: Value, i: nat, level: nat): seq<Row>
    requires v.List? && i <= |v.elems|
    decreases v, 1, |v.elems| - i
  {
    if i == |v.elems| then [] else RowsOf(v.elems[i], level, "") + ElemRows(v, i + 1, level)
  }

  lemma {:induction false} RowsJoin(a: seq<Row>, b: seq<Row>)
    ensures RowsText(a + b) == RowsText(a) + RowsText(b)
  {
    hide RowText;
    if a == [] {
      assert a + b == b;
    } else {
      RowsJoin(a[1..], b);
      assert (a + b)[1..] == a[1..] + b && (a + b)[0] == a[0];
      ThreeTexts(RowText(a[0]), RowsText(a[1..]), RowsText(b));
    }
  }

  lemma ThreeTexts(a: string, b: string, c: string)
    ensures a + (b + c) == a + b + c
  {
  }

  lemma OneRow(r: Row)
    ensures RowsText([r]) == RowText(r)
  {
    assert [r][1..] == [];
  }

  lemma {:induction false} BlanksAreIndent(level: nat)
    ensures Blanks(level) == Indent(level)
  {
    if level > 0 {
      BlanksAreIndent(level - 1);
      assert Indent(level) == "    " + Indent(level - 1);
    }
  }

  /** The text of some entries, front to back. */
  lemma {:induction false} JoinFront(es: seq<string>)
    ensures es != [] ==> Join(es) == es[0] + Join(es[1..])
  {
    if |es| == 1 {
      assert es[..0] == [] && es[1..] == [];
      assert Join(es) == "" + es[0] && es[0] + "" == es[0] == "" + es[0];
    } else if es != [] {
      var n := |es| - 1;
      JoinFront(es[..n]);
      assert es[..n][1..] == es[1..][..n - 1] && es[1..][n - 1] == es[n];
      assert es[0] + Join(es[1..][..n - 1]) + es[n] == es[0] + (Join(es[1..][..n - 1]) + es[n]);
    }
  }

  /** A value is laid out in its lines. */
  lemma {:induction false} PrintIsLaidOut(v: Value, level: nat, head: string)
    ensures RowsText(RowsOf(v, level, head)) == Indent(level) + head + Print(v, level) + "\n"
    decreases v, 2
  {
    hide Join, Indent, RowsText, Blanks, Print, Sorted, ShortElems, LongElems, DictEntries, EntryRows, ElemRows;
    BlanksAreIndent(level);
    if v.Dictionary? || v.StreamValue? {
      var keys := Sorted(v.entries.Keys);
      var es := DictEntries(v, keys, level);
      PrintDict(v, level);
      EntriesAreLaidOut(v, keys, 0, level);
      assert es[0..] == es;
      ThreeRows(level, head, "<<", EntryRows(v, keys, 0, level + 1), ">>", Join(es));
    } else if v.List? {
      PrintList(v, level);
      ShortIff(v.elems);
      if IsShort(v.elems) {
        ShortLine(v, 0, level);
        var es := ShortElems(v, level);
        assert es[0..] == es && v.elems[0..] == v.elems;
        OneRow(Row(level, head + "[" + OnOneLine(v.elems) + " ]"));
        Glue(Indent(level), head, "[" + OnOneLine(v.elems) + " ]");
      } else {
        var es := LongElems(v, level);
        ElemsAreLaidOut(v, 0, level);
        assert es[0..] == es;
        ThreeRows(level, head, "[", ElemRows(v, 0, level + 1), "]", Join(es));
      }
    } else {
      OneRow(Row(level, head + ScalarText(v)));
      PrintScalar(v, level);
      Glue(Indent(level), head, ScalarText(v));
    }
  }

  lemma Glue(a: string, b: string, c: string)
    ensures a + (b + c) + "\n" == a + b + c + "\n"
    ensures forall x: string, y: string, z: string :: c == x + y + z ==> a + (b + x + y + z) + "\n" == a + b + c + "\n"
  {
    assert a + (b + c) == a + b + c;
    forall x: string, y: string, z: string | c == x + y + z
      ensures b + x + y + z == b + c
    {
    }
  }

  lemma PrintScalar(v: Value, level: nat)
    requires IsPlainValue(v)
    ensures Print(v, level) == ScalarText(v)
  {
  }

  lemma ShortIff(elems: seq<Value>)
    ensures IsShort(elems) <==> |elems| < 5 && forall e :: e in elems ==> IsPlainValue(e)
  {
    if IsShort(elems) {
      forall e | e in elems
        ensures IsPlainValue(e)
      {
        var i :| 0 <= i < |elems| && elems[i] == e;
        assert !IsContainerValue(elems[i]);
      }
    } else if |elems| < 5 {
      var i :| 0 <= i < |elems| && IsContainerValue(elems[i]);
      assert elems[i] in elems && !IsPlainValue(elems[i]);
    }
  }

  lemma ThreeRows(level: nat, head: string, open: string, rows: seq<Row>, close: string, inside: string)
    requires RowsText(rows) == inside && Blanks(level) == Indent(level)
    ensures RowsText([Row(level, head + open)] + rows + [Row(level, close)])
      == Indent(level) + head + ((open + "\n") + inside + Indent(level) + close) + "\n"
  {
    hide Indent, Blanks, RowsText;
    var i := Indent(level);
    RowsJoin([Row(level, head + open)] + rows, [Row(level, close)]);
    RowsJoin([Row(level, head + open)], rows);
    OneRow(Row(level, head + open));
    OneRow(Row(level, close));
    assert i + (head + open) + "\n" + inside + (i + close + "\n")
        == i + head + ((open + "\n") + inside + i + close) + "\n";
  }

  lemma {:induction false} ShortLine(v: Value, i: nat, level: nat)
    requires v.List? && IsShort(v.elems) && i <= |v.elems|
    ensures Join(ShortElems(v, level)[i..]) == OnOneLine(v.elems[i..])
    decreases |v.elems| - i
  {
    hide Join, Print;
    var es := ShortElems(v, level);
    if i == |v.elems| {
      assert es[i..] == [] && v.elems[i..] == [];
      JoinNone(es);
      assert es[..0] == [];
    } else {
      JoinFront(es[i..]);
      assert es[i..][1..] == es[i + 1..] && v.elems[i..][1..] == v.elems[i + 1..];
      ShortLine(v, i + 1, level);
      assert !IsContainerValue(v.elems[i]);
      PrintScalar(v.elems[i], level);
    }
  }

  lemma {:induction false} EntriesAreLaidOut(v: Value, keys: seq<string>, i: nat, level: nat)
    requires (v.Dictionary? || v.StreamValue?) && i <= |keys| && forall i :: 0 <= i < |keys| ==> keys[i] in v.entries
    ensures RowsText(EntryRows(v, keys, i, level + 1)) == Join(DictEntries(v, keys, level)[i..])
    decreases v, 1, |keys| - i
  {
    hide Join, RowsText, Indent, Print, RowsOf;
    var es := DictEntries(v, keys, level);
    if i == |keys| {
      assert es[i..] == [] && es[..0] == [];
      JoinNone(es);
      NoRows();
    } else {
      JoinFront(es[i..]);
      assert es[i..][1..] == es[i + 1..];
      var w, head := v.entries[keys[i]], "/" + keys[i] + " ";
      PrintIsLaidOut(w, level + 1, head);
      EntriesAreLaidOut(v, keys, i + 1, level);
      RowsJoin(RowsOf(w, level + 1, head), EntryRows(v, keys, i + 1, level + 1));
      HeadIsIn(Indent(level + 1), keys[i], Print(w, level + 1));
    }
  }

  lemma NoRows()
    ensures RowsText([]) == ""
  {
  }

  lemma HeadIsIn(indent: string, key: string, text: string)
    ensures indent + ("/" + key + " ") + text + "\n" == indent + "/" + key + " " + text + "\n"
  {
    assert indent + ("/" + key + " ") == indent + "/" + key + " ";
  }

  lemma {:induction false} ElemsAreLaidOut(v: Value, i: nat, level: nat)
    requires v.List? && i <= |v.elems|
    ensures RowsText(ElemRows(v, i, level + 1)) == Join(LongElems(v, level)[i..])
    decreases v, 1, |v.elems| - i
  {
    hide Join, RowsText, Indent, Print, RowsOf;
    var es := LongElems(v, level);
    if i == |v.elems| {
      assert es[i..] == [] && es[..0] == [];
      JoinNone(es);
      NoRows();
    } else {
      JoinFront(es[i..]);
      assert es[i..][1..] == es[i + 1..];
      PrintIsLaidOut(v.elems[i], level + 1, "");
      ElemsAreLaidOut(v, i + 1, level);
      RowsJoin(RowsOf(v.elems[i], level + 1, ""), ElemRows(v, i + 1, level + 1));
      assert Indent(level + 1) + "" == Indent(level + 1);
    }
  }

  // The source of one object under a cap.

  /** The lines of the i-th entry. */
  function EntryRow(v: Value, i: nat): seq<Row>
    requires HasEntries(v) && i < |Entries(v)|
  {
    if v.List? then RowsOf(v.elems[i], 1, "")
    else var key := Sorted(v.entries.Keys)[i]; RowsOf(v.entries[key], 1, "/" + key + " ")
  }

  /** The lines of the first k entries. */
  function FirstRows(v: Value, k: nat): seq<Row>
    requires HasEntries(v) && k <= |Entries(v)|
  {
    if k == 0 then [] else FirstRows(v, k - 1) + EntryRow(v, k - 1)
  }

  lemma EntryIsLaidOut(v: Value, i: nat)
    requires HasEntries(v) && i < |Entries(v)|
    ensures RowsText(EntryRow(v, i)) == Entries(v)[i]
  {
    hide RowsText, Indent, Print, RowsOf, IsShort, Join;
    if v.List? {
      PrintIsLaidOut(v.elems[i], 1, "");
      assert Indent(1) + "" == Indent(1);
    } else {
      var key := Sorted(v.entries.Keys)[i];
      PrintIsLaidOut(v.entries[key], 1, "/" + key + " ");
      HeadIsIn(Indent(1), key, Print(v.entries[key], 1));
    }
  }

  lemma {:induction false} FirstAreLaidOut(v: Value, k: nat)
    requires HasEntries(v) && k <= |Entries(v)|
    ensures RowsText(FirstRows(v, k)) == Join(Entries(v)[..k])
  {
    hide RowsText, Join, Entries, EntryRow;
    if k == 0 {
      NoRows();
      JoinNone(Entries(v));
    } else {
      FirstAreLaidOut(v, k - 1);
      EntryIsLaidOut(v, k - 1);
      RowsJoin(FirstRows(v, k - 1), EntryRow(v, k - 1));
      JoinOne(Entries(v), k - 1);
    }
  }

  /** The lines of an object's source: its header when that fits, the entries that fit, the count of the others. */
  function SourceRows(cap: nat, num: nat, gen: nat, v: Value): seq<Row>
    requires HasEntries(v)
  {
    var n, k := |Entries(v)|, Fitting(cap, num, gen, v);
    (if |Header(num, gen)| > cap then [] else [Row(0, Decimal(num) + " " + Decimal(gen) + " obj")])
    + [Row(0, if v.List? then "[" else "<<")]
    + FirstRows(v, k)
    + (if k < n then [Row(1, "... [truncated, " + Decimal(n - k) + " more entries]")] else [])
    + [Row(0, if v.List? then "]" else ">>")]
  }

  /** The source of an object is its lines, for a stream the envelope of its content, and the end of the object. */
  lemma CappedIsLaidOut(cap: nat, num: nat, gen: nat, v: Value, placeholder: string)
    requires HasEntries(v)
    ensures CappedSource(cap, num, gen, v, placeholder) ==
      RowsText(SourceRows(cap, num, gen, v))
      + (if v.StreamValue? then "stream\n" + placeholder + "endstream\n" else "") + "endobj"
  {
    hide RowsText, Entries, FirstRows, Join, Fitting, Decimal, Indent, Header, IsShort;
    var n, k := |Entries(v)|, Fitting(cap, num, gen, v);
    var head := if |Header(num, gen)| > cap then [] else [Row(0, Decimal(num) + " " + Decimal(gen) + " obj")];
    var open, close := [Row(0, if v.List? then "[" else "<<")], [Row(0, if v.List? then "]" else ">>")];
    var mark := if k < n then [Row(1, "... [truncated, " + Decimal(n - k) + " more entries]")] else [];
    FirstAreLaidOut(v, k);
    HeaderRow(cap, num, gen);
    BracketRows(v);
    MarkerRow(n, k);
    RowsJoin(head + open + FirstRows(v, k) + mark, close);
    RowsJoin(head + open + FirstRows(v, k), mark);
    RowsJoin(head + open, FirstRows(v, k));
    RowsJoin(head, open);
    SourceParts(RowsText(head), Open(v), Join(Entries(v)[..k]), RowsText(mark), Close(v), v, placeholder);
  }

  lemma HeaderRow(cap: nat, num: nat, gen: nat)
    ensures RowsText(if |Header(num, gen)| > cap then [] else [Row(0, Decimal(num) + " " + Decimal(gen) + " obj")])
      == if |Header(num, gen)| > cap then "" else Header(num, gen)
  {
    hide Decimal, RowsText;
    var text := Decimal(num) + " " + Decimal(gen) + " obj";
    OneRow(Row(0, text));
    NoRows();
    assert "" + text + "\n" == Decimal(num) + " " + Decimal(gen) + " obj\n";
  }

  lemma BracketRows(v: Value)
    requires HasEntries(v)
    ensures RowsText([Row(0, if v.List? then "[" else "<<")]) == Open(v)
    ensures RowsText([Row(0, if v.List? then "]" else ">>")]) == Close(v) + "\n"
  {
    hide RowsText;
    OneRow(Row(0, if v.List? then "[" else "<<"));
    OneRow(Row(0, if v.List? then "]" else ">>"));
  }

  lemma MarkerRow(n: nat, k: nat)
    requires k <= n
    ensures RowsText(if k < n then [Row(1, "... [truncated, " + Decimal(n - k) + " more entries]")] else [])
      == if k < n then Marker(0, n - k) else ""
  {
    hide RowsText, Decimal;
    NoRows();
    if k < n {
      var text := "... [truncated, " + Decimal(n - k) + " more entries]";
      OneRow(Row(1, text));
      BlanksAreIndent(1);
      assert Blanks(1) + text + "\n" == Indent(1) + "... [truncated, " + Decimal(n - k) + " more entries]\n";
    }
  }

  lemma SourceParts(head: string, open: string, kept: string, mark: string, close: string, v: Value,
                    placeholder: string)
    ensures head + open + (kept + mark + Indent(0) + close) + Tail(v, placeholder) ==
      head + open + kept + mark + (close + "\n")
      + (if v.StreamValue? then "stream\n" + placeholder + "endstream\n" else "") + "endobj"
  {
    assert Indent(0) == "";
    var a := head + open + kept + mark + close;
    assert head + open + (kept + mark + Indent(0) + close) == a;
    if v.StreamValue? {
      assert Tail(v, placeholder) == "\n" + ("stream\n" + placeholder + "endstream\n") + "endobj";
    } else {
      assert Tail(v, placeholder) == "\n" + "" + "endobj";
    }
  }
}
