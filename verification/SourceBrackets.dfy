/** The brackets of a printed source balance, however much of it the cap leaves out. */
module SourceBrackets {
  import opened PdfObjects
  import opened SourcePrinter

  predicate IsOpening(c: char) {
    c == '<' || c == '['
  }

  predicate IsClosing(c: char) {
    c == '>' || c == ']'
  }

  function OpeningOf(c: char): char {
    if c == '>' then '<' else '['
  }

  datatype Option<T> = None | Some(value: T)

  /** The brackets left open after a text, innermost first, or none when a bracket closes another kind or nothing. */
  function Scan(s: string, st: seq<char>): Option<seq<char>>
    decreases |s|
  {
    if s == "" then Some(st)
    else if IsOpening(s[0]) then Scan(s[1..], [s[0]] + st)
    else if IsClosing(s[0]) then
      if st != [] && st[0] == OpeningOf(s[0]) then Scan(s[1..], st[1..]) else None
    else Scan(s[1..], st)
  }

  /** Every bracket in the text is closed in it by its own kind. */
  ghost predicate Balanced(s: string) {
    forall st :: Scan(s, st) == Some(st)
  }

  /** A text with no brackets at all. */
  predicate IsPlain(s: string) {
    forall i :: 0 <= i < |s| ==> !IsOpening(s[i]) && !IsClosing(s[i])
  }

  lemma {:induction false} ScanJoins(a: string, b: string, st: seq<char>)
    ensures Scan(a + b, st) == var r := Scan(a, st); if r.None? then None else Scan(b, r.value)
    decreases |a|
  {
    if a == "" {
      assert a + b == b;
    } else {
      assert (a + b)[0] == a[0] && (a + b)[1..] == a[1..] + b;
      if IsOpening(a[0]) {
        ScanJoins(a[1..], b, [a[0]] + st);
      } else if IsClosing(a[0]) {
        if st != [] {
          ScanJoins(a[1..], b, st[1..]);
        }
      } else {
        ScanJoins(a[1..], b, st);
      }
    }
  }

  lemma {:induction false} PlainIsBalanced(s: string)
    requires IsPlain(s)
    ensures Balanced(s)
    decreases |s|
  {
    if s != "" {
      PlainIsBalanced(s[1..]);
    }
  }

  lemma BalancedJoins(a: string, b: string)
    requires Balanced(a) && Balanced(b)
    ensures Balanced(a + b)
  {
    forall st
      ensures Scan(a + b, st) == Some(st)
    {
      ScanJoins(a, b, st);
    }
  }

  lemma BalancedInside(open: char, a: string, close: char)
    requires IsOpening(open) && IsClosing(close) && OpeningOf(close) == open && Balanced(a)
    ensures Balanced([open] + a + [close])
  {
    forall st
      ensures Scan([open] + a + [close], st) == Some(st)
    {
      ScanJoins([open] + a, [close], st);
      ScanJoins([open], a, st);
      assert Scan([open], st) == Scan("", [open] + st) == Some([open] + st);
      assert Scan([close], [open] + st) == Scan("", ([open] + st)[1..]);
    }
  }

  lemma {:induction false} BalancedAll(es: seq<string>)
    requires forall i :: 0 <= i < |es| ==> Balanced(es[i])
    ensures Balanced(Join(es))
  {
    if es == [] {
      PlainIsBalanced("");
    } else {
      BalancedAll(es[..|es| - 1]);
      BalancedJoins(Join(es[..|es| - 1]), es[|es| - 1]);
    }
  }

  // Values whose own texts hold no brackets.

  predicate HasPlainTexts(v: Value)
    decreases v
  {
    match v
    case Number(digits) => IsPlain(digits)
    case Name(t) => IsPlain(t)
    case Literal(t) => IsPlain(t)
    case HexLiteral(t) => IsPlain(t)
    case List(elems) => forall i :: 0 <= i < |elems| ==> HasPlainTexts(elems[i])
    case Dictionary(m) => forall k :: k in m ==> IsPlain(k) && HasPlainTexts(m[k])
    case StreamValue(m) => forall k :: k in m ==> IsPlain(k) && HasPlainTexts(m[k])
    case _ => true
  }

  lemma {:induction false} DecimalIsPlain(n: nat)
    ensures IsPlain(Decimal(n))
  {
    if n >= 10 {
      DecimalIsPlain(n / 10);
    }
  }

  lemma ScalarIsBalanced(v: Value)
    requires !IsContainerValue(v) && HasPlainTexts(v)
    ensures Balanced(ScalarText(v))
  {
    match v
    case HexLiteral(t) =>
      PlainIsBalanced(t);
      BalancedInside('<', t, '>');
    case Reference(num, gen) =>
      DecimalIsPlain(num);
      DecimalIsPlain(gen);
      PlainIsBalanced(ScalarText(v));
    case Boolean(_) => PlainIsBalanced(ScalarText(v));
    case Number(_) => PlainIsBalanced(ScalarText(v));
    case Name(_) => PlainIsBalanced(ScalarText(v));
    case Literal(_) => PlainIsBalanced(ScalarText(v));
    case Null => PlainIsBalanced(ScalarText(v));
    case Unknown => PlainIsBalanced(ScalarText(v));
  }

  lemma IndentIsBalanced(depth: nat)
    ensures Balanced(Indent(depth))
  {
    PlainIsBalanced(Indent(depth));
  }

  /** Text in the brackets of a dictionary. */
  lemma InDictionary(a: string)
    requires Balanced(a)
    ensures Balanced("<<\n" + a + ">>")
  {
    PlainIsBalanced("\n");
    BalancedJoins("\n", a);
    BalancedInside('<', "\n" + a, '>');
    BalancedInside('<', ['<'] + ("\n" + a) + ['>'], '>');
    assert ['<'] + (['<'] + ("\n" + a) + ['>']) + ['>'] == "<<\n" + a + ">>";
  }

  /** Text in the brackets of an array, after before. */
  lemma InArray(before: string, a: string, after: string)
    requires IsPlain(before) && Balanced(a) && IsPlain(after)
    ensures Balanced("[" + before + a + after + "]")
  {
    PlainIsBalanced(before);
    PlainIsBalanced(after);
    BalancedJoins(before, a);
    BalancedJoins(before + a, after);
    BalancedInside('[', before + a + after, ']');
    assert ['['] + (before + a + after) + [']'] == "[" + before + a + after + "]";
  }

  lemma {:induction false} EntryIsBalanced(v: Value, keys: seq<string>, depth: nat, i: nat)
    requires (v.Dictionary? || v.StreamValue?) && HasPlainTexts(v) && i < |keys|
    requires forall j :: 0 <= j < |keys| ==> keys[j] in v.entries
    ensures Balanced(DictEntries(v, keys, depth)[i])
    decreases v, 0
  {
    hide Balanced, IsPlain, Indent, Print;
    var k := keys[i];
    assert IsPlain(k) && HasPlainTexts(v.entries[k]);
    PrintIsBalanced(v.entries[k], depth + 1);
    IndentIsBalanced(depth + 1);
    KeyIsBalanced(k);
    var front := Indent(depth + 1) + "/" + k + " ";
    BalancedJoins(Indent(depth + 1), "/" + k + " ");
    assert Indent(depth + 1) + ("/" + k + " ") == front;
    BalancedJoins(front, Print(v.entries[k], depth + 1));
    BalancedJoins(front + Print(v.entries[k], depth + 1), "\n");
  }

  lemma KeyIsBalanced(k: string)
    requires IsPlain(k)
    ensures Balanced("/" + k + " ") && Balanced("\n") && Balanced(" ")
  {
    PlainIsBalanced("/" + k + " ");
    PlainIsBalanced("\n");
    PlainIsBalanced(" ");
  }

  lemma {:induction false} ElemIsBalanced(v: Value, depth: nat, i: nat)
    requires v.List? && HasPlainTexts(v) && i < |v.elems|
    ensures Balanced(ShortElems(v, depth)[i]) && Balanced(LongElems(v, depth)[i])
    decreases v, 0
  {
    hide Balanced, IsPlain, Indent, Print;
    var e := v.elems[i];
    PrintIsBalanced(e, depth);
    PrintIsBalanced(e, depth + 1);
    IndentIsBalanced(depth + 1);
    PlainKey();
    BalancedJoins(" ", Print(e, depth));
    BalancedJoins(Indent(depth + 1), Print(e, depth + 1));
    BalancedJoins(Indent(depth + 1) + Print(e, depth + 1), "\n");
  }

  lemma PlainKey()
    ensures Balanced("\n") && Balanced(" ") && IsPlain("") && IsPlain(" ") && IsPlain("\n")
  {
    PlainIsBalanced("\n");
    PlainIsBalanced(" ");
  }

  /** A printed value's brackets balance. */
  lemma {:induction false} PrintIsBalanced(v: Value, depth: nat)
    requires HasPlainTexts(v)
    ensures Balanced(Print(v, depth))
    decreases v, 1
  {
    hide Balanced, IsPlain, Indent, Sorted, Join;
    PlainKey();
    IndentIsBalanced(depth);
    if v.Dictionary? || v.StreamValue? {
      var keys := Sorted(v.entries.Keys);
      var es := DictEntries(v, keys, depth);
      forall i | 0 <= i < |es|
        ensures Balanced(es[i])
      {
        EntryIsBalanced(v, keys, depth, i);
      }
      BalancedAll(es);
      BalancedJoins(Join(es), Indent(depth));
      InDictionary(Join(es) + Indent(depth));
      PrintDict(v, depth);
      assert "<<\n" + (Join(es) + Indent(depth)) + ">>" == "<<\n" + Join(es) + Indent(depth) + ">>";
    } else if v.List? {
      var short, long := ShortElems(v, depth), LongElems(v, depth);
      forall i | 0 <= i < |v.elems|
        ensures Balanced(short[i]) && Balanced(long[i])
      {
        ElemIsBalanced(v, depth, i);
      }
      BalancedAll(short);
      BalancedAll(long);
      BalancedJoins(Join(long), Indent(depth));
      InArray("", Join(short), " ");
      InArray("\n", Join(long) + Indent(depth), "");
      PrintList(v, depth);
      assert "[" + "" + Join(short) + " " + "]" == "[" + Join(short) + " ]";
      assert "[" + "\n" + (Join(long) + Indent(depth)) + "" + "]" == "[\n" + Join(long) + Indent(depth) + "]";
    } else {
      ScalarIsBalanced(v);
    }
  }

  lemma MarkerIsBalanced(depth: nat, dropped: nat)
    ensures Balanced(Marker(depth, dropped))
  {
    hide Balanced, Decimal;
    DecimalIsPlain(dropped);
    IndentIsBalanced(depth + 1);
    var text := "truncated, " + Decimal(dropped) + " more entries";
    PlainIsBalanced(text);
    PlainIsBalanced("... ");
    PlainIsBalanced("\n");
    BalancedInside('[', text, ']');
    var note := ['['] + text + [']'];
    BalancedJoins("... ", note);
    BalancedJoins("... " + note, "\n");
    BalancedJoins(Indent(depth + 1), "... " + note + "\n");
    assert "... " + note + "\n" == "... [truncated, " + Decimal(dropped) + " more entries]\n";
    assert Marker(depth, dropped) == Indent(depth + 1) + ("... " + note + "\n");
  }

  /** The entries kept, the count of the others and the brackets around them. */
  lemma CappedIsBalanced(v: Value, k: nat)
    requires HasEntries(v) && HasPlainTexts(v) && k <= |Entries(v)|
    ensures Balanced(Open(v) + Inside(Entries(v), k, 0, Close(v)))
  {
    hide Balanced, IsPlain, Indent, Join, Marker, HasPlainTexts;
    var es := Entries(v);
    forall i | 0 <= i < k
      ensures Balanced(es[..k][i])
    {
      if v.List? {
        ElemIsBalanced(v, 0, i);
      } else {
        EntryIsBalanced(v, Sorted(v.entries.Keys), 0, i);
      }
    }
    BalancedAll(es[..k]);
    PlainKey();
    IndentIsBalanced(0);
    var note := if k < |es| then Marker(0, |es| - k) else "";
    if k < |es| {
      MarkerIsBalanced(0, |es| - k);
    } else {
      PlainIsBalanced("");
    }
    BalancedJoins(Join(es[..k]), note);
    var all := Join(es[..k]) + note + Indent(0);
    BalancedJoins(Join(es[..k]) + note, Indent(0));
    InDictionary(all);
    InArray("\n", all, "");
    if v.List? {
      assert "[" + "\n" + all + "" + "]" == Open(v) + Inside(es, k, 0, Close(v));
    } else {
      assert "<<\n" + all + ">>" == Open(v) + Inside(es, k, 0, Close(v));
    }
  }

  lemma TailIsBalanced(v: Value, placeholder: string)
    requires Balanced(placeholder)
    ensures Balanced(Tail(v, placeholder))
  {
    hide Balanced;
    PlainIsBalanced("\nstream\n");
    PlainIsBalanced("endstream\nendobj");
    PlainIsBalanced("\nendobj");
    BalancedJoins("\nstream\n", placeholder);
    BalancedJoins("\nstream\n" + placeholder, "endstream\nendobj");
    if v.StreamValue? {
      assert Tail(v, placeholder) == "\nstream\n" + placeholder + "endstream\nendobj";
    } else {
      assert Tail(v, placeholder) == "\nendobj";
    }
  }

  lemma HeaderIsBalanced(num: nat, gen: nat)
    ensures Balanced(Header(num, gen)) && Balanced("")
  {
    DecimalIsPlain(num);
    DecimalIsPlain(gen);
    PlainIsBalanced(Header(num, gen));
    PlainIsBalanced("");
  }

  /** Whatever the cap, the brackets of a printed object balance, if no text in it holds brackets and those of the
      placeholder balance. */
  lemma SourceIsBalanced(cap: nat, num: nat, gen: nat, v: Value, placeholder: string)
    requires HasEntries(v) && HasPlainTexts(v) && Balanced(placeholder)
    ensures Balanced(CappedSource(cap, num, gen, v, placeholder))
  {
    hide Balanced, HasPlainTexts, Inside, Entries, Decimal, Tail, Header, Open, Close, Fitting;
    var k := Fitting(cap, num, gen, v);
    CappedIsBalanced(v, k);
    HeaderIsBalanced(num, gen);
    TailIsBalanced(v, placeholder);
    var head := if |Header(num, gen)| > cap then "" else Header(num, gen);
    var body := Open(v) + Inside(Entries(v), k, 0, Close(v));
    BalancedJoins(head, body);
    BalancedJoins(head + body, Tail(v, placeholder));
    assert head + Open(v) + Inside(Entries(v), k, 0, Close(v)) == head + body;
  }
}
