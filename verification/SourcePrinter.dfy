/** The printed source of one object, and the writer that prints it under a cap. */
module SourcePrinter {
  import opened PdfObjects

  /** Values as they print.  A number carries its digits. */
  datatype Value =
    | Null
    | Unknown
    | Boolean(b: bool)
    | Number(digits: string)
    | Name(text: string)
    | Literal(text: string)
    | HexLiteral(text: string)
    | Reference(num: nat, gen: nat)
    | List(elems: seq<Value>)
    | Dictionary(entries: map<string, Value>)
    | StreamValue(entries: map<string, Value>)

  const SHORT_ARRAY := 4

  function Decimal(n: nat): string {
    if n < 10 then ["0123456789"[n]] else Decimal(n / 10) + ["0123456789"[n % 10]]
  }

  function Spaces(n: nat): string {
    seq(n, _ => ' ')
  }

  function Indent(depth: nat): string {
    Spaces(4 * depth)
  }

  function Join(es: seq<string>): string {
    if es == [] then "" else Join(es[..|es| - 1]) + es[|es| - 1]
  }

  predicate IsContainerValue(v: Value) {
    v.List? || v.Dictionary? || v.StreamValue?
  }

  /** A list of a few values, none a container, prints on one line. */
  predicate IsShort(elems: seq<Value>) {
    |elems| <= SHORT_ARRAY && forall i :: 0 <= i < |elems| ==> !IsContainerValue(elems[i])
  }

  // The text with no cap.

  function ScalarText(v: Value): string {
    match v
    case Boolean(b) => if b then "true" else "false"
    case Number(digits) => digits
    case Name(t) => "/" + t
    case Literal(t) => "(" + t + ")"
    case HexLiteral(t) => "<" + t + ">"
    case Reference(num, gen) => Decimal(num) + " " + Decimal(gen) + " R"
    case Null => "null"
    case _ => "Unknown"
  }

  function Print(v: Value, depth: nat): string
    decreases v, 1
  {
    match v
    case Dictionary(m) => "<<\n" + Join(DictEntries(v, Sorted(m.Keys), depth)) + Indent(depth) + ">>"
    case StreamValue(m) => "<<\n" + Join(DictEntries(v, Sorted(m.Keys), depth)) + Indent(depth) + ">>"
    case List(elems) =>
      if IsShort(elems) then "[" + Join(ShortElems(v, depth)) + " ]"
      else "[\n" + Join(LongElems(v, depth)) + Indent(depth) + "]"
    case _ => ScalarText(v)
  }

  /** One line or more per entry, in key order. */
  function DictEntries(v: Value, keys: seq<string>, depth: nat): (es: seq<string>)
    requires (v.Dictionary? || v.StreamValue?) && forall i :: 0 <= i < |keys| ==> keys[i] in v.entries
    ensures |es| == |keys|
    decreases v, 0
  {
    seq(|keys|, i requires 0 <= i < |keys| =>
      Indent(depth + 1) + "/" + keys[i] + " " + Print(v.entries[keys[i]], depth + 1) + "\n")
  }

  function ShortElems(v: Value, depth: nat): (es: seq<string>)
    requires v.List?
    ensures |es| == |v.elems|
    decreases v, 0
  {
    seq(|v.elems|, i requires 0 <= i < |v.elems| => " " + Print(v.elems[i], depth))
  }

  function LongElems(v: Value, depth: nat): (es: seq<string>)
    requires v.List?
    ensures |es| == |v.elems|
    decreases v, 0
  {
    seq(|v.elems|, i requires 0 <= i < |v.elems| => Indent(depth + 1) + Print(v.elems[i], depth + 1) + "\n")
  }

  // The text under a cap.

  /** How many entries, from the i-th on, are kept: up to the first with which the text so far passes the cap. */
  function Kept(cap: nat, used: nat, es: seq<string>, i: nat): (k: nat)
    requires i <= |es|
    ensures i <= k <= |es|
    decreases |es| - i
  {
    if i == |es| || used + |Join(es[..i + 1])| > cap then i else Kept(cap, used, es, i + 1)
  }

  function Marker(depth: nat, dropped: nat): string {
    Indent(depth + 1) + "... [truncated, " + Decimal(dropped) + " more entries]\n"
  }

  /** What is written after the opening bracket: the entries kept, the count of those dropped, the closing bracket. */
  function Inside(es: seq<string>, k: nat, depth: nat, close: string): string
    requires k <= |es|
  {
    Join(es[..k]) + (if k < |es| then Marker(depth, |es| - k) else "") + Indent(depth) + close
  }

  lemma {:induction false} JoinGrows(es: seq<string>, i: nat, j: nat)
    requires i <= j <= |es|
    ensures |Join(es[..i])| <= |Join(es[..j])|
    decreases j
  {
    if i < j {
      JoinGrows(es, i, j - 1);
      assert es[..j][..j - 1] == es[..j - 1];
    }
  }

  lemma {:induction false} KeptFrom(cap: nat, used: nat, es: seq<string>, i: nat)
    requires i <= |es|
    ensures var k := Kept(cap, used, es, i);
      forall j :: i < j <= |es| ==> (used + |Join(es[..j])| <= cap <==> j <= k)
    decreases |es| - i
  {
    if i < |es| && used + |Join(es[..i + 1])| <= cap {
      KeptFrom(cap, used, es, i + 1);
    } else {
      forall j | i < j <= |es|
        ensures used + |Join(es[..j])| > cap
      {
        JoinGrows(es, i + 1, j);
      }
    }
  }

  /** The entries kept are the longest run of whole entries whose text fits the cap. */
  lemma KeptIsLongest(cap: nat, used: nat, es: seq<string>, j: nat)
    requires 0 < j <= |es|
    ensures used + |Join(es[..j])| <= cap <==> j <= Kept(cap, used, es, 0)
  {
    KeptFrom(cap, used, es, 0);
  }

  /** When every entry fits, the text is the one with no cap. */
  lemma AllKept(cap: nat, used: nat, es: seq<string>)
    requires es == [] || used + |Join(es)| <= cap
    ensures Kept(cap, used, es, 0) == |es|
  {
    if es != [] {
      assert es[..|es|] == es;
      KeptIsLongest(cap, used, es, |es|);
    }
  }

  /** From buffer b to c: what every printing step does.  It only appends; it appends the whole text unless
      truncated; and it is first truncated only when the whole text passes the cap. */
  predicate Appended(cap: nat, b: string, bt: bool, c: string, ct: bool, text: string) {
    && (bt ==> ct)
    && b <= c
    && (!ct ==> c == b + text)
    && (ct && !bt ==> |b| + |text| > cap)
  }

  lemma AppendedTwice(cap: nat, b: string, bt: bool, c: string, ct: bool, d: string, dt: bool, x: string, y: string)
    requires Appended(cap, b, bt, c, ct, x) && Appended(cap, c, ct, d, dt, y)
    ensures Appended(cap, b, bt, d, dt, x + y)
  {
    if !dt {
      assert (b + x) + y == b + (x + y);
    }
  }

  lemma AppendedNothing(cap: nat, b: string, bt: bool)
    ensures Appended(cap, b, bt, b, bt, "")
  {
    assert b + "" == b;
  }

  /** Writing kept entries between brackets appends the uncapped text, or passes the cap. */
  lemma InsideIsAppended(cap: nat, b: string, bt: bool, open: string, es: seq<string>, k: nat, depth: nat,
                         close: string)
    requires k == if bt then 0 else Kept(cap, |b + open|, es, 0)
    requires k <= |es|
    ensures Appended(cap, b, bt, b + open + Inside(es, k, depth, close), bt || k < |es|,
                     open + Join(es) + Indent(depth) + close)
  {
    var text := open + Join(es) + Indent(depth) + close;
    assert b <= b + open <= b + open + Inside(es, k, depth, close);
    if k == |es| {
      assert es[..k] == es;
      assert Inside(es, k, depth, close) == Join(es) + "" + Indent(depth) + close;
      assert b + open + Inside(es, k, depth, close) == b + text;
    } else if !bt {
      KeptIsLongest(cap, |b + open|, es, k + 1);
      JoinGrows(es, k + 1, |es|);
      assert es[..|es|] == es;
    }
  }

  lemma MarkerText(kept: string, depth: nat, dropped: nat)
    ensures kept + Indent(depth + 1) + ("... [truncated, " + Decimal(dropped) + " more entries]\n") ==
      kept + Marker(depth, dropped)
  {
  }

  lemma InsideText(b: string, open: string, es: seq<string>, k: nat, depth: nat, close: string, kept: string)
    requires k <= |es| && kept == b + open + Join(es[..k])
    ensures k == |es| ==> kept + Indent(depth) + close == b + open + Inside(es, k, depth, close)
    ensures k < |es| ==>
      kept + Marker(depth, |es| - k) + Indent(depth) + close == b + open + Inside(es, k, depth, close)
  {
    hide Join, Indent, Marker;
    var none: string := "";
    assert kept + none == kept;
  }

  lemma PrintDict(v: Value, depth: nat)
    requires v.Dictionary? || v.StreamValue?
    ensures Print(v, depth) == "<<\n" + Join(DictEntries(v, Sorted(v.entries.Keys), depth)) + Indent(depth) + ">>"
  {
  }

  lemma PrintList(v: Value, depth: nat)
    requires v.List?
    ensures IsShort(v.elems) ==> Print(v, depth) == "[" + Join(ShortElems(v, depth)) + " ]"
    ensures !IsShort(v.elems) ==> Print(v, depth) == "[\n" + Join(LongElems(v, depth)) + Indent(depth) + "]"
  {
  }

  class SourceWriter {
    const cap: nat
    var buf: string
    var truncated: bool

    constructor (cap: nat)
      ensures this.cap == cap && buf == "" && !truncated
    {
      this.cap, buf, truncated := cap, "", false;
    }

    twostate predicate Wrote(text: string)
      reads this
    {
      Appended(cap, old(buf), old(truncated), buf, truncated, text)
    }

    /** Between its brackets, the longest run of whole entries that fits the cap, and the count of the others. */
    twostate predicate WroteEntries(open: string, es: seq<string>, depth: nat, close: string)
      reads this
    {
      var k := if old(truncated) then 0 else Kept(cap, |old(buf) + open|, es, 0);
      buf == old(buf) + open + Inside(es, k, depth, close) && truncated == (old(truncated) || k < |es|)
    }

    /** Appends s when it fits, and is truncated from then on when it does not. */
    method WriteString(s: string)
      modifies this
      ensures truncated == (old(truncated) || |old(buf)| + |s| > cap)
      ensures buf == if truncated then old(buf) else old(buf) + s
      ensures Wrote(s)
    {
      if truncated {
        return;
      }
      if |buf| + |s| > cap {
        truncated := true;
        return;
      }
      buf := buf + s;
    }

    method WriteAlways(s: string)
      modifies this`buf
      ensures buf == old(buf) + s
    {
      buf := buf + s;
    }

    method Rollback(mark: nat)
      requires mark <= |buf|
      modifies this`buf
      ensures buf == old(buf)[..mark]
    {
      buf := buf[..mark];
    }

    method WriteValue(v: Value, depth: nat)
      modifies this
      ensures Wrote(Print(v, depth))
      decreases v, 3
    {
      hide Appended, Inside, DictEntries, LongElems, ShortElems;
      match v {
        case Dictionary(_) => WriteDict(v, depth);
        case StreamValue(_) => WriteDict(v, depth);
        case List(_) => WriteArray(v, depth);
        case _ => WriteScalar(v);
      }
    }

    method WriteScalar(v: Value)
      requires !IsContainerValue(v)
      modifies this
      ensures Wrote(ScalarText(v))
    {
      hide Appended;
      ghost var b, bt := buf, truncated;
      if v.Name? {
        WriteString("/");
        WriteNext(b, bt, "/", v.text);
      } else if v.Literal? {
        WriteString("(");
        WriteNext(b, bt, "(", v.text);
        WriteNext(b, bt, "(" + v.text, ")");
      } else if v.HexLiteral? {
        WriteString("<");
        WriteNext(b, bt, "<", v.text);
        WriteNext(b, bt, "<" + v.text, ">");
      } else {
        WriteString(ScalarText(v));
      }
    }

    /** Writes s after a text begun at buffer b. */
    method WriteNext(ghost b: string, ghost bt: bool, ghost text: string, s: string)
      requires Appended(cap, b, bt, buf, truncated, text)
      modifies this
      ensures Appended(cap, b, bt, buf, truncated, text + s)
      ensures !truncated && s != "" ==> |buf| <= cap
    {
      ghost var c, ct := buf, truncated;
      WriteString(s);
      AppendedTwice(cap, b, bt, c, ct, buf, truncated, text, s);
    }

    /** Writes the whole entries of a container that fit, and nothing of the first that does not. */
    method WriteDict(v: Value, depth: nat)
      requires v.Dictionary? || v.StreamValue?
      modifies this
      ensures WroteEntries("<<\n", DictEntries(v, Sorted(v.entries.Keys), depth), depth, ">>")
      ensures Wrote(Print(v, depth))
      decreases v, 2
    {
      hide Appended, DictEntries, Kept, Join, Inside, Marker, Print, Indent, Sorted, Decimal;
      PrintDict(v, depth);
      WriteAlways("<<\n");
      var keys := Sorted(v.entries.Keys);
      ghost var es := DictEntries(v, keys, depth);
      ghost var base := buf;
      var emitted := 0;
      var truncatedAt := -1;
      JoinNone(es);
      while emitted < |keys|
        invariant 0 <= emitted <= |keys|
        invariant buf == base + Join(es[..emitted])
        invariant truncated == old(truncated) && (truncated ==> emitted == 0)
        invariant Kept(cap, |base|, es, 0) == Kept(cap, |base|, es, emitted)
      {
        if truncated {
          truncatedAt := emitted;
          break;
        }
        var mark := |buf|;
        WriteEntry(v, keys, emitted, depth);
        KeptStep(cap, base, es, emitted, buf, truncated);
        if truncated {
          Rollback(mark);
          truncatedAt := emitted;
          break;
        }
        emitted := emitted + 1;
      }
      ghost var kept := buf;
      if truncatedAt >= 0 {
        WriteAlways(Indent(depth + 1));
        WriteAlways("... [truncated, " + Decimal(|keys| - emitted) + " more entries]\n");
        MarkerText(kept, depth, |keys| - emitted);
      }
      WriteAlways(Indent(depth));
      WriteAlways(">>");
      InsideText(old(buf), "<<\n", es, emitted, depth, ">>", kept);
      InsideIsAppended(cap, old(buf), old(truncated), "<<\n", es, emitted, depth, ">>");
    }

    /** One entry of a dictionary. */
    method WriteEntry(v: Value, keys: seq<string>, i: nat, depth: nat)
      requires (v.Dictionary? || v.StreamValue?) && i < |keys| && forall i :: 0 <= i < |keys| ==> keys[i] in v.entries
      modifies this
      ensures Wrote(DictEntries(v, keys, depth)[i])
      ensures !truncated ==> |buf| <= cap
      decreases v, 1
    {
      hide Appended, Print;
      ghost var b, bt := buf, truncated;
      var key := keys[i];
      WriteString(Indent(depth + 1));
      WriteNext(b, bt, Indent(depth + 1), "/");
      WriteNext(b, bt, Indent(depth + 1) + "/", key);
      WriteNext(b, bt, Indent(depth + 1) + "/" + key, " ");
      ghost var c, ct := buf, truncated;
      WriteValue(v.entries[key], depth + 1);
      AppendedTwice(cap, b, bt, c, ct, buf, truncated, Indent(depth + 1) + "/" + key + " ",
                    Print(v.entries[key], depth + 1));
      WriteNext(b, bt, Indent(depth + 1) + "/" + key + " " + Print(v.entries[key], depth + 1), "\n");
    }

    method WriteArray(v: Value, depth: nat)
      requires v.List?
      modifies this
      ensures !IsShort(v.elems) ==> WroteEntries("[\n", LongElems(v, depth), depth, "]")
      ensures Wrote(Print(v, depth))
      decreases v, 2
    {
      hide Appended, LongElems, ShortElems, Kept, Join, Inside, Marker, Print, Indent, Decimal, IsShort;
      PrintList(v, depth);
      if IsShort(v.elems) {
        WriteShort(v, depth);
        return;
      }
      WriteAlways("[\n");
      ghost var es := LongElems(v, depth);
      ghost var base := buf;
      var emitted := 0;
      var truncatedAt := -1;
      JoinNone(es);
      while emitted < |v.elems|
        invariant 0 <= emitted <= |v.elems|
        invariant buf == base + Join(es[..emitted])
        invariant truncated == old(truncated) && (truncated ==> emitted == 0)
        invariant Kept(cap, |base|, es, 0) == Kept(cap, |base|, es, emitted)
      {
        if truncated {
          truncatedAt := emitted;
          break;
        }
        var mark := |buf|;
        WriteElem(v, emitted, depth);
        KeptStep(cap, base, es, emitted, buf, truncated);
        if truncated {
          Rollback(mark);
          truncatedAt := emitted;
          break;
        }
        emitted := emitted + 1;
      }
      ghost var kept := buf;
      if truncatedAt >= 0 {
        WriteAlways(Indent(depth + 1));
        WriteAlways("... [truncated, " + Decimal(|v.elems| - emitted) + " more entries]\n");
        MarkerText(kept, depth, |v.elems| - emitted);
      }
      WriteAlways(Indent(depth));
      WriteAlways("]");
      InsideText(old(buf), "[\n", es, emitted, depth, "]", kept);
      InsideIsAppended(cap, old(buf), old(truncated), "[\n", es, emitted, depth, "]");
    }

    /** One line of a long array. */
    method WriteElem(v: Value, i: nat, depth: nat)
      requires v.List? && i < |v.elems|
      modifies this
      ensures Wrote(LongElems(v, depth)[i])
      ensures !truncated ==> |buf| <= cap
      decreases v, 1
    {
      hide Appended, Print;
      ghost var b, bt := buf, truncated;
      WriteString(Indent(depth + 1));
      ghost var c, ct := buf, truncated;
      WriteValue(v.elems[i], depth + 1);
      AppendedTwice(cap, b, bt, c, ct, buf, truncated, Indent(depth + 1), Print(v.elems[i], depth + 1));
      WriteNext(b, bt, Indent(depth + 1) + Print(v.elems[i], depth + 1), "\n");
    }

    /** A short array on one line; elements that do not fit are dropped without a marker. */
    method WriteShort(v: Value, depth: nat)
      requires v.List? && IsShort(v.elems)
      modifies this
      ensures Wrote("[" + Join(ShortElems(v, depth)) + " ]")
      decreases v, 1
    {
      hide Appended, Join, Print;
      ghost var es := ShortElems(v, depth);
      ghost var b, bt := buf + "[", truncated;
      ghost var reached := 0;
      WriteAlways("[");
      JoinNone(es);
      AppendedNothing(cap, b, bt);
      for i := 0 to |v.elems|
        invariant Appended(cap, b, bt, buf, truncated, Join(es[..i])) && truncated == bt && b <= buf
        invariant reached == 0
      {
        var mark := |buf|;
        ghost var c := buf;
        WriteString(" ");
        ghost var d, dt := buf, truncated;
        WriteValue(v.elems[i], depth);
        AppendedTwice(cap, c, bt, d, dt, buf, truncated, " ", Print(v.elems[i], depth));
        AppendedTwice(cap, b, bt, c, bt, buf, truncated, Join(es[..i]), es[i]);
        JoinOne(es, i);
        if truncated {
          Rollback(mark);
          reached := i + 1;
          break;
        }
      }
      assert es[..|es|] == es;
      ShortEnds(cap, old(buf), bt, buf, truncated, es, reached);
      WriteAlways(" ]");
    }
  }

  lemma JoinOne(es: seq<string>, i: nat)
    requires i < |es|
    ensures Join(es[..i + 1]) == Join(es[..i]) + es[i]
  {
    assert es[..i + 1][..i] == es[..i];
  }

  lemma ShortEnds(cap: nat, b: string, bt: bool, buf: string, truncated: bool, es: seq<string>, reached: nat)
    requires (bt ==> truncated) && b + "[" <= buf && reached <= |es|
    requires !truncated ==> Appended(cap, b + "[", bt, buf, truncated, Join(es))
    requires truncated && !bt ==> |b + "["| + |Join(es[..reached])| > cap
    ensures Appended(cap, b, bt, buf + " ]", truncated, "[" + Join(es) + " ]")
  {
    assert es[..|es|] == es;
    if truncated {
      JoinGrows(es, reached, |es|);
    } else {
      assert buf + " ]" == b + ("[" + Join(es) + " ]");
    }
  }

  lemma JoinNone(es: seq<string>)
    ensures Join(es[..0]) == ""
  {
  }

  /** One more entry written: it is kept when it is not truncated, and otherwise the run of kept entries ends. */
  lemma KeptStep(cap: nat, base: string, es: seq<string>, i: nat, buf: string, truncated: bool)
    requires i < |es| && Appended(cap, base + Join(es[..i]), false, buf, truncated, es[i])
    requires !truncated ==> |buf| <= cap
    ensures |base + Join(es[..i])| <= |buf| && buf[..|base + Join(es[..i])|] == base + Join(es[..i])
    ensures !truncated ==> buf == base + Join(es[..i + 1]) && Kept(cap, |base|, es, i) == Kept(cap, |base|, es, i + 1)
    ensures truncated ==> Kept(cap, |base|, es, i) == i
  {
    assert es[..i + 1][..i] == es[..i] && es[..i + 1][i] == es[i];
    assert Join(es[..i + 1]) == Join(es[..i]) + es[i];
    assert base + Join(es[..i]) + es[i] == base + (Join(es[..i]) + es[i]);
  }

  // The source of one object.

  function Header(num: nat, gen: nat): string {
    Decimal(num) + " " + Decimal(gen) + " obj\n"
  }

  /** What follows the value: for a stream the envelope of its content, and always the end of the object. */
  function Tail(v: Value, placeholder: string): string {
    (if v.StreamValue? then "\nstream\n" + placeholder + "endstream" else "") + "\nendobj"
  }

  /** A dictionary, a stream or an array of one line per element. */
  predicate HasEntries(v: Value) {
    v.Dictionary? || v.StreamValue? || (v.List? && !IsShort(v.elems))
  }

  function Entries(v: Value): seq<string>
    requires HasEntries(v)
  {
    if v.List? then LongElems(v, 0) else DictEntries(v, Sorted(v.entries.Keys), 0)
  }

  function Open(v: Value): string {
    if v.List? then "[\n" else "<<\n"
  }

  function Close(v: Value): string {
    if v.List? then "]" else ">>"
  }

  function UncappedSource(num: nat, gen: nat, v: Value, placeholder: string): string {
    Header(num, gen) + Print(v, 0) + Tail(v, placeholder)
  }

  /** How many of an object's entries fit after its header. */
  function Fitting(cap: nat, num: nat, gen: nat, v: Value): (k: nat)
    requires HasEntries(v)
    ensures k <= |Entries(v)|
  {
    if |Header(num, gen)| > cap then 0 else Kept(cap, |Header(num, gen) + Open(v)|, Entries(v), 0)
  }

  /** The header when it fits, the entries that fit, the count of the others, the closing bracket and the envelope. */
  function CappedSource(cap: nat, num: nat, gen: nat, v: Value, placeholder: string): string
    requires HasEntries(v)
  {
    (if |Header(num, gen)| > cap then "" else Header(num, gen))
    + Open(v) + Inside(Entries(v), Fitting(cap, num, gen, v), 0, Close(v)) + Tail(v, placeholder)
  }

  /** The first j entries are printed exactly when the text up to the end of the j-th fits the cap. */
  lemma FittingIsLongest(cap: nat, num: nat, gen: nat, v: Value, j: nat)
    requires HasEntries(v) && 0 < j <= |Entries(v)|
    ensures j <= Fitting(cap, num, gen, v) <==> |Header(num, gen) + Open(v)| + |Join(Entries(v)[..j])| <= cap
  {
    hide Entries, Join, Open, Kept, Header;
    if |Header(num, gen)| <= cap {
      KeptIsLongest(cap, |Header(num, gen) + Open(v)|, Entries(v), j);
    }
  }

  /** When the text up to the last entry fits, capping changes nothing. */
  lemma FittingIsUncapped(cap: nat, num: nat, gen: nat, v: Value, placeholder: string)
    requires HasEntries(v) && |Header(num, gen)| <= cap
    requires Entries(v) != [] ==> |Header(num, gen) + Open(v)| + |Join(Entries(v))| <= cap
    ensures CappedSource(cap, num, gen, v, placeholder) == UncappedSource(num, gen, v, placeholder)
  {
    hide Join, Kept, Header, DictEntries, LongElems, Tail, Indent, Sorted, IsShort, Print;
    var es := Entries(v);
    AllKept(cap, |Header(num, gen) + Open(v)|, es);
    assert es[..|es|] == es;
    if v.List? {
      PrintList(v, 0);
    } else {
      PrintDict(v, 0);
    }
    var none: string := "";
    assert Join(es) + none == Join(es);
    assert Header(num, gen) + Open(v) + (Join(es) + Indent(0) + Close(v))
        == Header(num, gen) + (Open(v) + Join(es) + Indent(0) + Close(v));
  }

  /** Prints one object under a cap.  An object that did not resolve prints as null. */
  method ObjectSource(cap: nat, num: nat, gen: nat, v: Value, placeholder: string) returns (text: string)
    ensures HasEntries(v) ==> text == CappedSource(cap, num, gen, v, placeholder)
    ensures v.Null? ==> text == UncappedSource(num, gen, v, placeholder)
  {
    hide Join, Kept, Header, DictEntries, LongElems, Indent, Sorted, IsShort, Print, Inside, Appended, Decimal;
    if v.Null? {
      PrintNull();
      return Header(num, gen) + "null" + "\nendobj";
    }
    var w := new SourceWriter(cap);
    w.WriteString(Header(num, gen));
    ghost var start, bt := w.buf, w.truncated;
    if v.StreamValue? {
      WriteStreamObject(w, v, placeholder);
    } else if v.Dictionary? {
      w.WriteDict(v, 0);
    } else if v.List? {
      w.WriteArray(v, 0);
    } else {
      w.WriteScalar(v);
    }
    ghost var body := w.buf;
    w.WriteAlways("\nendobj");
    text := w.buf;
    if HasEntries(v) {
      SourceText(cap, num, gen, v, placeholder, start, bt, body);
    }
  }

  /** A stream's dictionary and the envelope of its content, which no cap leaves out. */
  method WriteStreamObject(w: SourceWriter, v: Value, placeholder: string)
    requires v.StreamValue?
    modifies w
    ensures var es := DictEntries(v, Sorted(v.entries.Keys), 0);
      var k := if old(w.truncated) then 0 else Kept(w.cap, |old(w.buf) + "<<\n"|, es, 0);
      w.buf == old(w.buf) + "<<\n" + Inside(es, k, 0, ">>") + ("\nstream\n" + placeholder + "endstream")
  {
    hide Join, Kept, DictEntries, Indent, Sorted, Print, Inside, Appended;
    w.WriteDict(v, 0);
    ghost var body := w.buf;
    w.WriteAlways("\nstream\n");
    w.WriteAlways(placeholder);
    w.WriteAlways("endstream");
    assert w.buf == body + ("\nstream\n" + placeholder + "endstream");
  }

  lemma SourceText(cap: nat, num: nat, gen: nat, v: Value, placeholder: string, start: string, bt: bool, body: string)
    requires HasEntries(v)
    requires bt == (|Header(num, gen)| > cap) && start == if bt then "" else Header(num, gen)
    requires var k := if bt then 0 else Kept(cap, |start + Open(v)|, Entries(v), 0);
      body == start + Open(v) + Inside(Entries(v), k, 0, Close(v))
              + (if v.StreamValue? then "\nstream\n" + placeholder + "endstream" else "")
    ensures body + "\nendobj" == CappedSource(cap, num, gen, v, placeholder)
  {
    hide Join, Kept, Header, Entries, Inside;
    var k := Fitting(cap, num, gen, v);
    var envelope := if v.StreamValue? then "\nstream\n" + placeholder + "endstream" else "";
    assert Tail(v, placeholder) == envelope + "\nendobj";
    var head := start + Open(v) + Inside(Entries(v), k, 0, Close(v));
    assert (head + envelope) + "\nendobj" == head + (envelope + "\nendobj");
  }

  lemma PrintNull()
    ensures Print(Value.Null, 0) == "null"
  {
  }
}
