/** The printed source lexes back to the tokens of the value it was printed from. */
module SourceTokens {
  import opened PdfObjects
  import opened SourcePrinter
  import Lex = ContentLexer
  import Grammar = LexerGrammar
  import Words = LexerWords
  import Forms = LexerForms
  import Layout = SourceLayout
  import Tokenizer

  /** The number that decimal digits stand for. */
  function Reading(digits: string): nat
    requires Grammar.AllDigits(digits)
  {
    if digits == "" then 0 else 10 * Reading(digits[..|digits| - 1]) + (digits[|digits| - 1] as int - '0' as int)
  }

  /** A number is printed in decimal digits, without zeros in front. */
  lemma {:induction false} DecimalIsRead(n: nat)
    ensures Grammar.AllDigits(Decimal(n)) && Decimal(n) != "" && Reading(Decimal(n)) == n
    ensures Decimal(n)[0] == '0' ==> n == 0
  {
    var digit := ["0123456789"[n % 10]];
    assert digit[0] in "0123456789" && digit[0] as int - '0' as int == n % 10;
    if n >= 10 {
      DecimalIsRead(n / 10);
      assert Decimal(n)[..|Decimal(n)| - 1] == Decimal(n / 10);
      assert Decimal(n)[|Decimal(n)| - 1] == digit[0];
    } else {
      assert Decimal(n) == digit && digit[..0] == "";
      assert Reading("") == 0;
    }
  }

  /** The tokens of a value, keys in byte order. */
  function ValueTokens(v: Value): seq<Lex.Token>
    decreases v, 1
  {
    match v
    case Null => [Lex.Token(Lex.Operator, "null")]
    case Unknown => [Lex.Token(Lex.Operator, "Unknown")]
    case Boolean(b) => [Lex.Token(Lex.Operator, if b then "true" else "false")]
    case Number(digits) => [Lex.Token(Lex.Number, digits)]
    case Name(text) => [Lex.Token(Lex.Name, "/" + text)]
    case Literal(text) => [Lex.Token(Lex.Str, "(" + text + ")")]
    case HexLiteral(text) => [Lex.Token(Lex.Str, "<" + text + ">")]
    case Reference(num, gen) =>
      [Lex.Token(Lex.Number, Decimal(num)), Lex.Token(Lex.Number, Decimal(gen)), Lex.Token(Lex.Operator, "R")]
    case List(elems) => [Lex.Token(Lex.Operator, "[")] + ElemTokens(v, 0) + [Lex.Token(Lex.Operator, "]")]
    case Dictionary(m) =>
      [Lex.Token(Lex.Operator, "<<")] + EntryTokens(v, Sorted(m.Keys), 0) + [Lex.Token(Lex.Operator, ">>")]
    case StreamValue(m) =>
      [Lex.Token(Lex.Operator, "<<")] + EntryTokens(v, Sorted(m.Keys), 0) + [Lex.Token(Lex.Operator, ">>")]
  }

  function ElemTokens(v: Value, i: nat): seq<Lex.Token>
    requires v.List? && i <= |v.elems|
    decreases v, 0, |v.elems| - i
  {
    if i == |v.elems| then [] else ValueTokens(v.elems[i]) + ElemTokens(v, i + 1)
  }

  function EntryTokens(v: Value, keys: seq<string>, i: nat): seq<Lex.Token>
    requires (v.Dictionary? || v.StreamValue?) && i <= |keys| && forall i :: 0 <= i < |keys| ==> keys[i] in v.entries
    decreases v, 0, |keys| - i
  {
    if i == |keys| then []
    else [Lex.Token(Lex.Name, "/" + keys[i])] + ValueTokens(v.entries[keys[i]]) + EntryTokens(v, keys, i + 1)
  }

  /** The texts in a value are those of one word each: a number's digits, a name without delimiters, a string whose
      parentheses match, hexadecimal text without a closing bracket. */
  ghost predicate IsClean(v: Value)
    decreases v
  {
    match v
    case Number(digits) =>
      exists w: Grammar.Word :: w.Numeral? && Grammar.IsWord(w) && Grammar.WordText(w) == digits
    case Name(text) => Grammar.AllRegular(text)
    case Literal(text) => exists b :: Grammar.IsBody(b) && Grammar.BodyText(b) == text
    case HexLiteral(text) => Grammar.IsWord(Grammar.Hexes(text))
    case List(elems) => forall i :: 0 <= i < |elems| ==> IsClean(elems[i])
    case Dictionary(m) => forall k :: k in m ==> Grammar.AllRegular(k) && IsClean(m[k])
    case StreamValue(m) => forall k :: k in m ==> Grammar.AllRegular(k) && IsClean(m[k])
    case _ => true
  }

  /** White space comes next, or nothing. */
  predicate SpaceNext(tail: string) {
    tail == "" || tail[0] == ' ' || tail[0] == '\n'
  }

  /** One word before white space. */
  lemma WordFirst(w: Grammar.Word, tail: string)
    requires Grammar.IsWord(w) && !w.Remark? && !w.Picture? && SpaceNext(tail)
    ensures Lex.Lexemes(Grammar.WordText(w) + tail) == Grammar.WordTokens(w) + Lex.Lexemes(tail)
  {
    hide Lex.LexOne, Grammar.IsWord, Grammar.WordText, Lex.Tokens, Lex.Inside;
    Forms.WordIsRead(w, tail);
    assert (Grammar.WordText(w) + tail)[|Grammar.WordText(w)|..] == tail;
  }

  lemma {:induction false} BlankFirst(n: nat, tail: string)
    ensures Lex.Lexemes(SourcePrinter.Spaces(n) + tail) == Lex.Lexemes(tail)
  {
    var t := SourcePrinter.Spaces(n) + tail;
    if n == 0 {
      assert t == tail;
    } else {
      assert t == " " + (SourcePrinter.Spaces(n - 1) + tail);
      OneBlank(' ', SourcePrinter.Spaces(n - 1) + tail);
      BlankFirst(n - 1, tail);
    }
  }

  lemma OneBlank(c: char, tail: string)
    requires c == ' ' || c == '\n'
    ensures Lex.Lexemes([c] + tail) == Lex.Lexemes(tail)
  {
    var t := [c] + tail;
    assert Lex.LexOne(t) == Lex.Lexed([], 1, false);
    assert t[1..] == tail;
    Lex.NoTokens(t);
  }

  lemma VerbFirst(text: string, tail: string)
    requires text in {"null", "Unknown", "true", "false", "R", "obj", "endobj"} && SpaceNext(tail)
    ensures Lex.Lexemes(text + tail) == [Lex.Token(Lex.Operator, text)] + Lex.Lexemes(tail)
  {
    hide Lex.Lexemes;
    VerbIsWord(text);
    hide Grammar.IsWord;
    WordFirst(Grammar.Verb(text), tail);
  }

  lemma VerbIsWord(text: string)
    requires text in {"null", "Unknown", "true", "false", "R", "obj", "endobj"}
    ensures Grammar.IsWord(Grammar.Verb(text))
  {
    hide Grammar.IsRegular;
    LettersAreRegular(text);
    assert text != "ID";
  }

  lemma LettersAreRegular(text: string)
    requires text in {"null", "Unknown", "true", "false", "R", "obj", "endobj"}
    ensures text != "" && Grammar.AllRegular(text) && !Grammar.StartsNumber(text)
  {
    hide Grammar.IsRegular;
    assert forall i :: 0 <= i < |text| ==> IsLetter(text[i]);
    hide IsLetter;
    forall i | 0 <= i < |text|
      ensures Grammar.IsRegular(text[i])
    {
      LetterIsRegular(text[i]);
    }
    LetterIsRegular(text[0]);
  }

  predicate IsLetter(c: char) {
    'a' <= c <= 'z' || 'A' <= c <= 'Z'
  }

  lemma LetterIsRegular(c: char)
    requires IsLetter(c)
    ensures Grammar.IsRegular(c) && c !in "+-0123456789."
  {
  }

  lemma MarkFirst(text: string, tail: string)
    requires text in {"<<", ">>", "[", "]"} && SpaceNext(tail)
    ensures Lex.Lexemes(text + tail) == [Lex.Token(Lex.Operator, text)] + Lex.Lexemes(tail)
  {
    WordFirst(Grammar.Mark(text), tail);
  }

  lemma LabelFirst(text: string, tail: string)
    requires Grammar.AllRegular(text) && SpaceNext(tail)
    ensures Lex.Lexemes("/" + text + tail) == [Lex.Token(Lex.Name, "/" + text)] + Lex.Lexemes(tail)
  {
    WordFirst(Grammar.Label(text), tail);
  }

  lemma DecimalFirst(n: nat, tail: string)
    requires SpaceNext(tail)
    ensures Lex.Lexemes(Decimal(n) + tail) == [Lex.Token(Lex.Number, Decimal(n))] + Lex.Lexemes(tail)
  {
    hide Lex.Lexemes;
    var w := DecimalIsWord(n);
    hide Grammar.IsWord, Decimal;
    WordFirst(w, tail);
  }

  lemma DecimalIsWord(n: nat) returns (w: Grammar.Word)
    ensures w.Numeral? && Grammar.IsWord(w) && Grammar.WordText(w) == Decimal(n)
  {
    DecimalIsRead(n);
    hide Decimal;
    w := Grammar.Numeral("", Decimal(n), false, "");
    assert Grammar.WordText(w) == Decimal(n);
  }

  lemma ScalarIsRead(v: Value, tail: string)
    requires !IsContainerValue(v) && IsClean(v) && SpaceNext(tail)
    ensures Lex.Lexemes(ScalarText(v) + tail) == ValueTokens(v) + Lex.Lexemes(tail)
  {
    hide Lex.Lexemes, Grammar.IsBody, Grammar.BodyText;
    match v
    case Null => VerbFirst("null", tail);
    case Unknown => VerbFirst("Unknown", tail);
    case Boolean(b) => VerbFirst(if b then "true" else "false", tail);
    case Number(digits) =>
      var w: Grammar.Word :| w.Numeral? && Grammar.IsWord(w) && Grammar.WordText(w) == digits;
      WordFirst(w, tail);
    case Name(text) => LabelFirst(text, tail);
    case Literal(text) =>
      var b :| Grammar.IsBody(b) && Grammar.BodyText(b) == text;
      WordFirst(Grammar.Literal(b), tail);
    case HexLiteral(text) => WordFirst(Grammar.Hexes(text), tail);
    case Reference(num, gen) =>
      DecimalFirst(num, " " + (Decimal(gen) + (" " + ("R" + tail))));
      OneBlank(' ', Decimal(gen) + (" " + ("R" + tail)));
      DecimalFirst(gen, " " + ("R" + tail));
      OneBlank(' ', "R" + tail);
      VerbFirst("R", tail);
      ReferenceParts(Decimal(num), Decimal(gen), tail);
  }

  lemma ReferenceParts(a: string, b: string, tail: string)
    ensures a + " " + b + " R" + tail == a + (" " + (b + (" " + ("R" + tail))))
  {
    assert " R" == " " + "R";
  }

  /** Whatever its depth, a printed value lexes to its own tokens. */
  lemma {:induction false} PrintIsRead(v: Value, depth: nat, tail: string)
    requires IsClean(v) && SpaceNext(tail)
    ensures Lex.Lexemes(Print(v, depth) + tail) == ValueTokens(v) + Lex.Lexemes(tail)
    decreases v, 2
  {
    hide Lex.Lexemes, Print, Join, Indent, Sorted, DictEntries, ShortElems, LongElems, ScalarText;
    if v.Dictionary? || v.StreamValue? {
      var keys := Sorted(v.entries.Keys);
      var es := DictEntries(v, keys, depth);
      PrintDict(v, depth);
      EntriesAreRead(v, keys, 0, depth, Indent(depth) + (">>" + tail));
      assert es[0..] == es && "<<" + "\n" == "<<\n";
      LinesAreRead("<<", ">>", Join(es), depth, tail, EntryTokens(v, keys, 0));
    } else if v.List? {
      PrintList(v, depth);
      if IsShort(v.elems) {
        var es := ShortElems(v, depth);
        ShortAreRead(v, 0, depth, tail);
        assert es[0..] == es;
        ShortIsRead(Join(es), tail, ElemTokens(v, 0));
      } else {
        var es := LongElems(v, depth);
        LongAreRead(v, 0, depth, Indent(depth) + ("]" + tail));
        assert es[0..] == es && "[" + "\n" == "[\n";
        LinesAreRead("[", "]", Join(es), depth, tail, ElemTokens(v, 0));
      }
    } else {
      PrintPlain(v, depth);
      ScalarIsRead(v, tail);
    }
  }

  lemma PrintPlain(v: Value, depth: nat)
    requires !IsContainerValue(v)
    ensures Print(v, depth) == ScalarText(v)
  {
  }

  lemma LinesAreRead(open: string, close: string, inside: string, depth: nat, tail: string, ts: seq<Lex.Token>)
    requires open in {"<<", "["} && close in {">>", "]"} && SpaceNext(tail)
    requires var rest := Indent(depth) + (close + tail); Lex.Lexemes(inside + rest) == ts + Lex.Lexemes(rest)
    ensures Lex.Lexemes((open + "\n") + inside + Indent(depth) + close + tail) ==
      [Lex.Token(Lex.Operator, open)] + ts + [Lex.Token(Lex.Operator, close)] + Lex.Lexemes(tail)
  {
    hide Lex.Lexemes;
    var rest := Indent(depth) + (close + tail);
    MarkFirst(open, "\n" + (inside + rest));
    OneBlank('\n', inside + rest);
    BlankFirst(4 * depth, close + tail);
    MarkFirst(close, tail);
    assert (open + "\n") + inside + Indent(depth) + close + tail == open + ("\n" + (inside + rest));
  }

  lemma {:induction false} EntriesAreRead(v: Value, keys: seq<string>, i: nat, depth: nat, rest: string)
    requires (v.Dictionary? || v.StreamValue?) && i <= |keys| && forall i :: 0 <= i < |keys| ==> keys[i] in v.entries
    requires IsClean(v)
    ensures Lex.Lexemes(Join(DictEntries(v, keys, depth)[i..]) + rest) == EntryTokens(v, keys, i) + Lex.Lexemes(rest)
    decreases v, 1, |keys| - i
  {
    hide Lex.Lexemes, Print, Join, Indent;
    var es := DictEntries(v, keys, depth);
    if i == |keys| {
      assert es[i..] == [] && es[..0] == [];
      JoinNone(es);
      assert "" + rest == rest;
    } else {
      Layout.JoinFront(es[i..]);
      assert es[i..][1..] == es[i + 1..];
      var w := v.entries[keys[i]];
      var more := Join(es[i + 1..]) + rest;
      EntriesAreRead(v, keys, i + 1, depth, rest);
      PrintIsRead(w, depth + 1, "\n" + more);
      EntryIsRead(keys[i], Print(w, depth + 1), depth, more, ValueTokens(w));
      assert es[i] + Join(es[i + 1..]) + rest == es[i] + more;
    }
  }

  lemma EntryIsRead(key: string, text: string, depth: nat, more: string, ts: seq<Lex.Token>)
    requires Grammar.AllRegular(key) && Lex.Lexemes(text + ("\n" + more)) == ts + Lex.Lexemes("\n" + more)
    ensures Lex.Lexemes(Indent(depth + 1) + "/" + key + " " + text + "\n" + more)
      == [Lex.Token(Lex.Name, "/" + key)] + ts + Lex.Lexemes(more)
  {
    hide Lex.Lexemes;
    var a := text + ("\n" + more);
    BlankFirst(4 * (depth + 1), "/" + key + (" " + a));
    LabelFirst(key, " " + a);
    OneBlank(' ', a);
    OneBlank('\n', more);
    assert Indent(depth + 1) + "/" + key + " " + text + "\n" + more == Indent(depth + 1) + ("/" + key + (" " + a));
  }

  lemma {:induction false} LongAreRead(v: Value, i: nat, depth: nat, rest: string)
    requires v.List? && i <= |v.elems| && IsClean(v)
    ensures Lex.Lexemes(Join(LongElems(v, depth)[i..]) + rest) == ElemTokens(v, i) + Lex.Lexemes(rest)
    decreases v, 1, |v.elems| - i
  {
    hide Lex.Lexemes, Print, Join, Indent;
    var es := LongElems(v, depth);
    if i == |v.elems| {
      assert es[i..] == [] && es[..0] == [];
      JoinNone(es);
      assert "" + rest == rest;
    } else {
      Layout.JoinFront(es[i..]);
      assert es[i..][1..] == es[i + 1..];
      var more := Join(es[i + 1..]) + rest;
      LongAreRead(v, i + 1, depth, rest);
      PrintIsRead(v.elems[i], depth + 1, "\n" + more);
      OneBlank('\n', more);
      IndentFirst(depth + 1, Print(v.elems[i], depth + 1), more);
      assert es[i] + Join(es[i + 1..]) + rest == es[i] + more;
    }
  }

  lemma IndentFirst(depth: nat, text: string, more: string)
    ensures Lex.Lexemes(Indent(depth) + text + "\n" + more) == Lex.Lexemes(text + ("\n" + more))
  {
    hide Lex.Lexemes;
    BlankFirst(4 * depth, text + ("\n" + more));
    assert Indent(depth) + text + "\n" + more == Indent(depth) + (text + ("\n" + more));
  }

  /** The elements of a short list from the i-th on, each after a blank. */
  lemma {:induction false} ShortAreRead(v: Value, i: nat, depth: nat, tail: string)
    requires v.List? && i <= |v.elems| && IsClean(v) && SpaceNext(tail)
    ensures var rest := Join(ShortElems(v, depth)[i..]) + " ]" + tail;
      && rest[0] == ' '
      && Lex.Lexemes(rest) == ElemTokens(v, i) + [Lex.Token(Lex.Operator, "]")] + Lex.Lexemes(tail)
    decreases v, 1, |v.elems| - i
  {
    hide Lex.Lexemes, Print, Join;
    var es := ShortElems(v, depth);
    if i == |v.elems| {
      assert es[i..] == [] && es[..0] == [];
      JoinNone(es);
      assert "" + " ]" + tail == " " + ("]" + tail);
      OneBlank(' ', "]" + tail);
      MarkFirst("]", tail);
    } else {
      Layout.JoinFront(es[i..]);
      assert es[i..][1..] == es[i + 1..];
      var more := Join(es[i + 1..]) + " ]" + tail;
      ShortAreRead(v, i + 1, depth, tail);
      PrintIsRead(v.elems[i], depth, more);
      var text := Print(v.elems[i], depth);
      OneBlank(' ', text + more);
      assert " " + text + Join(es[i + 1..]) + " ]" + tail == " " + (text + more);
    }
  }

  lemma ShortIsRead(inside: string, tail: string, ts: seq<Lex.Token>)
    requires var rest := inside + " ]" + tail; rest[0] == ' '
    requires var rest := inside + " ]" + tail;
      Lex.Lexemes(rest) == ts + [Lex.Token(Lex.Operator, "]")] + Lex.Lexemes(tail)
    ensures Lex.Lexemes("[" + inside + " ]" + tail) ==
      [Lex.Token(Lex.Operator, "[")] + ts + [Lex.Token(Lex.Operator, "]")] + Lex.Lexemes(tail)
  {
    hide Lex.Lexemes;
    MarkFirst("[", inside + " ]" + tail);
    assert "[" + inside + " ]" + tail == "[" + (inside + " ]" + tail);
  }

  /** The source of an object printed whole, but a stream's, lexes to its number and generation, its value, and the
      words that begin and end it. */
  lemma SourceIsRead(num: nat, gen: nat, v: Value, placeholder: string)
    requires IsClean(v) && !v.StreamValue?
    ensures Lex.Lexemes(UncappedSource(num, gen, v, placeholder)) ==
      [Lex.Token(Lex.Number, Decimal(num)), Lex.Token(Lex.Number, Decimal(gen)), Lex.Token(Lex.Operator, "obj")]
      + ValueTokens(v) + [Lex.Token(Lex.Operator, "endobj")]
  {
    hide Lex.Lexemes, Print, IsClean, ValueTokens;
    var end := "\nendobj";
    assert Tail(v, placeholder) == end;
    var text := Print(v, 0) + end;
    VerbFirst("endobj", "");
    Tokenizer.NoLexemes();
    OneBlank('\n', "endobj");
    assert "\n" + "endobj" == end && "endobj" + "" == "endobj";
    PrintIsRead(v, 0, end);
    OneBlank('\n', text);
    VerbFirst("obj", "\n" + text);
    OneBlank(' ', "obj" + ("\n" + text));
    DecimalFirst(gen, " " + ("obj" + ("\n" + text)));
    OneBlank(' ', Decimal(gen) + (" " + ("obj" + ("\n" + text))));
    DecimalFirst(num, " " + (Decimal(gen) + (" " + ("obj" + ("\n" + text)))));
    HeaderParts(Decimal(num), Decimal(gen), Print(v, 0), end);
  }

  lemma HeaderParts(a: string, b: string, text: string, end: string)
    ensures (a + " " + b + " obj\n") + text + end == a + (" " + (b + (" " + ("obj" + ("\n" + (text + end))))))
  {
    assert " obj\n" == " " + "obj" + "\n";
    assert a + " " + b + " obj\n" == a + " " + b + " " + "obj" + "\n";
  }
}
