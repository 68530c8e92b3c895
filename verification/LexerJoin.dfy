/** Content streams joined by a line end lex to the tokens of each, in order. */
module LexerJoin {
  import opened ContentLexer

  function Joined(a: string, b: string): string {
    a + "\n" + b
  }

  lemma JoinedAt(a: string, b: string)
    ensures |Joined(a, b)| == |a| + 1 + |b| && Joined(a, b)[|a|] == '\n'
    ensures forall i :: 0 <= i < |a| ==> Joined(a, b)[i] == a[i]
  {
  }

  /** No step of lexing runs into the end of the text inside a string, a hex string or an inline image. */
  predicate EndsOutside(s: string)
    decreases |s|
  {
    s == "" || (!LexOne(s).open && EndsOutside(s[LexOne(s).length..]))
  }

  // A line end added after a text moves no end inside it.

  lemma {:induction false} LineEndStays(a: string, b: string, j: nat)
    requires j <= |a|
    ensures LineEnd(Joined(a, b), j) == LineEnd(a, j)
    decreases |a| - j
  {
    JoinedAt(a, b);
    if j < |a| {
      LineEndStays(a, b, j + 1);
    }
  }

  lemma {:induction false} WordEndStays(a: string, b: string, j: nat)
    requires j <= |a|
    ensures WordEnd(Joined(a, b), j) == WordEnd(a, j)
    decreases |a| - j
  {
    JoinedAt(a, b);
    if j < |a| {
      WordEndStays(a, b, j + 1);
    }
  }

  lemma {:induction false} NumberEndStays(a: string, b: string, j: nat, hasDot: bool)
    requires j <= |a|
    ensures NumberEnd(Joined(a, b), j, hasDot) == NumberEnd(a, j, hasDot)
    decreases |a| - j
  {
    JoinedAt(a, b);
    if j < |a| {
      NumberEndStays(a, b, j + 1, hasDot);
      NumberEndStays(a, b, j + 1, true);
    }
  }

  lemma {:induction false} HexEndStays(a: string, b: string, j: nat)
    requires j <= |a| && HexEnd(a, j).1
    ensures HexEnd(Joined(a, b), j) == HexEnd(a, j)
    decreases |a| - j
  {
    JoinedAt(a, b);
    if j < |a| && a[j] != '>' {
      HexEndStays(a, b, j + 1);
    }
  }

  lemma {:induction false} StringEndStays(a: string, b: string, j: nat, depth: nat)
    requires j <= |a| && StringEnd(a, j, depth).1
    ensures StringEnd(Joined(a, b), j, depth) == StringEnd(a, j, depth)
    decreases |a| - j
  {
    JoinedAt(a, b);
    if depth > 0 && j < |a| {
      if a[j] == '\\' {
        StringEndStays(a, b, j + 2, depth);
      } else {
        StringEndStays(a, b, j + 1, if a[j] == '(' then depth + 1 else if a[j] == ')' then depth - 1 else depth);
      }
    }
  }

  lemma EndsImageStays(a: string, b: string, k: nat)
    requires k < |a| - 1
    ensures EndsImage(Joined(a, b), k) == EndsImage(a, k)
  {
    JoinedAt(a, b);
  }

  lemma {:induction false} ImageEndStays(a: string, b: string, k: nat)
    requires k <= |a| && ImageEnd(a, k).Some?
    ensures ImageEnd(Joined(a, b), k) == ImageEnd(a, k)
    decreases |a| - k
  {
    hide EndsImage;
    JoinedAt(a, b);
    EndsImageStays(a, b, k);
    if !EndsImage(a, k) {
      ImageEndStays(a, b, k + 1);
    }
  }

  lemma ImageStays(a: string, b: string)
    requires |a| >= 2 && !LexImage(a).open
    ensures LexImage(Joined(a, b)) == LexImage(a)
  {
    hide ImageEnd;
    JoinedAt(a, b);
    var d := DataStart(a);
    var k := ImageEnd(a, d).value;
    EndInside(a, k);
    assert DataStart(Joined(a, b)) == d;
    ImageEndStays(a, b, d);
    assert DataEnd(Joined(a, b), d, k) == DataEnd(a, d, k);
  }

  lemma NumberStartStays(a: string, b: string)
    requires a != ""
    ensures IsNumberStart(Joined(a, b), 0) == IsNumberStart(a, 0)
  {
    JoinedAt(a, b);
  }

  /** A line end added after a text changes nothing a step finds in it, unless the text ended inside something; only
      a carriage return at the very end takes the line end with it. */
  lemma LexOneStays(a: string, b: string)
    requires a != "" && !LexOne(a).open
    ensures var r := LexOne(Joined(a, b));
      && r.pieces == LexOne(a).pieces && !r.open
      && r.length == (if a == "\r" then 2 else LexOne(a).length)
  {
    hide StringEnd, HexEnd, WordEnd, LineEnd, NumberEnd, IsNumberStart, LexImage;
    var y := Joined(a, b);
    JoinedAt(a, b);
    NumberStartStays(a, b);
    LineEndStays(a, b, 1);
    WordEndStays(a, b, 1);
    var c := a[0];
    if IsSpace(c) {
      assert a == "\r" <==> |a| == 1 && c == '\r';
    } else if c == '(' {
      StringEndStays(a, b, 1, 1);
    } else if c == '<' && |a| > 1 && a[1] == '<' {
    } else if c == '<' {
      HexEndStays(a, b, 1);
    } else if IsNumberStart(a, 0) {
      NumberEndStays(a, b, if c == '-' || c == '+' then 1 else 0, false);
    } else if !IsBreak(c) && WordEnd(a, 1) == 2 {
      assert y[..2] == a[..2];
      if a[..2] == "ID" {
        ImageStays(a, b);
      }
    }
  }

  lemma PrefixTokens(a: string, y: string, pieces: seq<Piece>)
    requires a <= y && Inside(a, pieces)
    ensures Inside(y, pieces) && Tokens(y, pieces) == Tokens(a, pieces)
  {
    forall i | 0 <= i < |pieces|
      ensures y[pieces[i].start..pieces[i].end] == a[pieces[i].start..pieces[i].end]
    {
    }
  }

  /** Two streams joined by a line end lex to the tokens of the first and then those of the second, when the first
      does not end inside a string, a hex string or an inline image. */
  lemma {:induction false} LexingJoins(a: string, b: string)
    requires EndsOutside(a)
    ensures Lexemes(Joined(a, b)) == Lexemes(a) + Lexemes(b)
    decreases |a|
  {
    hide LexOne, Tokens;
    var y := Joined(a, b);
    JoinedAt(a, b);
    if a == "" {
      LineEndFirst(b);
      assert y == "\n" + b;
    } else {
      var r := LexOne(a);
      LexOneStays(a, b);
      LexOneInside(a);
      PrefixTokens(a, y, r.pieces);
      if a == "\r" {
        assert y[2..] == b;
      } else {
        var rest := a[r.length..];
        assert y[r.length..] == Joined(rest, b);
        LexingJoins(rest, b);
        assert Tokens(a, r.pieces) + (Lexemes(rest) + Lexemes(b)) == Tokens(a, r.pieces) + Lexemes(rest) + Lexemes(b);
      }
    }
  }

  lemma LineEndFirst(b: string)
    ensures Lexemes("\n" + b) == Lexemes(b)
  {
    var y := "\n" + b;
    assert LexOne(y) == Lexed([], 1, false);
    assert y[1..] == b;
    NoTokens(y);
  }

  // A text that ends inside something does not join: what follows it is swallowed.

  lemma {:induction false} HexStaysOpen(a: string, j: nat)
    requires j <= |a| && !HexEnd(a, j).1
    ensures HexEnd(Joined(a, "q"), j) == (|a| + 2, false)
    decreases |a| - j
  {
    JoinedAt(a, "q");
    var y := Joined(a, "q");
    if j < |a| {
      HexStaysOpen(a, j + 1);
    } else {
      assert y[j + 1] == 'q' && HexEnd(y, j + 2) == (|y|, false);
      assert HexEnd(y, j + 1) == (|y|, false);
    }
  }

  /** A string still open at or past the end of a stays open. */
  lemma OpenAtEnd(a: string, j: nat, depth: nat)
    requires |a| <= j <= |a| + 2 && depth > 0
    ensures StringEnd(Joined(a, "q"), j, depth) == (|a| + 2, false)
  {
    JoinedAt(a, "q");
    var y := Joined(a, "q");
    assert y[|a|] == '\n' && y[|a| + 1] == 'q';
    assert StringEnd(y, |a| + 2, depth) == (|y|, false);
    assert StringEnd(y, |a| + 1, depth) == (|y|, false);
  }

  lemma {:induction false} StringStaysOpen(a: string, j: nat, depth: nat)
    requires j <= |a| && depth > 0 && !StringEnd(a, j, depth).1
    ensures StringEnd(Joined(a, "q"), j, depth) == (|a| + 2, false)
    decreases |a| - j
  {
    JoinedAt(a, "q");
    if j == |a| {
      OpenAtEnd(a, j, depth);
    } else if a[j] == '\\' {
      if j + 2 >= |a| {
        OpenAtEnd(a, j + 2, depth);
      } else {
        StringStaysOpen(a, j + 2, depth);
      }
    } else {
      StringStaysOpen(a, j + 1, if a[j] == '(' then depth + 1 else if a[j] == ')' then depth - 1 else depth);
    }
  }

  lemma {:induction false} ImageStaysOpen(a: string, k: nat)
    requires k <= |a| + 1 && (k <= |a| ==> ImageEnd(a, k).None?)
    ensures ImageEnd(Joined(a, "q"), k).None?
    decreases |a| + 1 - k
  {
    hide EndsImage;
    JoinedAt(a, "q");
    if k <= |a| {
      NoImageEnd(a, k);
      ImageStaysOpen(a, k + 1);
    }
  }

  lemma NoImageEnd(a: string, k: nat)
    requires k <= |a| && ImageEnd(a, k).None?
    ensures !EndsImage(Joined(a, "q"), k) && (k + 1 <= |a| ==> ImageEnd(a, k + 1).None?)
  {
    JoinedAt(a, "q");
  }

  /** An inline image without an end takes the rest of the text as its data. */
  lemma OpenImageDiffers(a: string)
    requires |a| >= 2 && LexImage(a).open && LexOne(a) == LexImage(a)
      && LexOne(Joined(a, "q")) == LexImage(Joined(a, "q"))
    ensures Lexemes(Joined(a, "q")) != Lexemes(a) + Lexemes("q")
  {
    hide ImageEnd, LexOne;
    var y := Joined(a, "q");
    JoinedAt(a, "q");
    var d, d' := DataStart(a), DataStart(y);
    assert d <= d' <= |a| + 1;
    ImageStaysOpen(a, d);
    OpenLater(y, d, d');
    LexesToEnd(a);
    LexesToEnd(y);
    assert LexImage(y).pieces == [Piece(Operator, 0, 2), Piece(Str, d', |y|)];
    assert |Lexemes(y)| == 2 && Lexemes(y)[1].kind == Str;
    OneOperator();
    if d == |a| {
      assert LexImage(a).pieces == [Piece(Operator, 0, 2)];
      assert (Lexemes(a) + Lexemes("q"))[1].kind == Operator;
    }
  }

  lemma {:induction false} OpenLater(y: string, d: nat, e: nat)
    requires d <= e <= |y| && ImageEnd(y, d).None?
    ensures ImageEnd(y, e).None?
    decreases e - d
  {
    if d < e {
      OpenLater(y, d + 1, e);
    }
  }

  lemma LexesToEnd(s: string)
    requires s != "" && LexOne(s).length == |s|
    ensures |Lexemes(s)| == |LexOne(s).pieces|
    ensures forall i :: 0 <= i < |LexOne(s).pieces| ==> Lexemes(s)[i].kind == LexOne(s).pieces[i].kind
  {
    LexOneInside(s);
    assert s[|s|..] == "";
  }

  lemma OneOperator()
    ensures |Lexemes("q")| == 1 && Lexemes("q")[0].kind == Operator
  {
    assert WordEnd("q", 1) == 1;
    assert LexOne("q") == One(Operator, 1);
    LexesToEnd("q");
  }

  lemma OneTokenEach(a: string)
    requires a != "" && LexOne(a).length == |a| && |LexOne(a).pieces| == 1
    requires LexOne(Joined(a, "q")).length == |a| + 2 && |LexOne(Joined(a, "q")).pieces| == 1
    ensures Lexemes(Joined(a, "q")) != Lexemes(a) + Lexemes("q")
  {
    hide LexOne, Lexemes;
    JoinedAt(a, "q");
    OneOperator();
    LexesToEnd(a);
    LexesToEnd(Joined(a, "q"));
  }

  lemma OpenStringDiffers(a: string)
    requires a != "" && LexOne(a).open && a[0] == '('
    ensures Lexemes(Joined(a, "q")) != Lexemes(a) + Lexemes("q")
  {
    hide StringEnd, Lexemes;
    JoinedAt(a, "q");
    StringStaysOpen(a, 1, 1);
    StringOpens(a, 1, 1);
    OneTokenEach(a);
  }

  lemma OpenHexDiffers(a: string)
    requires a != "" && LexOne(a).open && a[0] == '<'
    ensures Lexemes(Joined(a, "q")) != Lexemes(a) + Lexemes("q")
  {
    hide HexEnd, Lexemes;
    JoinedAt(a, "q");
    HexStaysOpen(a, 1);
    HexOpens(a, 1);
    OneTokenEach(a);
  }

  lemma OpenDiffers(a: string)
    requires a != "" && LexOne(a).open
    ensures Lexemes(Joined(a, "q")) != Lexemes(a) + Lexemes("q")
  {
    if a[0] == '(' {
      OpenStringDiffers(a);
    } else if a[0] == '<' {
      OpenHexDiffers(a);
    } else {
      OpenIsImage(a);
      OpenImageDiffers(a);
    }
  }

  lemma OpenIsImage(a: string)
    requires a != "" && LexOne(a).open && a[0] != '(' && a[0] != '<'
    ensures |a| >= 2 && LexOne(a) == LexImage(a) && LexOne(Joined(a, "q")) == LexImage(Joined(a, "q"))
  {
    hide StringEnd, HexEnd, WordEnd, LineEnd, NumberEnd, IsNumberStart, LexImage;
    var y := Joined(a, "q");
    JoinedAt(a, "q");
    NumberStartStays(a, "q");
    WordEndStays(a, "q", 1);
    assert |a| >= 2 && a[..2] == "ID";
    assert y[..2] == a[..2];
  }

  lemma {:induction false} StringOpens(a: string, j: nat, depth: nat)
    requires j <= |a| && depth > 0 && !StringEnd(a, j, depth).1
    ensures StringEnd(a, j, depth).0 == |a|
    decreases |a| - j
  {
    if j < |a| && a[j] == '\\' {
      if j + 2 < |a| {
        StringOpens(a, j + 2, depth);
      }
    } else if j < |a| {
      StringOpens(a, j + 1, if a[j] == '(' then depth + 1 else if a[j] == ')' then depth - 1 else depth);
    }
  }

  lemma {:induction false} HexOpens(a: string, j: nat)
    requires j <= |a| && !HexEnd(a, j).1
    ensures HexEnd(a, j).0 == |a|
    decreases |a| - j
  {
    if j < |a| {
      HexOpens(a, j + 1);
    }
  }

  lemma {:induction false} OpenEndDiffers(a: string)
    requires !EndsOutside(a)
    ensures Lexemes(Joined(a, "q")) != Lexemes(a) + Lexemes("q")
    decreases |a|
  {
    hide LexOne, Tokens;
    var y := Joined(a, "q");
    JoinedAt(a, "q");
    var r := LexOne(a);
    if r.open {
      OpenDiffers(a);
    } else {
      LexOneStays(a, "q");
      LexOneInside(a);
      PrefixTokens(a, y, r.pieces);
      var rest := a[r.length..];
      assert y[r.length..] == Joined(rest, "q");
      OpenEndDiffers(rest);
      SamePrefix(Tokens(a, r.pieces), Lexemes(Joined(rest, "q")), Lexemes(rest) + Lexemes("q"));
      assert Tokens(a, r.pieces) + (Lexemes(rest) + Lexemes("q")) == Tokens(a, r.pieces) + Lexemes(rest) + Lexemes("q");
    }
  }

  lemma SamePrefix(p: seq<Token>, a: seq<Token>, b: seq<Token>)
    ensures p + a == p + b ==> a == b
  {
    assert (p + a)[|p|..] == a && (p + b)[|p|..] == b;
  }

  /** A text can be joined to whatever follows exactly when it does not end inside something. */
  lemma JoinsIffEndsOutside(a: string)
    ensures EndsOutside(a) <==> forall b :: Lexemes(Joined(a, b)) == Lexemes(a) + Lexemes(b)
  {
    hide EndsOutside, Lexemes, Joined;
    if EndsOutside(a) {
      forall b
        ensures Lexemes(Joined(a, b)) == Lexemes(a) + Lexemes(b)
      {
        LexingJoins(a, b);
      }
    } else {
      OpenEndDiffers(a);
    }
  }

  // Any number of streams.

  function JoinAll(raws: seq<string>): string {
    if raws == [] then "" else if |raws| == 1 then raws[0] else Joined(raws[0], JoinAll(raws[1..]))
  }

  function LexAll(raws: seq<string>): seq<Token> {
    if raws == [] then [] else Lexemes(raws[0]) + LexAll(raws[1..])
  }

  /** A page's content is that of its streams one after the other, when none but the last ends inside a string, a hex
      string or an inline image. */
  lemma {:induction false} PageContentJoins(raws: seq<string>)
    requires forall i :: 0 <= i < |raws| - 1 ==> EndsOutside(raws[i])
    ensures Lexemes(JoinAll(raws)) == LexAll(raws)
  {
    if |raws| == 1 {
      assert raws[1..] == [];
      assert Lexemes(raws[0]) + [] == Lexemes(raws[0]);
    } else if raws != [] {
      LexingJoins(raws[0], JoinAll(raws[1..]));
      PageContentJoins(raws[1..]);
    } else {
      assert Lexemes("") == [];
    }
  }

  /** How an image is lexed when it is open, when it is not, and from where it ends. */
  lemma ImageSteps()
    ensures LexOne("ID x") == Lexed([Piece(Operator, 0, 2), Piece(Str, 3, 4)], 4, true)
    ensures LexOne("ID x\nEI") == Lexed([Piece(Operator, 0, 2), Piece(Str, 3, 4), Piece(Operator, 5, 7)], 7, false)
    ensures LexOne("EI") == One(Operator, 2)
  {
    var a, b, y := "ID x", "EI", "ID x\nEI";
    assert a[..2] == y[..2] == "ID";
    assert WordEnd(a, 1) == WordEnd(a, 2) == 2 && WordEnd(y, 1) == WordEnd(y, 2) == 2;
    assert WordEnd(b, 1) == WordEnd(b, 2) == 2;
    assert ImageEnd(a, 3) == None && ImageEnd(y, 3) == ImageEnd(y, 4) == ImageEnd(y, 5) == Some(5);
  }

  lemma OneStep(s: string)
    requires s != "" && LexOne(s).length == |s|
    ensures Lexemes(s) == Tokens(s, LexOne(s).pieces) && EndsOutside(s) == !LexOne(s).open
  {
    hide LexOne;
    assert s[|s|..] == "";
  }

  /** The converse fails for one page: a stream that ends inside an image and one that goes on with EI give the
      tokens of each all the same. */
  lemma OpenStreamMayJoin()
    ensures var raws := ["ID x", "EI"];
      !EndsOutside(raws[0]) && Lexemes(JoinAll(raws)) == LexAll(raws)
  {
    hide LexOne, Lexemes;
    var a, b, y := "ID x", "EI", "ID x\nEI";
    ImageSteps();
    OneStep(a);
    OneStep(b);
    OneStep(y);
    assert a[0..2] == y[0..2] && a[3..4] == y[3..4] && y[5..7] == b[0..2];
    assert Lexemes(y) == Lexemes(a) + Lexemes(b);
    assert [a, b][1..] == [b] && LexAll([b]) == Lexemes(b) + [];
    assert Joined(a, b) == y;
  }
}
