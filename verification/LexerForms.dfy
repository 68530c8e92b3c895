/** Every text is written in exactly these words, and its tokens are those of its words. */
module LexerForms {
  import opened ContentLexer
  import opened LexerJoin
  import opened LexerGrammar
  import opened LexerWords

  // A written text lexes to the tokens of its words.

  lemma OneIsToken(kind: Kind, v: string, tail: string)
    requires v != ""
    ensures Inside(v + tail, [Piece(kind, 0, |v|)])
    ensures Tokens(v + tail, [Piece(kind, 0, |v|)]) == [Token(kind, v)]
  {
    assert (v + tail)[0..|v|] == v;
  }

  lemma PictureTokens(w: Word, tail: string)
    requires IsWord(w) && w.Picture? && Follows(w, tail)
    ensures var r := LexOne(WordText(w) + tail);
      && r.length == |WordText(w)| && !r.open
      && Inside(WordText(w) + tail, r.pieces) && Tokens(WordText(w) + tail, r.pieces) == WordTokens(w)
  {
    hide LexOne, Inside, IsWord, Follows, WordText, Tokens;
    PictureIsRead(w, tail);
    var s, d := WordText(w) + tail, 2 + |GapText(w.first)|;
    var e, k := d + |w.data|, |WordText(w)| - 2;
    var data := if w.data == "" then [] else [Piece(Str, d, e)];
    PieceTokens(s, Operator, 0, 2);
    PieceTokens(s, Operator, k, k + 2);
    if w.data == "" {
      NoTokens(s);
      NonePast(s);
    } else {
      PieceTokens(s, Str, d, e);
    }
    TokensJoin(s, [Piece(Operator, 0, 2)], data);
    TokensJoin(s, [Piece(Operator, 0, 2)] + data, [Piece(Operator, k, k + 2)]);
    assert s[0..2] == s[..2];
  }

  lemma NonePast(s: string)
    ensures Inside(s, [])
  {
  }

  lemma PieceTokens(s: string, kind: Kind, i: nat, j: nat)
    requires i < j <= |s|
    ensures Inside(s, [Piece(kind, i, j)]) && Tokens(s, [Piece(kind, i, j)]) == [Token(kind, s[i..j])]
  {
  }

  /** A word is read whole, whatever follows it that may, as the tokens it stands for. */
  lemma WordIsRead(w: Word, tail: string)
    requires IsWord(w) && Follows(w, tail)
    ensures WordText(w) != ""
    ensures var r := LexOne(WordText(w) + tail);
      && r.length == |WordText(w)| && !r.open
      && Inside(WordText(w) + tail, r.pieces) && Tokens(WordText(w) + tail, r.pieces) == WordTokens(w)
  {
    WordStarts(w);
    hide LexOne, Inside, Tokens, IsWord, Follows, WordText;
    match w
    case Picture(_, _, _) => PictureTokens(w, tail);
    case Remark(_) =>
      RemarkIsRead(w, tail);
      OneIsToken(Comment, WordText(w), tail);
    case Literal(_) =>
      LiteralWord(w, tail);
      OneIsToken(Str, WordText(w), tail);
    case Hexes(_) =>
      HexesAreRead(w, tail);
      OneIsToken(Str, WordText(w), tail);
    case Label(_) =>
      LabelIsRead(w, tail);
      OneIsToken(Name, WordText(w), tail);
    case Numeral(_, _, _, _) =>
      NumeralIsRead(w, tail);
      OneIsToken(Number, WordText(w), tail);
    case Mark(_) =>
      MarkIsRead(w, tail);
      MarkText(w);
      OneIsToken(Operator, WordText(w), tail);
    case Verb(_) =>
      VerbIsRead(w, tail);
      MarkText(w);
      OneIsToken(Operator, WordText(w), tail);
  }

  lemma MarkText(w: Word)
    requires w.Mark? || w.Verb?
    ensures WordText(w) == w.text
  {
  }

  lemma LiteralWord(w: Word, tail: string)
    requires IsWord(w) && w.Literal?
    ensures LexOne(WordText(w) + tail) == One(Str, |WordText(w)|)
  {
    LiteralIsRead(w.body, tail);
  }

  /** A word does not start with white space. */
  lemma WordStarts(w: Word)
    requires IsWord(w)
    ensures WordText(w) != "" && !IsSpace(WordText(w)[0])
  {
    if w.Numeral? {
      NumeralStartsPlain(w);
    }
  }

  lemma NumeralStartsPlain(w: Word)
    requires IsWord(w) && w.Numeral?
    ensures WordText(w) != "" && !IsSpace(WordText(w)[0])
  {
    hide IsSpace;
    var dot := if w.point then "." else "";
    FirstOf(w.sign, w.whole, dot, w.fraction);
    NoSpaces();
  }

  lemma NoSpaces()
    ensures forall c :: c in "+-0123456789." ==> !IsSpace(c)
  {
  }

  lemma FirstOf(a: string, b: string, c: string, d: string)
    requires a + b + c + d != ""
    ensures (a + b + c + d)[0] == if a != "" then a[0] else if b != "" then b[0] else if c != "" then c[0] else d[0]
  {
  }

  lemma HexEndNone(s: string, j: nat)
    requires j <= |s| && forall i :: j <= i < |s| ==> s[i] != '>'
    ensures HexEnd(s, j) == (|s|, false)
    decreases |s| - j
  {
  }

  lemma ImageEndNone(s: string, k: nat)
    requires k <= |s| && forall i :: k <= i < |s| ==> !EndsImage(s, i)
    ensures ImageEnd(s, k) == None
    decreases |s| - k
  {
    hide EndsImage;
  }

  lemma OpenPictureIsRead(first: Gap, data: string)
    requires IsEnding(InPicture(first, data))
    ensures var s, d := EndingText(InPicture(first, data)), 2 + |GapText(first)|;
      && s[..2] == "ID" && s[d..] == data && |s| >= d
      && LexOne(s) == Lexed([Piece(Operator, 0, 2)] + (if data == "" then [] else [Piece(Str, d, |s|)]), |s|, true)
  {
    hide LexOne, HoldsNoEnd, StartsData, GapText;
    var a := GapText(first);
    var s, d := "ID" + a + data, 2 + |a|;
    TwoParts("ID", a);
    TwoParts("ID" + a, data);
    assert s[0..2] == ("ID" + a)[0..2] && s[2..d] == ("ID" + a)[2..d];
    assert s[d..|s|] == s[d..];
    OpenPictureAt(s, first, d);
  }

  lemma OpenPictureAt(s: string, first: Gap, d: nat)
    requires d == 2 + |GapText(first)| <= |s| && s[..2] == "ID" && s[2..d] == GapText(first)
    requires StartsData(first, s[d..|s|]) && HoldsNoEnd(s[d..|s|])
    ensures LexOne(s) == Lexed([Piece(Operator, 0, 2)] + (if d == |s| then [] else [Piece(Str, d, |s|)]), |s|, true)
  {
    hide LexOne, ImageEnd, EndsImage, HoldsNoEnd;
    assert d > 2 ==> s[2] == s[2..d][0];
    assert d == 4 ==> s[3] == s[2..d][1];
    assert d < |s| ==> s[d] == s[d..|s|][0];
    IdIsRead(s);
    assert DataStart(s) == d;
    forall i | d <= i < |s|
      ensures !EndsImage(s, i)
    {
      NoEndWithin(s, d, |s|, i);
    }
    ImageEndNone(s, d);
  }

  lemma EndingIsRead(e: Ending)
    requires IsEnding(e) && !e.Outside?
    ensures EndingText(e) != "" && !IsSpace(EndingText(e)[0])
    ensures var r := LexOne(EndingText(e));
      && r.length == |EndingText(e)| && r.open
      && Inside(EndingText(e), r.pieces) && Tokens(EndingText(e), r.pieces) == EndingTokens(e)
  {
    var s := EndingText(e);
    match e
    case InLiteral(bodies, slash) =>
      OpenLiteralIsRead(bodies, slash);
      PieceTokens(s, Str, 0, |s|);
      assert s[0..|s|] == s;
    case InHexes(digits) =>
      HexEndNone(s, 1);
      assert digits != "" ==> s[1] == digits[0];
      PieceTokens(s, Str, 0, |s|);
      assert s[0..|s|] == s;
    case InPicture(first, data) =>
      OpenPictureTokens(first, data);
  }

  lemma OpenPictureTokens(first: Gap, data: string)
    requires IsEnding(InPicture(first, data))
    ensures var s, e := EndingText(InPicture(first, data)), InPicture(first, data);
      var r := LexOne(s);
      && s != "" && s[0] == 'I' && r.length == |s| && r.open
      && Inside(s, r.pieces) && Tokens(s, r.pieces) == EndingTokens(e)
  {
    hide LexOne, Inside, Tokens, IsEnding, EndingText;
    OpenPictureIsRead(first, data);
    var s, d := EndingText(InPicture(first, data)), 2 + |GapText(first)|;
    assert s[0] == s[..2][0] && s[0..2] == s[..2] && s[d..|s|] == s[d..];
    PieceTokens(s, Operator, 0, 2);
    if data != "" {
      PieceTokens(s, Str, d, |s|);
      TokensJoin(s, [Piece(Operator, 0, 2)], [Piece(Str, d, |s|)]);
    } else {
      assert [Piece(Operator, 0, 2)] + [] == [Piece(Operator, 0, 2)];
    }
  }

  /** White space before a text that starts with none is skipped. */
  lemma {:induction false} SpacesAreSkipped(ps: seq<Space>, s: string)
    requires s == "" || !IsSpace(s[0])
    ensures Lexemes(Spaces(ps) + s) == Lexemes(s) && EndsOutside(Spaces(ps) + s) == EndsOutside(s)
    decreases |ps|
  {
    hide LexOne;
    var t := Spaces(ps) + s;
    if ps == [] {
      assert t == s;
    } else {
      SpaceStep(ps, s);
      var n := LexOne(t).length;
      NoTokens(t);
      assert t[n..] == Spaces(ps[n..]) + s;
      SpacesAreSkipped(ps[n..], s);
    }
  }

  lemma SpaceStep(ps: seq<Space>, s: string)
    requires ps != [] && (s == "" || !IsSpace(s[0]))
    ensures var r := LexOne(Spaces(ps) + s); r.pieces == [] && !r.open && 0 < r.length <= |ps|
  {
    var t := Spaces(ps) + s;
    assert t[0] == SpaceChar(ps[0]);
    assert |ps| == 1 && s != "" ==> t[1] == s[0];
  }

  /** The tokens of a written text are those of its words, and it ends inside something exactly when written so. */
  lemma {:induction false} WrittenIsLexed(items: seq<Spaced>, last: seq<Space>, ending: Ending)
    requires Written(items, last, ending)
    ensures var s := Text(items, last, ending);
      Lexemes(s) == TextTokens(items, ending) && (EndsOutside(s) <==> ending.Outside?)
    decreases |items|
  {
    hide LexOne, Tokens, Inside, IsWord, Follows, WordText, WordTokens, IsEnding, EndingText, EndingTokens, IsSpace;
    var s := Text(items, last, ending);
    if items == [] {
      EndingIsLexed(ending);
      SpacesAreSkipped(last, EndingText(ending));
    } else {
      var w, rest := items[0].word, Text(items[1..], last, ending);
      WordStarts(w);
      WordIsRead(w, rest);
      var v := WordText(w) + rest;
      SpacesAreSkipped(items[0].before, v);
      assert v[|WordText(w)|..] == rest;
      WrittenIsLexed(items[1..], last, ending);
    }
  }

  lemma EndingIsLexed(ending: Ending)
    requires IsEnding(ending)
    ensures var s := EndingText(ending);
      (s == "" || !IsSpace(s[0])) && Lexemes(s) == EndingTokens(ending) && (EndsOutside(s) <==> ending.Outside?)
  {
    hide LexOne, Tokens, Inside, IsEnding;
    if !ending.Outside? {
      EndingIsRead(ending);
      var s := EndingText(ending);
      assert s[|s|..] == "";
    }
  }

  // Every text is written so.

  function SpaceOf(c: char): (p: Space)
    requires IsSpace(c)
    ensures SpaceChar(p) == c
  {
    if c == ' ' then Blank else if c == '\t' then Tab else if c == '\r' then Return
    else if c == '\n' then LineFeed else Null
  }

  /** Bodies each closed by a parenthesis, and then the rest. */
  function Levels(closed: seq<Body>, rest: string): string {
    if closed == [] then rest else BodyText(closed[0]) + ")" + Levels(closed[1..], rest)
  }

  predicate AreBodies(bodies: seq<Body>) {
    forall i :: 0 <= i < |bodies| ==> IsBody(bodies[i])
  }

  /** Puts something in front of the first body. */
  function Front(f: Body -> Body, bodies: seq<Body>): seq<Body>
    requires bodies != []
  {
    [f(bodies[0])] + bodies[1..]
  }

  lemma FrontIsBody(f: Body -> Body, bodies: seq<Body>)
    requires bodies != [] && AreBodies(bodies) && IsBody(f(bodies[0]))
    ensures AreBodies(Front(f, bodies))
  {
  }

  lemma FrontOfLevels(f: Body -> Body, v: string, closed: seq<Body>, rest: string)
    requires closed != [] && BodyText(f(closed[0])) == v + BodyText(closed[0])
    ensures Levels(Front(f, closed), rest) == v + Levels(closed, rest)
  {
    var bs := Front(f, closed);
    assert bs[1..] == closed[1..];
    var a, b := BodyText(closed[0]), Levels(closed[1..], rest);
    assert v + a + ")" + b == v + (a + ")" + b);
  }

  lemma FrontOfOpen(f: Body -> Body, v: string, open: seq<Body>, slash: bool)
    requires open != [] && BodyText(f(open[0])) == v + BodyText(open[0])
    ensures OpenText(Front(f, open), slash) == v + OpenText(open, slash)
  {
    var bs := Front(f, open);
    assert bs[1..] == open[1..];
    var a := BodyText(open[0]);
    if |open| == 1 {
      assert v + a + OpenText([], slash) == v + (a + OpenText([], slash));
    } else {
      var b := OpenText(open[1..], slash);
      assert v + a + "(" + b == v + (a + "(" + b);
    }
  }

  /** What a text inside depth parentheses consists of: if they all close, one body each and then the rest, and if
      not, fewer bodies that close and then parts that do not. */
  ghost predicate Reads(t: string, depth: nat, rest: string, done: bool, closed: seq<Body>, open: seq<Body>,
                        slash: bool)
  {
    && AreBodies(closed) && AreBodies(open) && t == Levels(closed, if done then rest else OpenText(open, slash))
    && (if done then |closed| == depth else |closed| < depth && open != [])
  }

  lemma FrontReads(f: Body -> Body, v: string, t: string, depth: nat, rest: string, done: bool, closed: seq<Body>,
                   open: seq<Body>, slash: bool)
    returns (closed': seq<Body>, open': seq<Body>)
    requires Reads(t, depth, rest, done, closed, open, slash) && depth > 0
    requires forall b :: IsBody(b) ==> IsBody(f(b)) && BodyText(f(b)) == v + BodyText(b)
    ensures Reads(v + t, depth, rest, done, closed', open', slash)
  {
    hide BodyText, IsBody, OpenText, Levels;
    closed', open' := closed, open;
    if closed == [] {
      NoLevels(OpenText(open, slash));
      FrontIsBody(f, open);
      FrontOfOpen(f, v, open, slash);
      open' := Front(f, open);
      NoLevels(OpenText(open', slash));
    } else {
      FrontIsBody(f, closed);
      FrontOfLevels(f, v, closed, if done then rest else OpenText(open, slash));
      closed' := Front(f, closed);
    }
  }

  lemma NoLevels(rest: string)
    ensures Levels([], rest) == rest
  {
  }

  lemma ClosedReads(t: string, depth: nat, rest: string, done: bool, closed: seq<Body>, open: seq<Body>, slash: bool)
    requires Reads(t, depth, rest, done, closed, open, slash)
    ensures Reads(")" + t, depth + 1, rest, done, [Nothing] + closed, open, slash)
  {
    assert ([Nothing] + closed)[1..] == closed;
    assert "" + ")" == ")";
  }

  lemma NestedReads(t: string, depth: nat, rest: string, done: bool, closed: seq<Body>, open: seq<Body>, slash: bool)
    returns (closed': seq<Body>, open': seq<Body>)
    requires Reads(t, depth + 1, rest, done, closed, open, slash) && depth > 0
    ensures Reads("(" + t, depth, rest, done, closed', open', slash)
  {
    hide OpenText, BodyText, IsBody, Levels;
    if closed == [] {
      NoLevels(OpenText(open, slash));
      closed', open' := [], [Nothing] + open;
      OpensOnce(open, slash);
      NoLevels(OpenText(open', slash));
    } else if |closed| == 1 && !done {
      closed', open' := [], Front(b => Nested(closed[0], b), open);
      OneLevel(closed[0], OpenText(open, slash));
      assert closed == [closed[0]];
      NestedBody(closed[0], open[0]);
      FrontIsBody(b => Nested(closed[0], b), open);
      FrontOfOpen(b => Nested(closed[0], b), "(" + BodyText(closed[0]) + ")", open, slash);
      NoLevels(OpenText(open', slash));
      assert "(" + (BodyText(closed[0]) + ")" + OpenText(open, slash))
        == "(" + BodyText(closed[0]) + ")" + OpenText(open, slash);
    } else {
      var r := if done then rest else OpenText(open, slash);
      closed', open' := Front(b => Nested(closed[0], b), closed[1..]), open;
      OneMoreLevel(closed, r);
      NestedBody(closed[0], closed[1]);
      FrontIsBody(b => Nested(closed[0], b), closed[1..]);
      FrontOfLevels(b => Nested(closed[0], b), "(" + BodyText(closed[0]) + ")", closed[1..], r);
      assert "(" + (BodyText(closed[0]) + ")" + Levels(closed[1..], r))
        == "(" + BodyText(closed[0]) + ")" + Levels(closed[1..], r);
    }
  }

  lemma OneMoreLevel(closed: seq<Body>, rest: string)
    requires closed != []
    ensures Levels(closed, rest) == BodyText(closed[0]) + ")" + Levels(closed[1..], rest)
  {
  }

  lemma OneLevel(b: Body, rest: string)
    ensures Levels([b], rest) == BodyText(b) + ")" + rest
  {
    assert [b][1..] == [];
  }

  lemma OpensOnce(open: seq<Body>, slash: bool)
    requires open != []
    ensures IsBody(Nothing) && OpenText([Nothing] + open, slash) == "(" + OpenText(open, slash)
  {
    assert ([Nothing] + open)[1..] == open;
    assert "" + "(" == "(";
  }

  lemma NestedBody(inner: Body, rest: Body)
    ensures IsBody(inner) && IsBody(rest) ==> IsBody(Nested(inner, rest))
    ensures BodyText(Nested(inner, rest)) == "(" + BodyText(inner) + ")" + BodyText(rest)
  {
  }

  lemma {:induction false} StringIsWritten(s: string, j: nat, depth: nat)
    returns (closed: seq<Body>, open: seq<Body>, slash: bool)
    requires j <= |s| && depth > 0
    ensures var (e, done) := StringEnd(s, j, depth); Reads(s[j..], depth, s[e..], done, closed, open, slash)
    decreases |s| - j
  {
    hide Reads, BodyText, IsBody;
    var (e, done) := StringEnd(s, j, depth);
    if j == |s| {
      closed, open, slash := [], [Nothing], false;
      EndReads(s[j..], depth, false);
    } else if s[j] == '\\' {
      if j + 1 == |s| {
        closed, open, slash := [], [Nothing], true;
        EndReads(s[j..], depth, true);
      } else {
        closed, open, slash := StringIsWritten(s, j + 2, depth);
        var c := s[j + 1];
        EscapedBodies(c);
        closed, open := FrontReads(b => Escaped(c, b), ['\\', c], s[j + 2..], depth, s[e..], done, closed, open, slash);
        assert s[j..] == ['\\', c] + s[j + 2..];
      }
    } else if s[j] == '(' {
      closed, open, slash := StringIsWritten(s, j + 1, depth + 1);
      closed, open := NestedReads(s[j + 1..], depth, s[e..], done, closed, open, slash);
      assert s[j..] == "(" + s[j + 1..];
    } else if s[j] == ')' {
      closed, open, slash := [], [Nothing], false;
      if depth > 1 {
        closed, open, slash := StringIsWritten(s, j + 1, depth - 1);
      } else {
        assert (e, done) == StringEnd(s, j + 1, 0);
        NothingReads(s[j + 1..]);
      }
      ClosedReads(s[j + 1..], depth - 1, s[e..], done, closed, open, slash);
      closed := [Nothing] + closed;
      assert s[j..] == ")" + s[j + 1..];
    } else {
      closed, open, slash := StringIsWritten(s, j + 1, depth);
      var c := s[j];
      PlainBodies(c);
      closed, open := FrontReads(b => Plain(c, b), [c], s[j + 1..], depth, s[e..], done, closed, open, slash);
      assert s[j..] == [c] + s[j + 1..];
    }
  }

  lemma EndReads(t: string, depth: nat, slash: bool)
    requires depth > 0 && t == if slash then "\\" else ""
    ensures Reads(t, depth, "", false, [], [Nothing], slash)
  {
    assert OpenText([Nothing], slash) == "" + OpenText([], slash);
  }

  lemma NothingReads(t: string)
    ensures Reads(t, 0, t, true, [], [Nothing], false)
  {
  }

  lemma EscapedBodies(c: char)
    ensures forall b :: IsBody(b) ==> IsBody(Escaped(c, b)) && BodyText(Escaped(c, b)) == ['\\', c] + BodyText(b)
  {
  }

  lemma PlainBodies(c: char)
    requires c !in "()\\"
    ensures forall b :: IsBody(b) ==> IsBody(Plain(c, b)) && BodyText(Plain(c, b)) == [c] + BodyText(b)
  {
  }

  lemma {:induction false} LineEndMeans(s: string, j: nat)
    requires j <= |s|
    ensures var e := LineEnd(s, j);
      (forall i :: j <= i < e ==> s[i] !in "\r\n") && (e < |s| ==> s[e] in "\r\n")
    decreases |s| - j
  {
    if j < |s| && s[j] !in "\r\n" {
      LineEndMeans(s, j + 1);
    }
  }

  lemma {:induction false} WordEndMeans(s: string, j: nat)
    requires j <= |s|
    ensures var e := WordEnd(s, j);
      (forall i :: j <= i < e ==> IsRegular(s[i])) && (e < |s| ==> !IsRegular(s[e]))
    decreases |s| - j
  {
    if j < |s| {
      RegularIsNoBreak(s[j]);
      if !IsBreak(s[j]) {
        WordEndMeans(s, j + 1);
      }
    }
  }

  lemma {:induction false} HexEndMeans(s: string, j: nat)
    requires j <= |s|
    ensures var (e, closed) := HexEnd(s, j);
      if closed then j < e && s[e - 1] == '>' && forall i :: j <= i < e - 1 ==> s[i] != '>'
      else e == |s| && forall i :: j <= i < |s| ==> s[i] != '>'
    decreases |s| - j
  {
    if j < |s| && s[j] != '>' {
      HexEndMeans(s, j + 1);
    }
  }

  /** The digits of a number: up to b before its point, and from the point on. */
  lemma {:induction false} NumberEndMeans(s: string, j: nat, hasDot: bool) returns (b: nat, point: bool)
    requires j <= |s|
    ensures var e, c := NumberEnd(s, j, hasDot), if point then b + 1 else b;
      && j <= b <= c <= e && (forall i :: j <= i < b ==> s[i] in "0123456789")
      && (forall i :: c <= i < e ==> s[i] in "0123456789")
      && (if point then s[b] == '.' && !hasDot else b == e)
      && (e < |s| ==> s[e] !in "0123456789" && (s[e] != '.' || point || hasDot))
    decreases |s| - j
  {
    b, point := j, false;
    if j < |s| {
      RegularIsNoBreak(s[j]);
      if IsDigit(s[j]) {
        b, point := NumberEndMeans(s, j + 1, hasDot);
      } else if s[j] == '.' && !hasDot {
        point := true;
        var b', point' := NumberEndMeans(s, j + 1, true);
      }
    }
  }

  lemma {:induction false} ImageEndMeans(s: string, k: nat)
    requires k <= |s|
    ensures match ImageEnd(s, k)
            case None => forall i :: k <= i < |s| ==> !EndsImage(s, i)
            case Some(e) => forall i :: k <= i < e ==> !EndsImage(s, i)
    decreases |s| - k
  {
    if k < |s| - 1 && !EndsImage(s, k) {
      ImageEndMeans(s, k + 1);
    }
  }

  /** A text splits into a word and what follows it, or it is an ending. */
  ghost predicate SplitsInto(s: string, w: Word, tail: string) {
    IsWord(w) && Follows(w, tail) && s == WordText(w) + tail
  }

  ghost predicate Starts(s: string, w: Word, tail: string, ending: Ending) {
    if ending.Outside? then SplitsInto(s, w, tail) else IsEnding(ending) && s == EndingText(ending)
  }

  lemma Cut(s: string, j: nat)
    requires j <= |s|
    ensures s == s[..j] + s[j..] && (s[j..] != "" ==> j < |s| && s[j..][0] == s[j])
    ensures forall i :: 0 <= i < j ==> s[..j][i] == s[i]
    ensures j > 0 ==> s[..j] == [s[0]] + s[1..j]
  {
  }

  lemma LiteralStarts(s: string) returns (w: Word, tail: string, ending: Ending)
    requires s != "" && s[0] == '('
    ensures Starts(s, w, tail, ending)
  {
    hide StringEnd, BodyText, IsBody, OpenText, StartsData, HoldsNoEnd;
    w, tail, ending := Mark("["), "", Outside;
    var closed, open, slash := StringIsWritten(s, 1, 1);
    var (e, done) := StringEnd(s, 1, 1);
    assert s == "(" + s[1..];
    if done {
      w, tail := Literal(closed[0]), s[e..];
      assert closed == [closed[0]];
      OneLevel(closed[0], tail);
      assert "(" + (BodyText(closed[0]) + ")" + tail) == "(" + BodyText(closed[0]) + ")" + tail;
    } else {
      ending := InLiteral(open, slash);
      NoLevels(OpenText(open, slash));
    }
  }

  lemma HexesStart(s: string) returns (w: Word, tail: string, ending: Ending)
    requires s != "" && s[0] == '<' && (|s| > 1 ==> s[1] != '<')
    ensures Starts(s, w, tail, ending)
  {
    hide HexEnd;
    w, tail, ending := Mark("["), "", Outside;
    HexEndMeans(s, 1);
    var (e, closed) := HexEnd(s, 1);
    if closed {
      w, tail := Hexes(s[1..e - 1]), s[e..];
      Cut(s, e);
      assert s[..e] == "<" + s[1..e - 1] + ">";
    } else {
      ending := InHexes(s[1..]);
      assert s == "<" + s[1..];
    }
  }

  lemma NumeralFront(s: string) returns (w: Word, tail: string)
    requires s != "" && IsNumberStart(s, 0)
    ensures SplitsInto(s, w, tail)
  {
    hide NumberEnd, SplitsInto;
    var a := if s[0] == '-' || s[0] == '+' then 1 else 0;
    var b, point := NumberEndMeans(s, a, false);
    var e := NumberEnd(s, a, false);
    var c := if point then b + 1 else b;
    w, tail := Numeral(s[..a], s[a..b], point, s[c..e]), s[e..];
    NumberHasDigit(s, a, b, c, e);
    NumeralFits(s, a, b, c, e);
  }

  lemma NumeralFits(s: string, a: nat, b: nat, c: nat, e: nat)
    requires a <= b <= c <= e <= |s| && a <= 1 && c <= b + 1 && (a < b || c < e)
    requires (forall i :: a <= i < b ==> s[i] in "0123456789") && (forall i :: c <= i < e ==> s[i] in "0123456789")
    requires (a == 1 ==> s[0] in "+-") && (if b < c then s[b] == '.' else b == e)
    requires e < |s| ==> s[e] !in "0123456789" && (s[e] != '.' || b < c)
    ensures SplitsInto(s, Numeral(s[..a], s[a..b], b < c, s[c..e]), s[e..])
  {
    hide SplitsInto;
    var w := Numeral(s[..a], s[a..b], b < c, s[c..e]);
    Cut(s, e);
    SplitNumber(s, a, b, c, e);
    assert s[b..c] == if b < c then "." else "";
    assert WordText(w) == s[..e];
    SignOf(s, a);
    DigitsOf(s, a, b);
    DigitsOf(s, c, e);
    assert IsWord(w);
    assert Follows(w, s[e..]);
    Splits(s, w, s[e..]);
  }

  lemma Splits(s: string, w: Word, tail: string)
    requires IsWord(w) && Follows(w, tail) && s == WordText(w) + tail
    ensures SplitsInto(s, w, tail)
  {
  }

  lemma SignOf(s: string, a: nat)
    requires a <= |s| && a <= 1 && (a == 1 ==> s[0] in "+-")
    ensures s[..a] in {"", "+", "-"}
  {
    assert s[..a] == if a == 1 then [s[0]] else "";
  }

  lemma DigitsOf(s: string, i: nat, j: nat)
    requires i <= j <= |s| && forall k :: i <= k < j ==> s[k] in "0123456789"
    ensures AllDigits(s[i..j])
  {
  }

  lemma SplitNumber(s: string, a: nat, b: nat, c: nat, e: nat)
    requires a <= b <= c <= e <= |s|
    ensures s[..e] == s[..a] + s[a..b] + s[b..c] + s[c..e]
  {
  }

  /** A number has a digit before its point or after it. */
  lemma NumberHasDigit(s: string, a: nat, b: nat, c: nat, e: nat)
    requires s != "" && IsNumberStart(s, 0) && a == if s[0] == '-' || s[0] == '+' then 1 else 0
    requires a <= b <= c <= e <= |s| && ((c == b + 1 && s[b] == '.') || c == b == e)
    requires b < |s| && b == c ==> !IsDigit(s[b]) && s[b] != '.'
    requires c == b + 1 && e < |s| ==> !IsDigit(s[e])
    ensures a < b || c < e
  {
  }

  /** The white space an image's data starts after. */
  lemma FirstGap(s: string) returns (first: Gap)
    requires |s| >= 2 && (|s| > 2 ==> !IsRegular(s[2]))
    ensures s[2..DataStart(s)] == GapText(first) && StartsData(first, s[DataStart(s)..])
    ensures DataStart(s) == 2 && |s| > 2 ==> !IsBound(s[2])
  {
    first := NoGap;
    if |s| > 2 && IsGap(s[2]) {
      first := if DataStart(s) == 4 then LineEnding else Single(SpaceOf(s[2]));
    }
  }

  lemma LastGap(s: string, d: nat, k: nat) returns (last: Gap)
    requires 2 <= d <= k && EndsImage(s, k) && s[1] == 'D' && (d == 2 ==> !IsBound(s[2]))
    ensures var e := DataEnd(s, d, k);
      && s[e..k] == GapText(last) && last != Single(Null) && (e < k ==> IsBound(s[e]))
      && (last == NoGap ==> e == d) && (d == 2 ==> e > 2)
      && (last == Single(LineFeed) && e > d ==> s[e - 1] != '\r')
  {
    var e := DataEnd(s, d, k);
    if e == k {
      last := NoGap;
    } else if e == k - 1 {
      last := Single(SpaceOf(s[e]));
      assert s[e..k] == [s[e]];
    } else {
      last := LineEnding;
      assert s[e..k] == [s[e], s[e + 1]];
    }
  }

  lemma StaysOut(s: string, d: nat, e: nat, k: nat)
    requires 2 <= d <= e <= k <= |s| && (forall i :: d <= i < k ==> !EndsImage(s, i))
    requires if d == 2 then d < |s| && s[2] != 'E' else IsBound(s[d - 1])
    requires if e < |s| then e < k && IsBound(s[e]) else e == k
    ensures HoldsNoEnd(s[d..e])
  {
    var data := s[d..e];
    forall i | 0 <= i < |data|
      ensures !StandsAlone(data, i)
    {
      if StandsAlone(data, i) {
        assert data[i] == s[d + i] && data[i + 1] == s[d + i + 1];
        assert EndsImage(s, d + i) by {
          if i > 0 {
            assert data[i - 1] == s[d + i - 1];
          }
          if i + 2 < |data| {
            assert data[i + 2] == s[d + i + 2];
          }
        }
      }
    }
  }

  lemma PictureStarts(s: string) returns (w: Word, tail: string, ending: Ending)
    requires |s| >= 2 && s[..2] == "ID" && (|s| > 2 ==> !IsRegular(s[2]))
    ensures Starts(s, w, tail, ending)
  {
    hide ImageEnd, EndsImage, DataEnd, HoldsNoEnd, IsRegular, StartsData, SplitsInto, GapText;
    w, tail, ending := Mark("["), "", Outside;
    var d := DataStart(s);
    var first := FirstGap(s);
    ImageEndMeans(s, d);
    match ImageEnd(s, d)
    case None =>
      ending := InPicture(first, s[d..]);
      OpenStaysOut(s, d, first);
      SplitOpen(s, d);
    case Some(k) =>
      EndInside(s, k);
      assert s[1] == s[..2][1];
      var last := LastGap(s, d, k);
      var e := DataEnd(s, d, k);
      w, tail := Picture(first, s[d..e], last), s[k + 2..];
      PictureFits(s, first, last, d, e, k);
  }

  lemma OpenStaysOut(s: string, d: nat, first: Gap)
    requires |s| >= 2 && d == 2 + |GapText(first)| <= |s| && s[2..d] == GapText(first) && StartsData(first, s[d..])
    requires forall i :: d <= i < |s| ==> !EndsImage(s, i)
    ensures HoldsNoEnd(s[d..])
  {
    hide EndsImage, HoldsNoEnd;
    assert s[d..] == s[d..|s|];
    assert d > 2 ==> s[d - 1] == s[2..d][d - 3];
    if d == |s| {
      EmptyHoldsNone();
    } else {
      assert s[d..][0] == s[d];
      StaysOut(s, d, |s|, |s|);
    }
  }

  lemma EmptyHoldsNone()
    ensures HoldsNoEnd("")
  {
  }

  lemma SplitOpen(s: string, d: nat)
    requires 2 <= d <= |s| && s[..2] == "ID"
    ensures s == "ID" + s[2..d] + s[d..]
  {
  }

  lemma SplitPicture(s: string, d: nat, e: nat, k: nat)
    requires 2 <= d <= e <= k && k + 2 <= |s| && s[..2] == "ID" && s[k..k + 2] == "EI"
    ensures s == "ID" + s[2..d] + s[d..e] + s[e..k] + "EI" + s[k + 2..]
  {
    assert s[..d] == "ID" + s[2..d];
    assert s[..e] == s[..d] + s[d..e];
    assert s[..k] == s[..e] + s[e..k];
    assert s[..k + 2] == s[..k] + s[k..k + 2];
    assert s == s[..k + 2] + s[k + 2..];
  }

  lemma PictureFits(s: string, first: Gap, last: Gap, d: nat, e: nat, k: nat)
    requires 2 <= d <= e <= k && EndsImage(s, k) && s[..2] == "ID" && k + 2 <= |s|
    requires forall i :: d <= i < k ==> !EndsImage(s, i)
    requires s[2..d] == GapText(first) && StartsData(first, s[d..]) && s[e..k] == GapText(last)
    requires last != Single(Null) && (e < k ==> IsBound(s[e])) && (last == NoGap ==> e == d) && (d == 2 ==> e > 2)
    requires last == Single(LineFeed) && e > d ==> s[e - 1] != '\r'
    ensures SplitsInto(s, Picture(first, s[d..e], last), s[k + 2..])
  {
    PictureIsWord(s, first, last, d, e, k);
    var w := Picture(first, s[d..e], last);
    assert s[k..k + 2] == "EI" && (k + 2 < |s| ==> s[k + 2..][0] == s[k + 2] && IsBound(s[k + 2]));
    hide EndsImage, HoldsNoEnd, IsWord, GapText;
    SplitPicture(s, d, e, k);
    Splits(s, w, s[k + 2..]);
  }

  lemma PictureIsWord(s: string, first: Gap, last: Gap, d: nat, e: nat, k: nat)
    requires 2 <= d <= e <= k && EndsImage(s, k) && k + 2 <= |s|
    requires forall i :: d <= i < k ==> !EndsImage(s, i)
    requires s[2..d] == GapText(first) && StartsData(first, s[d..]) && s[e..k] == GapText(last)
    requires last != Single(Null) && (e < k ==> IsBound(s[e])) && (last == NoGap ==> e == d) && (d == 2 ==> e > 2)
    requires last == Single(LineFeed) && e > d ==> s[e - 1] != '\r'
    ensures IsWord(Picture(first, s[d..e], last))
  {
    hide EndsImage, HoldsNoEnd;
    assert first == NoGap <==> d == 2 by {
      assert |s[2..d]| == d - 2;
    }
    assert d > 2 ==> s[d - 1] == s[2..d][d - 3];
    assert d < e ==> s[d..][0] == s[d] == s[d..e][0] && s[d..e][e - d - 1] == s[e - 1];
    if d == e {
      EmptyHoldsNone();
    } else {
      assert s[e..k] == GapText(last) && |s[e..k]| == k - e;
      StaysOut(s, d, e, k);
    }
  }

  /** A name or an operator. */
  lemma VerbStarts(s: string) returns (w: Word, tail: string, ending: Ending)
    requires s != "" && (s[0] == '/' || (!IsBreak(s[0]) && !IsNumberStart(s, 0)))
    ensures Starts(s, w, tail, ending)
  {
    hide HoldsNoEnd;
    w, tail, ending := Mark("["), "", Outside;
    WordEndMeans(s, 1);
    var e := WordEnd(s, 1);
    Cut(s, e);
    if s[0] == '/' {
      w, tail := Label(s[1..e]), s[e..];
    } else if s[..e] == "ID" {
      w, tail, ending := PictureStarts(s);
    } else {
      w, tail := Verb(s[..e]), s[e..];
      RegularIsNoBreak(s[0]);
      NoNumberFront(s, e);
    }
  }

  lemma NoNumberFront(s: string, e: nat)
    requires 0 < e <= |s| && !IsNumberStart(s, 0)
    ensures !StartsNumber(s[..e])
  {
    var t := s[..e];
    assert forall i :: 0 <= i < e ==> t[i] == s[i];
    assert t[1..] == s[1..e] && forall i :: 0 <= i < e - 1 ==> t[1..][i] == s[i + 1];
    forall i | 0 <= i < 3 && i < |s|
      ensures s[i] in "0123456789" <==> IsDigit(s[i])
    {
      RegularIsNoBreak(s[i]);
    }
  }

  /** A text that starts with no white space starts with a word or is an ending. */
  lemma TextStarts(s: string) returns (w: Word, tail: string, ending: Ending)
    requires s != "" && !IsSpace(s[0])
    ensures Starts(s, w, tail, ending)
  {
    w, tail, ending := Mark("["), "", Outside;
    var c := s[0];
    if c == '(' {
      w, tail, ending := LiteralStarts(s);
    } else if c == '%' {
      w, tail := RemarkStarts(s);
    } else if c == '<' && !(|s| > 1 && s[1] == '<') {
      w, tail, ending := HexesStart(s);
    } else if c == '/' {
      w, tail, ending := VerbStarts(s);
    } else if IsNumberStart(s, 0) {
      w, tail := NumeralFront(s);
    } else if IsBreak(c) {
      w, tail := MarkStarts(s);
    } else {
      w, tail, ending := VerbStarts(s);
    }
  }

  lemma RemarkStarts(s: string) returns (w: Word, tail: string)
    requires s != "" && s[0] == '%'
    ensures SplitsInto(s, w, tail)
  {
    LineEndMeans(s, 1);
    var e := LineEnd(s, 1);
    w, tail := Remark(s[1..e]), s[e..];
    Cut(s, e);
  }

  lemma MarkStarts(s: string) returns (w: Word, tail: string)
    requires s != "" && s[0] in "<>[]{})" && (s[0] == '<' ==> |s| > 1 && s[1] == '<')
    ensures SplitsInto(s, w, tail)
  {
    var n := if s[0] in "<>" && |s| > 1 && s[1] == s[0] then 2 else 1;
    w, tail := Mark(s[..n]), s[n..];
    Cut(s, n);
    assert s[..n] == if n == 1 then [s[0]] else [s[0], s[1]];
  }

  // The whole text.

  lemma NothingIsWritten()
    ensures Written([], [], Outside) && Text([], [], Outside) == ""
  {
  }

  lemma SpaceBefore(p: Space, items: seq<Spaced>, last: seq<Space>, ending: Ending)
    returns (items': seq<Spaced>, last': seq<Space>)
    requires Written(items, last, ending)
    ensures Written(items', last', ending) && Text(items', last', ending) == [SpaceChar(p)] + Text(items, last, ending)
  {
    hide IsWord, Follows, WordText, IsEnding, EndingText;
    items', last' := items, last;
    if items == [] {
      last' := [p] + last;
      assert Spaces(last') == [SpaceChar(p)] + Spaces(last);
    } else {
      var before := items[0].before;
      items' := [Spaced([p] + before, items[0].word)] + items[1..];
      assert items'[1..] == items[1..];
      assert Spaces([p] + before) == [SpaceChar(p)] + Spaces(before);
    }
  }

  lemma WordBefore(w: Word, items: seq<Spaced>, last: seq<Space>, ending: Ending)
    requires Written(items, last, ending) && IsWord(w) && Follows(w, Text(items, last, ending))
    ensures var items' := [Spaced([], w)] + items;
      Written(items', last, ending) && Text(items', last, ending) == WordText(w) + Text(items, last, ending)
  {
    hide IsWord, Follows, WordText;
    assert ([Spaced([], w)] + items)[1..] == items;
  }

  /** Every text is written in words with white space between, up to what it may end inside of. */
  lemma {:induction false} EveryTextIsWritten(s: string)
    returns (items: seq<Spaced>, last: seq<Space>, ending: Ending)
    ensures Written(items, last, ending) && Text(items, last, ending) == s
    decreases |s|
  {
    hide Written, Text, IsWord, Follows, WordText, IsEnding, EndingText;
    items, last, ending := [], [], Outside;
    if s == "" {
      NothingIsWritten();
    } else if IsSpace(s[0]) {
      items, last, ending := EveryTextIsWritten(s[1..]);
      items, last := SpaceBefore(SpaceOf(s[0]), items, last, ending);
      assert s == [s[0]] + s[1..];
    } else {
      var w, tail, more := TextStarts(s);
      if more.Outside? {
        WordStarts(w);
        items, last, ending := EveryTextIsWritten(tail);
        WordBefore(w, items, last, ending);
        items := [Spaced([], w)] + items;
      } else {
        ending := more;
        EndingAlone(more);
      }
    }
  }

  lemma EndingAlone(ending: Ending)
    requires IsEnding(ending)
    ensures Written([], [], ending) && Text([], [], ending) == EndingText(ending)
  {
  }

  /** What follows an opening parenthesis closes it after e characters, or never. */
  ghost predicate EndsString(s: string, e: nat, closed: bool) {
    && (closed ==> e <= |s| && exists b :: IsBody(b) && s[..e] == BodyText(b) + ")")
    && (forall b :: IsBody(b) && BodyText(b) + ")" <= s ==> closed && e == |BodyText(b)| + 1)
    && (!closed ==> e == |s|)
  }

  /** A string ends where the first parenthesis that is not inside it or escaped closes it. */
  lemma StringEndsSo(s: string)
    requires s != ""
    ensures var (e, closed) := StringEnd(s, 1, 1); e > 0 && EndsString(s[1..], e - 1, closed)
  {
    hide BodyText, IsBody, StringEnd, OpenText;
    var (e, done) := StringEnd(s, 1, 1);
    var closed, open, slash := StringIsWritten(s, 1, 1);
    if done {
      assert closed == [closed[0]];
      OneLevel(closed[0], s[e..]);
      ClosedFront(s, closed[0], e);
    } else {
      NoLevels(OpenText(open, slash));
      OpenIsOpen(open, slash, s, 1, 1);
    }
    forall b | IsBody(b) && BodyText(b) + ")" <= s[1..]
      ensures done && e - 1 == |BodyText(b)| + 1
    {
      FrontIsRead(s, b);
    }
  }

  lemma ClosedFront(s: string, b: Body, e: nat)
    requires 1 <= e <= |s| && s[1..] == BodyText(b) + ")" + s[e..]
    ensures s[1..][..e - 1] == BodyText(b) + ")"
  {
    assert |s[1..]| == |BodyText(b) + ")"| + |s[e..]|;
  }

  lemma FrontIsRead(s: string, b: Body)
    requires s != "" && IsBody(b) && BodyText(b) + ")" <= s[1..]
    ensures StringEnd(s, 1, 1) == (|BodyText(b)| + 2, true)
  {
    hide BodyText, IsBody;
    var t := BodyText(b);
    TailOf(s, 1, t + ")", s[1..][|t| + 1..]);
    PartsOf(s, 1, t, ")");
    BodyIsSkipped(b, s, 1, 1);
    assert StringEnd(s, 1 + |t|, 1) == StringEnd(s, 2 + |t|, 0);
  }

  /** The tokens are those of the words the text is written in. */
  ghost predicate IsReading(s: string, tokens: seq<Token>) {
    && (exists items, last, ending ::
         Written(items, last, ending) && Text(items, last, ending) == s && TextTokens(items, ending) == tokens)
    && (forall items, last, ending :: Written(items, last, ending) && Text(items, last, ending) == s
         ==> TextTokens(items, ending) == tokens)
  }

  /** However a text is written, its tokens are those of its words, and every text is written somehow. */
  lemma LexingIsReading(s: string)
    ensures IsReading(s, Lexemes(s))
  {
    hide Written, Text, TextTokens, Lexemes;
    forall items, last, ending | Written(items, last, ending) && Text(items, last, ending) == s
      ensures TextTokens(items, ending) == Lexemes(s)
    {
      WrittenIsLexed(items, last, ending);
    }
    var items, last, ending := EveryTextIsWritten(s);
  }

  /** A text ends outside strings, hex strings and images exactly when it is written in whole words. */
  lemma EndsOutsideIff(s: string)
    ensures EndsOutside(s) <==> exists items, last :: Written(items, last, Outside) && Text(items, last, Outside) == s
  {
    hide Written, Text, EndsOutside;
    var items, last, ending := EveryTextIsWritten(s);
    WrittenIsLexed(items, last, ending);
    forall items, last | Written(items, last, Outside) && Text(items, last, Outside) == s
      ensures EndsOutside(s)
    {
      WrittenIsLexed(items, last, Outside);
    }
  }
}
