/** The tokens of a content stream. */
module ContentLexer {

  datatype Kind = Comment | Str | Operator | Name | Number

  datatype Token = Token(kind: Kind, value: string)

  /** A token's place in the text. */
  datatype Piece = Piece(kind: Kind, start: nat, end: nat)

  /** What lexing at the front of a text finds: the pieces, how much is consumed, and whether the text ended inside
      a string, a hex string or an inline image. */
  datatype Lexed = Lexed(pieces: seq<Piece>, length: nat, open: bool)

  predicate IsSpace(c: char) {
    c == ' ' || c == '\t' || c == '\r' || c == '\n' || c == '\0'
  }

  /** The white space that bounds an inline image. */
  predicate IsGap(c: char) {
    c == ' ' || c == '\n' || c == '\r' || c == '\t'
  }

  predicate IsBreak(c: char) {
    || IsSpace(c) || c == '(' || c == ')' || c == '<' || c == '>' || c == '[' || c == ']' || c == '{' || c == '}'
    || c == '/' || c == '%'
  }

  predicate IsDigit(c: char) {
    '0' <= c <= '9'
  }

  // Where things end.

  function LineEnd(s: string, j: nat): (e: nat)
    requires j <= |s|
    ensures j <= e <= |s|
    decreases |s| - j
  {
    if j == |s| || s[j] == '\n' || s[j] == '\r' then j else LineEnd(s, j + 1)
  }

  function WordEnd(s: string, j: nat): (e: nat)
    requires j <= |s|
    ensures j <= e <= |s|
    decreases |s| - j
  {
    if j == |s| || IsBreak(s[j]) then j else WordEnd(s, j + 1)
  }

  function NumberEnd(s: string, j: nat, hasDot: bool): (e: nat)
    requires j <= |s|
    ensures j <= e <= |s|
    decreases |s| - j
  {
    if j < |s| && IsDigit(s[j]) then NumberEnd(s, j + 1, hasDot)
    else if j < |s| && s[j] == '.' && !hasDot then NumberEnd(s, j + 1, true)
    else j
  }

  /** Past the closing bracket of a hex string, and whether there is one. */
  function HexEnd(s: string, j: nat): (r: (nat, bool))
    requires j <= |s|
    ensures j <= r.0 <= |s| && (r.1 ==> j < r.0)
    decreases |s| - j
  {
    if j == |s| then (j, false) else if s[j] == '>' then (j + 1, true) else HexEnd(s, j + 1)
  }

  /** Past the parenthesis that closes depth open ones, and whether there is one; a backslash hides the next
      character. */
  function StringEnd(s: string, j: nat, depth: nat): (r: (nat, bool))
    requires j <= |s|
    ensures j <= r.0 <= |s|
    decreases |s| - j
  {
    if depth == 0 then (j, true)
    else if j == |s| then (j, false)
    else if s[j] == '\\' then
      if j + 2 >= |s| then (|s|, false) else StringEnd(s, j + 2, depth)
    else
      StringEnd(s, j + 1, if s[j] == '(' then depth + 1 else if s[j] == ')' then depth - 1 else depth)
  }

  predicate IsNumberStart(s: string, i: nat)
    requires i < |s|
  {
    || IsDigit(s[i])
    || (s[i] == '.' && i + 1 < |s| && IsDigit(s[i + 1]))
    || ((s[i] == '-' || s[i] == '+') && i + 1 < |s|
        && (IsDigit(s[i + 1]) || (s[i + 1] == '.' && i + 2 < |s| && IsDigit(s[i + 2]))))
  }

  // Inline images.

  /** The operator EI at k ends an image: white space before it, and after it white space or nothing. */
  predicate EndsImage(s: string, k: nat) {
    && 0 < k < |s| - 1 && s[k] == 'E' && s[k + 1] == 'I' && IsGap(s[k - 1])
    && (k + 2 >= |s| || IsGap(s[k + 2]))
  }

  datatype Option<T> = None | Some(value: T)

  function ImageEnd(s: string, k: nat): (r: Option<nat>)
    requires k <= |s|
    ensures r.Some? ==> k <= r.value && EndsImage(s, r.value)
    decreases |s| - k
  {
    if k >= |s| - 1 then None else if EndsImage(s, k) then Some(k) else ImageEnd(s, k + 1)
  }

  /** Where the data of an image starts: one line end or one white-space character after ID is skipped. */
  function DataStart(s: string): (d: nat)
    requires |s| >= 2
    ensures 2 <= d <= |s|
  {
    if |s| > 2 && IsGap(s[2]) then (if s[2] == '\r' && |s| > 3 && s[3] == '\n' then 4 else 3) else 2
  }

  /** Where the data ends: before the one white-space character, or line end, that comes before EI. */
  function DataEnd(s: string, d: nat, k: nat): (e: nat)
    requires d <= k && EndsImage(s, k)
    ensures d <= e <= k
  {
    var e := if k - 1 < d then d else k - 1;
    if e > d && s[e] == '\n' && s[e - 1] == '\r' then e - 1 else e
  }

  function LexImage(s: string): Lexed
    requires |s| >= 2
  {
    var d := DataStart(s);
    match ImageEnd(s, d)
    case Some(k) =>
      var e := DataEnd(s, d, k);
      var data := if e > d then [Piece(Str, d, e)] else [];
      Lexed([Piece(Operator, 0, 2)] + data + [Piece(Operator, k, k + 2)], k + 2, false)
    case None =>
      Lexed([Piece(Operator, 0, 2)] + (if |s| > d then [Piece(Str, d, |s|)] else []), |s|, true)
  }

  function One(kind: Kind, end: nat): Lexed {
    Lexed([Piece(kind, 0, end)], end, false)
  }

  /** Lexes at the front of a text. */
  function LexOne(s: string): (r: Lexed)
    requires s != ""
    ensures 0 < r.length <= |s|
  {
    var c := s[0];
    if IsSpace(c) then Lexed([], if c == '\r' && |s| > 1 && s[1] == '\n' then 2 else 1, false)
    else if c == '%' then One(Comment, LineEnd(s, 1))
    else if c == '(' then
      var (e, closed) := StringEnd(s, 1, 1);
      Lexed([Piece(Str, 0, e)], e, !closed)
    else if c == '<' && |s| > 1 && s[1] == '<' then One(Operator, 2)
    else if c == '>' && |s| > 1 && s[1] == '>' then One(Operator, 2)
    else if c == '<' then
      var (e, closed) := HexEnd(s, 1);
      Lexed([Piece(Str, 0, e)], e, !closed)
    else if c == '/' then One(Name, WordEnd(s, 1))
    else if c == '[' || c == ']' then One(Operator, 1)
    else if IsNumberStart(s, 0) then
      var j := if c == '-' || c == '+' then 1 else 0;
      NumberMoves(s);
      One(Number, NumberEnd(s, j, false))
    else if IsBreak(c) then One(Operator, 1)
    else if WordEnd(s, 1) == 2 && s[..2] == "ID" then LexImage(s)
    else One(Operator, WordEnd(s, 1))
  }

  lemma NumberMoves(s: string)
    requires s != "" && IsNumberStart(s, 0)
    ensures NumberEnd(s, if s[0] == '-' || s[0] == '+' then 1 else 0, false) > 0
  {
  }

  function Tokens(s: string, pieces: seq<Piece>): (ts: seq<Token>)
    requires forall i :: 0 <= i < |pieces| ==> pieces[i].start <= pieces[i].end <= |s|
    ensures |ts| == |pieces|
  {
    seq(|pieces|, i requires 0 <= i < |pieces| => Token(pieces[i].kind, s[pieces[i].start..pieces[i].end]))
  }

  // Nothing but white space is lost.

  predicate AllSpace(s: string) {
    forall i :: 0 <= i < |s| ==> IsSpace(s[i])
  }

  /** The pieces lie in order from position from on, none empty, with only white space between and after them up to
      position to. */
  predicate Covers(s: string, pieces: seq<Piece>, from: nat, to: nat)
    requires from <= to <= |s|
  {
    if pieces == [] then AllSpace(s[from..to])
    else
      && from <= pieces[0].start < pieces[0].end <= to
      && AllSpace(s[from..pieces[0].start])
      && Covers(s, pieces[1..], pieces[0].end, to)
  }

  lemma {:induction false} CoversLie(s: string, pieces: seq<Piece>, from: nat, to: nat)
    requires from <= to <= |s| && Covers(s, pieces, from, to)
    ensures forall i :: 0 <= i < |pieces| ==> from <= pieces[i].start < pieces[i].end <= to
    ensures forall i, j :: 0 <= i < j < |pieces| ==> pieces[i].end <= pieces[j].start
    decreases |pieces|
  {
    if pieces != [] {
      var rest := pieces[1..];
      CoversLie(s, rest, pieces[0].end, to);
      forall i | 0 <= i < |pieces|
        ensures from <= pieces[i].start < pieces[i].end <= to
        ensures i > 0 ==> pieces[0].end <= pieces[i].start
      {
        if i > 0 {
          assert pieces[i] == rest[i - 1];
        }
      }
      forall i, j | 0 <= i < j < |pieces|
        ensures pieces[i].end <= pieces[j].start
      {
        if i > 0 {
          assert pieces[i] == rest[i - 1] && pieces[j] == rest[j - 1];
        }
      }
    }
  }

  lemma CoversNone(s: string, from: nat, to: nat)
    requires from <= to <= |s| && AllSpace(s[from..to])
    ensures Covers(s, [], from, to)
  {
  }

  lemma CoversCons(s: string, p: Piece, rest: seq<Piece>, from: nat, to: nat)
    requires from <= p.start < p.end <= to <= |s| && AllSpace(s[from..p.start]) && Covers(s, rest, p.end, to)
    ensures Covers(s, [p] + rest, from, to)
  {
    assert ([p] + rest)[1..] == rest;
  }

  lemma GapIsSpace(s: string, d: nat, k: nat)
    requires |s| >= 2 && d == DataStart(s) && d <= k && EndsImage(s, k)
    ensures AllSpace(s[2..d]) && AllSpace(s[DataEnd(s, d, k)..k])
    ensures DataEnd(s, d, k) == d ==> AllSpace(s[2..k])
  {
    if DataEnd(s, d, k) == d {
      assert s[2..k] == s[2..d] + s[d..k];
    }
  }

  lemma ImageCovers(s: string)
    requires |s| >= 2
    ensures Covers(s, LexImage(s).pieces, 0, LexImage(s).length)
  {
    hide Covers, AllSpace, EndsImage, DataStart, ImageEnd, DataEnd;
    var d := DataStart(s);
    var id := Piece(Operator, 0, 2);
    match ImageEnd(s, d)
    case Some(k) =>
      var e := DataEnd(s, d, k);
      GapIsSpace(s, d, k);
      EndInside(s, k);
      var ei := Piece(Operator, k, k + 2);
      CoversNone(s, k + 2, k + 2);
      if e > d {
        CoversCons(s, ei, [], e, k + 2);
        CoversCons(s, Piece(Str, d, e), [ei] + [], 2, k + 2);
        CoversCons(s, id, [Piece(Str, d, e)] + ([ei] + []), 0, k + 2);
        assert [id] + [Piece(Str, d, e)] + [ei] == [id] + ([Piece(Str, d, e)] + ([ei] + []));
      } else {
        CoversCons(s, ei, [], 2, k + 2);
        CoversCons(s, id, [ei] + [], 0, k + 2);
        assert [id] + [] + [ei] == [id] + ([ei] + []);
      }
    case None =>
      SkippedIsSpace(s);
      if |s| > d {
        CoversNone(s, |s|, |s|);
        CoversCons(s, Piece(Str, d, |s|), [], 2, |s|);
        CoversCons(s, id, [Piece(Str, d, |s|)] + [], 0, |s|);
        assert [id] + [Piece(Str, d, |s|)] == [id] + ([Piece(Str, d, |s|)] + []);
      } else {
        CoversNone(s, 2, |s|);
        CoversCons(s, id, [], 0, |s|);
      }
  }

  lemma EndInside(s: string, k: nat)
    requires EndsImage(s, k)
    ensures k + 2 <= |s|
  {
  }

  lemma SkippedIsSpace(s: string)
    requires |s| >= 2
    ensures AllSpace(s[2..DataStart(s)])
  {
  }

  /** One step consumes white space and the pieces it finds, nothing else. */
  lemma LexOneCovers(s: string)
    requires s != ""
    ensures Covers(s, LexOne(s).pieces, 0, LexOne(s).length)
  {
    var r := LexOne(s);
    if IsSpace(s[0]) {
      assert AllSpace(s[0..r.length]);
    } else if |r.pieces| == 1 && r.pieces[0] == Piece(r.pieces[0].kind, 0, r.length) {
      assert r.pieces == [Piece(r.pieces[0].kind, 0, r.length)];
    } else {
      ImageCovers(s);
    }
  }

  // The whole text.

  /** The tokens of a text, front to back. */
  function Lexemes(s: string): seq<Token>
    decreases |s|
  {
    if s == "" then []
    else
      var r := LexOne(s);
      LexOneInside(s);
      Tokens(s, r.pieces) + Lexemes(s[r.length..])
  }

  lemma LexOneInside(s: string)
    requires s != ""
    ensures var r := LexOne(s); forall i :: 0 <= i < |r.pieces| ==> r.pieces[i].start < r.pieces[i].end <= r.length
  {
    LexOneCovers(s);
    CoversLie(s, LexOne(s).pieces, 0, LexOne(s).length);
  }

  function Shifted(pieces: seq<Piece>, offset: nat): (r: seq<Piece>)
    ensures |r| == |pieces|
  {
    seq(|pieces|, i requires 0 <= i < |pieces| =>
      Piece(pieces[i].kind, pieces[i].start + offset, pieces[i].end + offset))
  }

  /** The places of all tokens of a text. */
  function Pieces(s: string): seq<Piece>
    decreases |s|
  {
    if s == "" then []
    else
      var r := LexOne(s);
      r.pieces + Shifted(Pieces(s[r.length..]), r.length)
  }

  lemma {:induction false} CoversShift(s: string, n: nat, pieces: seq<Piece>, from: nat, to: nat)
    requires n <= |s| && from <= to <= |s| - n && Covers(s[n..], pieces, from, to)
    ensures Covers(s, Shifted(pieces, n), from + n, to + n)
    decreases |pieces|
  {
    if pieces == [] {
      assert s[n..][from..to] == s[from + n..to + n];
    } else {
      assert s[n..][from..pieces[0].start] == s[from + n..pieces[0].start + n];
      CoversShift(s, n, pieces[1..], pieces[0].end, to);
      assert Shifted(pieces, n)[1..] == Shifted(pieces[1..], n);
    }
  }

  lemma {:induction false} CoversJoin(s: string, a: seq<Piece>, b: seq<Piece>, from: nat, mid: nat, to: nat)
    requires from <= mid <= to <= |s| && Covers(s, a, from, mid) && Covers(s, b, mid, to)
    ensures Covers(s, a + b, from, to)
    decreases |a|
  {
    if a == [] {
      assert a + b == b;
      if b == [] {
        assert s[from..to] == s[from..mid] + s[mid..to];
      } else {
        assert s[from..b[0].start] == s[from..mid] + s[mid..b[0].start];
      }
    } else {
      CoversJoin(s, a[1..], b, a[0].end, mid, to);
      assert (a + b)[1..] == a[1..] + b;
    }
  }

  ghost predicate Inside(s: string, pieces: seq<Piece>) {
    forall i :: 0 <= i < |pieces| ==> pieces[i].start < pieces[i].end <= |s|
  }

  lemma ShiftedTokens(s: string, n: nat, pieces: seq<Piece>)
    requires n <= |s| && Inside(s[n..], pieces)
    ensures Inside(s, Shifted(pieces, n)) && Tokens(s, Shifted(pieces, n)) == Tokens(s[n..], pieces)
  {
    forall i | 0 <= i < |pieces|
      ensures s[pieces[i].start + n..pieces[i].end + n] == s[n..][pieces[i].start..pieces[i].end]
    {
    }
  }

  lemma TokensJoin(s: string, a: seq<Piece>, b: seq<Piece>)
    requires Inside(s, a) && Inside(s, b)
    ensures Inside(s, a + b) && Tokens(s, a + b) == Tokens(s, a) + Tokens(s, b)
  {
  }

  lemma {:induction false} LexemesAreSlices(s: string)
    ensures Inside(s, Pieces(s)) && Lexemes(s) == Tokens(s, Pieces(s))
    decreases |s|
  {
    hide LexOne, Tokens, Shifted;
    if s != "" {
      var r := LexOne(s);
      var rest := s[r.length..];
      LexOneInside(s);
      LexemesAreSlices(rest);
      ShiftedTokens(s, r.length, Pieces(rest));
      TokensJoin(s, r.pieces, Shifted(Pieces(rest), r.length));
    } else {
      NoTokens(s);
    }
  }

  lemma NoTokens(s: string)
    ensures Tokens(s, []) == []
  {
  }

  lemma {:induction false} PiecesCover(s: string)
    ensures Covers(s, Pieces(s), 0, |s|)
    decreases |s|
  {
    hide LexOne, Covers;
    if s != "" {
      var r := LexOne(s);
      var rest := s[r.length..];
      LexOneCovers(s);
      PiecesCover(rest);
      CoversShift(s, r.length, Pieces(rest), 0, |rest|);
      CoversJoin(s, r.pieces, Shifted(Pieces(rest), r.length), 0, r.length, |s|);
    } else {
      CoversNone(s, 0, 0);
    }
  }

  /** Lexing loses nothing but white space: the tokens are the text's slices at ordered, disjoint, non-empty places
      with only white space between them. */
  lemma LexingIsLossless(s: string)
    ensures Covers(s, Pieces(s), 0, |s|)
    ensures Inside(s, Pieces(s)) && Lexemes(s) == Tokens(s, Pieces(s))
  {
    PiecesCover(s);
    LexemesAreSlices(s);
  }
}
