/** The loop that tokenizes a content stream. */
module Tokenizer {
  import opened ContentLexer
  import LexerForms

  /** What an index into the text means for the text from i on. */
  lemma From(raw: string, i: nat, j: nat)
    requires i <= j <= |raw|
    ensures |raw[i..]| == |raw| - i
    ensures j < |raw| ==> raw[i..][j - i] == raw[j]
    ensures j + 1 < |raw| ==> raw[i..][j + 1 - i] == raw[j + 1]
    ensures raw[i..][..j - i] == raw[i..j]
  {
  }

  method SkipLine(raw: string, i: nat) returns (j: nat)
    requires i < |raw|
    ensures i < j <= |raw| && j - i == LineEnd(raw[i..], 1)
  {
    j := i + 1;
    while j < |raw| && raw[j] != '\n' && raw[j] != '\r'
      invariant i < j <= |raw|
      invariant LineEnd(raw[i..], 1) == LineEnd(raw[i..], j - i)
    {
      From(raw, i, j);
      j := j + 1;
    }
    if j < |raw| {
      From(raw, i, j);
    }
  }

  method SkipWord(raw: string, i: nat) returns (j: nat)
    requires i < |raw|
    ensures i < j <= |raw| && j - i == WordEnd(raw[i..], 1)
  {
    j := i + 1;
    while j < |raw| && !IsBreak(raw[j])
      invariant i < j <= |raw|
      invariant WordEnd(raw[i..], 1) == WordEnd(raw[i..], j - i)
    {
      From(raw, i, j);
      j := j + 1;
    }
    if j < |raw| {
      From(raw, i, j);
    }
  }

  method SkipHex(raw: string, i: nat) returns (j: nat, closed: bool)
    requires i < |raw|
    ensures i < j <= |raw| && (j - i, closed) == HexEnd(raw[i..], 1)
  {
    j := i + 1;
    while j < |raw| && raw[j] != '>'
      invariant i < j <= |raw|
      invariant HexEnd(raw[i..], 1) == HexEnd(raw[i..], j - i)
    {
      From(raw, i, j);
      j := j + 1;
    }
    closed := false;
    if j < |raw| {
      From(raw, i, j);
      j := j + 1;
      closed := true;
    }
  }

  method SkipString(raw: string, i: nat) returns (j: nat, closed: bool)
    requires i < |raw|
    ensures i < j <= |raw| && (j - i, closed) == StringEnd(raw[i..], 1, 1)
    ensures LexerForms.EndsString(raw[i + 1..], j - i - 1, closed)
  {
    LexerForms.StringEndsSo(raw[i..]);
    assert raw[i..][1..] == raw[i + 1..];
    j := i + 1;
    var depth := 1;
    while j < |raw| && depth > 0
      invariant i < j <= |raw|
      invariant StringEnd(raw[i..], 1, 1) == StringEnd(raw[i..], j - i, depth)
    {
      From(raw, i, j);
      if raw[j] == '\\' {
        j := j + 2;
        if j >= |raw| {
          return |raw|, false;
        }
        continue;
      }
      if raw[j] == '(' {
        depth := depth + 1;
      } else if raw[j] == ')' {
        depth := depth - 1;
      }
      j := j + 1;
    }
    closed := depth == 0;
  }

  method SkipNumber(raw: string, i: nat) returns (j: nat)
    requires i < |raw|
    ensures i <= j <= |raw|
    ensures j - i == NumberEnd(raw[i..], if raw[i] == '-' || raw[i] == '+' then 1 else 0, false)
  {
    j := if raw[i] == '-' || raw[i] == '+' then i + 1 else i;
    var hasDot := false;
    ghost var start := j;
    while j < |raw| && (IsDigit(raw[j]) || (raw[j] == '.' && !hasDot))
      invariant start <= j <= |raw|
      invariant NumberEnd(raw[i..], start - i, false) == NumberEnd(raw[i..], j - i, hasDot)
    {
      From(raw, i, j);
      if raw[j] == '.' {
        hasDot := true;
      }
      j := j + 1;
    }
    if j < |raw| {
      From(raw, i, j);
    }
  }

  /** Looks for the operator EI that ends the image whose data starts at i + d. */
  method FindImageEnd(raw: string, i: nat, d: nat) returns (found: Option<nat>)
    requires 2 <= d && i + d <= |raw|
    ensures found == match ImageEnd(raw[i..], d) case None => None case Some(k) => Some(i + k)
  {
    var k := i + d;
    while k < |raw| - 1
      invariant i + d <= k <= |raw|
      invariant ImageEnd(raw[i..], d) == ImageEnd(raw[i..], k - i)
    {
      if raw[k] == 'E' && raw[k + 1] == 'I' {
        if k > 0 && IsGap(raw[k - 1]) {
          if k + 2 >= |raw| || IsGap(raw[k + 2]) {
            return Some(k);
          }
        }
      }
      k := k + 1;
    }
    return None;
  }

  /** The tokens of an inline image from its ID operator on, and where lexing goes on. */
  method TakeImage(raw: string, i: nat) returns (tokens: seq<Token>, next: nat)
    requires i + 2 <= |raw|
    ensures Inside(raw[i..], LexImage(raw[i..]).pieces) && tokens == Tokens(raw[i..], LexImage(raw[i..]).pieces)
    ensures next == i + LexImage(raw[i..]).length
  {
    hide Tokens, ImageEnd, EndsImage, DataStart, DataEnd, LexImage, Inside;
    ghost var s := raw[i..];
    tokens := [Token(Operator, raw[i..i + 2])];
    var start := SkipAfterId(raw, i);
    var found := FindImageEnd(raw, i, start - i);
    if found.None? {
      OpenImage(s, start - i);
      if |raw| > start {
        tokens := tokens + [Token(Str, raw[start..])];
      }
      Slices(raw, i, start, |raw|);
      return tokens, |raw|;
    }
    var k := found.value;
    EndedImage(s, start - i, k - i);
    EndOf(s, k - i);
    var end := DropDelimiter(raw, i, start, k);
    if end > start {
      tokens := tokens + [Token(Str, raw[start..end])];
    }
    tokens := tokens + [Token(Operator, "EI")];
    Slices(raw, i, start, end);
    next := k + 2;
  }

  /** Skips the one white-space character, or line end, after ID. */
  method SkipAfterId(raw: string, i: nat) returns (start: nat)
    requires i + 2 <= |raw|
    ensures start == i + DataStart(raw[i..]) && i + 2 <= start <= |raw|
  {
    start := i + 2;
    if start < |raw| && IsGap(raw[start]) {
      From(raw, i, start);
      if raw[start] == '\r' && start + 1 < |raw| && raw[start + 1] == '\n' {
        start := start + 1;
      }
      start := start + 1;
    }
  }

  /** Where an image's data ends: the one delimiter before EI, a whole line end if it is one, is dropped. */
  method DropDelimiter(raw: string, i: nat, start: nat, k: nat) returns (end: nat)
    requires i + 2 <= start <= k <= |raw| && EndsImage(raw[i..], k - i)
    ensures end == i + DataEnd(raw[i..], start - i, k - i) && start <= end <= k
  {
    end := if k - 1 < start then start else k - 1;
    if end > start {
      From(raw, i, end - 1);
      if raw[end] == '\n' && raw[end - 1] == '\r' {
        end := end - 1;
      }
    }
  }

  lemma Slices(raw: string, i: nat, j: nat, k: nat)
    requires i <= j <= k <= |raw|
    ensures raw[i..][j - i..k - i] == raw[j..k]
    ensures i + 2 <= |raw| ==> raw[i..][0..2] == raw[i..i + 2]
    ensures k == |raw| ==> raw[j..k] == raw[j..]
  {
  }

  lemma EndOf(s: string, k: nat)
    requires EndsImage(s, k)
    ensures k + 2 <= |s| && k > 0 && s[k..k + 2] == "EI"
  {
  }

  function DataToken(s: string, d: nat, e: nat): seq<Token>
    requires d <= e <= |s|
  {
    if e > d then [Token(Str, s[d..e])] else []
  }

  lemma DataTokens(s: string, d: nat, e: nat)
    requires d <= e <= |s|
    ensures var pieces := if e > d then [Piece(Str, d, e)] else [];
      Inside(s, pieces) && Tokens(s, pieces) == DataToken(s, d, e)
  {
  }

  lemma OperatorToken(s: string, k: nat)
    requires k + 2 <= |s|
    ensures Inside(s, [Piece(Operator, k, k + 2)])
      && Tokens(s, [Piece(Operator, k, k + 2)]) == [Token(Operator, s[k..k + 2])]
  {
  }

  /** The tokens of an image that ends, spelled out. */
  lemma EndedImage(s: string, d: nat, k: nat)
    requires |s| >= 2 && d == DataStart(s) && ImageEnd(s, d) == Some(k)
    ensures k + 2 <= |s| && EndsImage(s, k) && Inside(s, LexImage(s).pieces) && LexImage(s).length == k + 2
    ensures Tokens(s, LexImage(s).pieces) ==
      [Token(Operator, s[0..2])] + DataToken(s, d, DataEnd(s, d, k)) + [Token(Operator, s[k..k + 2])]
  {
    hide Tokens, EndsImage, DataStart, DataEnd, ImageEnd, Inside, DataToken;
    EndInside(s, k);
    var e := DataEnd(s, d, k);
    var data := if e > d then [Piece(Str, d, e)] else [];
    OperatorToken(s, 0);
    DataTokens(s, d, e);
    OperatorToken(s, k);
    TokensJoin(s, [Piece(Operator, 0, 2)], data);
    TokensJoin(s, [Piece(Operator, 0, 2)] + data, [Piece(Operator, k, k + 2)]);
  }

  lemma OpenImage(s: string, d: nat)
    requires |s| >= 2 && d == DataStart(s) && ImageEnd(s, d) == None
    ensures Inside(s, LexImage(s).pieces) && LexImage(s).length == |s|
    ensures Tokens(s, LexImage(s).pieces) == [Token(Operator, s[0..2])] + DataToken(s, d, |s|)
  {
    hide Tokens, DataStart, ImageEnd, Inside, DataToken;
    OperatorToken(s, 0);
    DataTokens(s, d, |s|);
    TokensJoin(s, [Piece(Operator, 0, 2)], if |s| > d then [Piece(Str, d, |s|)] else []);
  }

  lemma NextLexemes(raw: string, i: nat)
    requires i < |raw|
    ensures var r := LexOne(raw[i..]);
      && i + r.length <= |raw| && Inside(raw[i..], r.pieces)
      && Lexemes(raw[i..]) == Tokens(raw[i..], r.pieces) + Lexemes(raw[i + r.length..])
  {
    var r := LexOne(raw[i..]);
    LexOneInside(raw[i..]);
    assert raw[i..][r.length..] == raw[i + r.length..];
  }

  lemma OneToken(raw: string, i: nat, kind: Kind, j: nat)
    requires i < j <= |raw|
    ensures Inside(raw[i..], [Piece(kind, 0, j - i)])
    ensures Tokens(raw[i..], [Piece(kind, 0, j - i)]) == [Token(kind, raw[i..j])]
  {
    assert raw[i..][0..j - i] == raw[i..j];
  }

  /** What comes at position i, and where the next thing starts. */
  method TakeOne(raw: string, i: nat) returns (tokens: seq<Token>, next: nat)
    requires i < |raw|
    ensures Inside(raw[i..], LexOne(raw[i..]).pieces) && tokens == Tokens(raw[i..], LexOne(raw[i..]).pieces)
    ensures next == i + LexOne(raw[i..]).length
  {
    hide Tokens, LineEnd, WordEnd, HexEnd, StringEnd, NumberEnd, LexImage, Inside;
    var c := raw[i];
    From(raw, i, i);
    if IsSpace(c) {
      next := if c == '\r' && i + 1 < |raw| && raw[i + 1] == '\n' then i + 2 else i + 1;
      NoTokens(raw[i..]);
      NoneInside(raw[i..]);
      return [], next;
    }
    var kind, closed := Operator, true;
    if c == '%' {
      kind := Comment;
      next := SkipLine(raw, i);
    } else if c == '(' {
      kind := Str;
      next, closed := SkipString(raw, i);
    } else if (c == '<' || c == '>') && i + 1 < |raw| && raw[i + 1] == c {
      next := i + 2;
    } else if c == '<' {
      kind := Str;
      next, closed := SkipHex(raw, i);
    } else if c == '/' {
      kind := Name;
      next := SkipWord(raw, i);
    } else if c == '[' || c == ']' {
      next := i + 1;
    } else if NumberStartsAt(raw, i) {
      NumberMoves(raw[i..]);
      kind := Number;
      next := SkipNumber(raw, i);
    } else if IsBreak(c) {
      next := i + 1;
    } else {
      next := SkipWord(raw, i);
      From(raw, i, next);
      if raw[i..next] == "ID" {
        tokens, next := TakeImage(raw, i);
        return;
      }
    }
    OneToken(raw, i, kind, next);
    tokens := [Token(kind, raw[i..next])];
  }

  lemma NoneInside(s: string)
    ensures Inside(s, [])
  {
  }

  predicate NumberStartsAt(raw: string, i: nat)
    requires i < |raw|
  {
    IsNumberStart(raw, i)
  }

  /** Tokenizes a content stream. */
  method TokenizeContentStream(raw: string) returns (tokens: seq<Token>)
    ensures tokens == Lexemes(raw) && LexerForms.IsReading(raw, tokens)
  {
    hide LexOne, Tokens, Lexemes, LexerForms.IsReading;
    LexerForms.LexingIsReading(raw);
    tokens := [];
    var i := 0;
    assert raw[0..] == raw;
    while i < |raw|
      invariant 0 <= i <= |raw|
      invariant Lexemes(raw) == tokens + Lexemes(raw[i..])
    {
      NextLexemes(raw, i);
      var more, next := TakeOne(raw, i);
      tokens := tokens + more;
      i := next;
    }
    NoLexemes();
    assert raw[i..] == "";
  }

  lemma NoLexemes()
    ensures Lexemes("") == []
  {
  }
}
