/** Content streams as they may be written, word by word with white space between (section 7.2 of ISO 32000-1), and the
    tokens they lex to. */
module LexerGrammar {
  import opened ContentLexer

  datatype Space = Blank | Tab | Return | LineFeed | Null

  function SpaceChar(p: Space): char {
    match p
    case Blank => ' '
    case Tab => '\t'
    case Return => '\r'
    case LineFeed => '\n'
    case Null => '\0'
  }

  function Spaces(ps: seq<Space>): string {
    seq(|ps|, i requires 0 <= i < |ps| => SpaceChar(ps[i]))
  }

  /** A character that neither ends a word nor stands for itself. */
  predicate IsRegular(c: char) {
    c !in " \t\r\n\0()<>[]{}/%"
  }

  predicate AllRegular(s: string) {
    forall i :: 0 <= i < |s| ==> IsRegular(s[i])
  }

  predicate AllDigits(s: string) {
    forall i :: 0 <= i < |s| ==> s[i] in "0123456789"
  }

  /** What stands between the parentheses of a string: characters, escaped characters and nested parentheses. */
  datatype Body = Nothing | Plain(c: char, rest: Body) | Escaped(c: char, rest: Body) | Nested(inner: Body, rest: Body)

  predicate IsBody(b: Body) {
    match b
    case Nothing => true
    case Plain(c, rest) => c !in "()\\" && IsBody(rest)
    case Escaped(_, rest) => IsBody(rest)
    case Nested(inner, rest) => IsBody(inner) && IsBody(rest)
  }

  function BodyText(b: Body): string {
    match b
    case Nothing => ""
    case Plain(c, rest) => [c] + BodyText(rest)
    case Escaped(c, rest) => ['\\', c] + BodyText(rest)
    case Nested(inner, rest) => "(" + BodyText(inner) + ")" + BodyText(rest)
  }

  /** Parts of a string of which one more parenthesis opens before each but the first, and none closes; a backslash may
      stand at the end. */
  function OpenText(bodies: seq<Body>, slash: bool): string
    decreases |bodies|
  {
    if bodies == [] then if slash then "\\" else ""
    else if |bodies| == 1 then BodyText(bodies[0]) + OpenText([], slash)
    else BodyText(bodies[0]) + "(" + OpenText(bodies[1..], slash)
  }

  /** The white space that bounds the data of an inline image. */
  datatype Gap = NoGap | Single(p: Space) | LineEnding

  function GapText(g: Gap): string {
    match g
    case NoGap => ""
    case Single(p) => [SpaceChar(p)]
    case LineEnding => "\r\n"
  }

  predicate IsBound(c: char) {
    c in " \t\r\n"
  }

  datatype Word =
    | Remark(text: string)
    | Literal(body: Body)
    | Hexes(digits: string)
    | Label(text: string)
    | Numeral(sign: string, whole: string, point: bool, fraction: string)
    | Mark(text: string)
    | Verb(text: string)
    | Picture(first: Gap, data: string, last: Gap)

  /** The text starts as a number does. */
  predicate StartsNumber(s: string) {
    var t := if s != "" && s[0] in "+-" then s[1..] else s;
    t != "" && (t[0] in "0123456789" || (t[0] == '.' && |t| > 1 && t[1] in "0123456789"))
  }

  /** An EI with white space, or an end of the data, on both sides. */
  predicate StandsAlone(data: string, i: nat) {
    && i + 1 < |data| && data[i] == 'E' && data[i + 1] == 'I'
    && (i == 0 || IsBound(data[i - 1]))
    && (i + 2 == |data| || IsBound(data[i + 2]))
  }

  predicate HoldsNoEnd(data: string) {
    forall i :: 0 <= i < |data| ==> !StandsAlone(data, i)
  }

  predicate IsWord(w: Word) {
    match w
    case Remark(text) => forall i :: 0 <= i < |text| ==> text[i] !in "\r\n"
    case Literal(body) => IsBody(body)
    case Hexes(digits) => (forall i :: 0 <= i < |digits| ==> digits[i] != '>') && (digits != "" ==> digits[0] != '<')
    case Label(text) => AllRegular(text)
    case Numeral(sign, whole, point, fraction) =>
      && sign in {"", "+", "-"} && AllDigits(whole) && AllDigits(fraction)
      && (!point ==> fraction == "") && (whole != "" || fraction != "")
    case Mark(text) => text in {"<<", ">>", "[", "]", ")", "{", "}", ">"}
    case Verb(text) => text != "" && AllRegular(text) && !StartsNumber(text) && text != "ID"
    case Picture(first, data, last) =>
      && StartsData(first, data) && last != Single(Null) && HoldsNoEnd(data)
      && (last == NoGap ==> data == "") && (first == NoGap ==> data != "")
      && (last == Single(LineFeed) && data != "" ==> data[|data| - 1] != '\r')
  }

  /** The data can stand after ID and the gap: without a gap it does not go on with the word ID. */
  predicate StartsData(first: Gap, data: string) {
    && first != Single(Null)
    && (first == NoGap && data != "" ==> data[0] in "\0()<>[]{}/%")
    && (first == Single(Return) && data != "" ==> data[0] != '\n')
  }

  function WordText(w: Word): string {
    match w
    case Remark(text) => "%" + text
    case Literal(body) => "(" + BodyText(body) + ")"
    case Hexes(digits) => "<" + digits + ">"
    case Label(text) => "/" + text
    case Numeral(sign, whole, point, fraction) => sign + whole + (if point then "." else "") + fraction
    case Mark(text) => text
    case Verb(text) => text
    case Picture(first, data, last) => "ID" + GapText(first) + data + GapText(last) + "EI"
  }

  function WordTokens(w: Word): seq<Token> {
    match w
    case Remark(_) => [Token(Comment, WordText(w))]
    case Literal(_) => [Token(Str, WordText(w))]
    case Hexes(_) => [Token(Str, WordText(w))]
    case Label(_) => [Token(Name, WordText(w))]
    case Numeral(_, _, _, _) => [Token(Number, WordText(w))]
    case Mark(text) => [Token(Operator, text)]
    case Verb(text) => [Token(Operator, text)]
    case Picture(_, data, _) =>
      [Token(Operator, "ID")] + (if data == "" then [] else [Token(Str, data)]) + [Token(Operator, "EI")]
  }

  /** What may come right after a word: a line end ends a comment, a character that is not regular ends a name or an
      operator, what cannot go on a number ends it, and white space bounds an image; strings and brackets end
      themselves. */
  predicate Follows(w: Word, tail: string) {
    tail == "" ||
    match w
    case Remark(_) => tail[0] in "\r\n"
    case Literal(_) => true
    case Hexes(_) => true
    case Label(_) => !IsRegular(tail[0])
    case Numeral(_, _, point, _) => tail[0] !in "0123456789" && (point || tail[0] != '.')
    case Mark(text) => text == ">" ==> tail[0] != '>'
    case Verb(_) => !IsRegular(tail[0])
    case Picture(_, _, _) => IsBound(tail[0])
  }

  /** What a text may end inside of. */
  datatype Ending =
    | Outside
    | InLiteral(bodies: seq<Body>, slash: bool)
    | InHexes(digits: string)
    | InPicture(first: Gap, data: string)

  predicate IsEnding(e: Ending) {
    match e
    case Outside => true
    case InLiteral(bodies, _) => forall i :: 0 <= i < |bodies| ==> IsBody(bodies[i])
    case InHexes(digits) => (forall i :: 0 <= i < |digits| ==> digits[i] != '>') && (digits != "" ==> digits[0] != '<')
    case InPicture(first, data) => StartsData(first, data) && HoldsNoEnd(data)
  }

  function EndingText(e: Ending): string {
    match e
    case Outside => ""
    case InLiteral(bodies, slash) => "(" + OpenText(bodies, slash)
    case InHexes(digits) => "<" + digits
    case InPicture(first, data) => "ID" + GapText(first) + data
  }

  function EndingTokens(e: Ending): seq<Token> {
    match e
    case Outside => []
    case InLiteral(_, _) => [Token(Str, EndingText(e))]
    case InHexes(_) => [Token(Str, EndingText(e))]
    case InPicture(_, data) => [Token(Operator, "ID")] + (if data == "" then [] else [Token(Str, data)])
  }

  /** A word with the white space before it. */
  datatype Spaced = Spaced(before: seq<Space>, word: Word)

  function Text(items: seq<Spaced>, last: seq<Space>, ending: Ending): string {
    if items == [] then Spaces(last) + EndingText(ending)
    else Spaces(items[0].before) + (WordText(items[0].word) + Text(items[1..], last, ending))
  }

  function TextTokens(items: seq<Spaced>, ending: Ending): seq<Token> {
    if items == [] then EndingTokens(ending) else WordTokens(items[0].word) + TextTokens(items[1..], ending)
  }

  /** Each word can be followed by what comes after it. */
  predicate Written(items: seq<Spaced>, last: seq<Space>, ending: Ending) {
    if items == [] then IsEnding(ending)
    else
      && IsWord(items[0].word) && Follows(items[0].word, Text(items[1..], last, ending))
      && Written(items[1..], last, ending)
  }
}
