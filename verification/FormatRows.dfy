/** Formatting as a function of the tokens still to come, and what it makes of written contents. */
module FormatRows {
  import opened ContentLexer
  import opened FormatGrammar

  predicate IsOpen(op: string) {
    op == "q" || op == "BT" || op == "BMC" || op == "BDC"
  }

  predicate IsClose(op: string) {
    op == "Q" || op == "ET" || op == "EMC"
  }

  predicate IsOp(t: Token, op: string) {
    t.kind == Operator && t.value == op
  }

  predicate OpensOperand(t: Token) {
    IsOp(t, "[") || IsOp(t, "<<")
  }

  predicate ClosesOperand(t: Token) {
    IsOp(t, "]") || IsOp(t, ">>")
  }

  function Less(n: nat): nat {
    if n == 0 then 0 else n - 1
  }

  /** Past the first EI operator from position j on, or the end of the tokens. */
  function PastImage(tokens: seq<Token>, j: nat): (end: nat)
    requires j <= |tokens|
    ensures j <= end <= |tokens|
    decreases |tokens| - j
  {
    if j == |tokens| then j else if IsOp(tokens[j], "EI") then j + 1 else PastImage(tokens, j + 1)
  }

  /** The lines still to come, with operands waiting at a block level and a depth of brackets. */
  function Rows(tokens: seq<Token>, pending: seq<Token>, indent: nat, delimDepth: nat): seq<Line>
    decreases |tokens|
  {
    if tokens == [] then if pending == [] then [] else [Line(pending, indent, "")]
    else
      var t, rest := tokens[0], tokens[1..];
      if t.kind == Comment then
        (if pending == [] then [] else [Line(pending, indent, "")]) + [Line([t], indent, "")]
        + Rows(rest, [], indent, delimDepth)
      else if t.kind != Operator then Rows(rest, pending + [t], indent, delimDepth)
      else if OpensOperand(t) then Rows(rest, pending + [t], indent, delimDepth + 1)
      else if ClosesOperand(t) then Rows(rest, pending + [t], indent, Less(delimDepth))
      else if delimDepth > 0 then Rows(rest, pending + [t], indent, delimDepth)
      else if t.value == "BI" then
        var end := PastImage(tokens, 1);
        [Line(pending + tokens[..end], indent, "BI")] + Rows(tokens[end..], [], indent, 0)
      else
        var at := if IsClose(t.value) then Less(indent) else indent;
        [Line(pending + [t], at, t.value)] + Rows(rest, [], if IsOpen(t.value) then at + 1 else at, 0)
  }

  // Written contents.

  lemma {:induction false} OperandsWait(o: Operands, tail: seq<Token>, pending: seq<Token>, indent: nat, d: nat)
    requires AreOperands(o, d > 0)
    ensures Rows(OperandTokens(o) + tail, pending, indent, d) == Rows(tail, pending + OperandTokens(o), indent, d)
    decreases o
  {
    hide Rows;
    match o
    case NoMore =>
      assert [] + tail == tail && pending + [] == pending;
    case Value(kind, text, rest) =>
      TokenWaits(Token(kind, text), OperandTokens(rest), tail, pending, indent, d);
      OperandsWait(rest, tail, pending + [Token(kind, text)], indent, d);
    case Word(text, rest) =>
      TokenWaits(Token(Operator, text), OperandTokens(rest), tail, pending, indent, d);
      OperandsWait(rest, tail, pending + [Token(Operator, text)], indent, d);
    case Bracketed(inner, rest) =>
      var a, b, more := Token(Operator, "["), Token(Operator, "]"), OperandTokens(rest) + tail;
      OperandsWait(inner, [b] + more, pending + [a], indent, d + 1);
      OperandsWait(rest, tail, pending + [a] + OperandTokens(inner) + [b], indent, d);
      BracketsWait("[", "]", OperandTokens(inner), OperandTokens(rest), tail, pending, indent, d);
    case Keyed(inner, rest) =>
      var a, b, more := Token(Operator, "<<"), Token(Operator, ">>"), OperandTokens(rest) + tail;
      OperandsWait(inner, [b] + more, pending + [a], indent, d + 1);
      OperandsWait(rest, tail, pending + [a] + OperandTokens(inner) + [b], indent, d);
      BracketsWait("<<", ">>", OperandTokens(inner), OperandTokens(rest), tail, pending, indent, d);
  }

  lemma TokenWaits(t: Token, more: seq<Token>, tail: seq<Token>, pending: seq<Token>, indent: nat, d: nat)
    requires t.kind != Comment && (t.kind == Operator ==> d > 0 && t.value !in {"[", "]", "<<", ">>"})
    ensures Rows([t] + more + tail, pending, indent, d) == Rows(more + tail, pending + [t], indent, d)
    ensures pending + ([t] + more) == pending + [t] + more
  {
    var ts := [t] + more + tail;
    assert ts[0] == t && ts[1..] == more + tail;
  }

  lemma BracketsWait(open: string, close: string, inner: seq<Token>, more: seq<Token>, tail: seq<Token>,
                     pending: seq<Token>, indent: nat, d: nat)
    requires (open, close) in {("[", "]"), ("<<", ">>")}
    requires var a, b := Token(Operator, open), Token(Operator, close);
      Rows(inner + ([b] + (more + tail)), pending + [a], indent, d + 1)
        == Rows([b] + (more + tail), pending + [a] + inner, indent, d + 1)
    ensures var a, b := Token(Operator, open), Token(Operator, close);
      && Rows([a] + inner + [b] + more + tail, pending, indent, d)
        == Rows(more + tail, pending + [a] + inner + [b], indent, d)
      && pending + ([a] + inner + [b] + more) == pending + [a] + inner + [b] + more
  {
    var a, b := Token(Operator, open), Token(Operator, close);
    var ts, us := [a] + inner + [b] + more + tail, [b] + (more + tail);
    assert ts[0] == a && ts[1..] == inner + us;
    assert us[0] == b && us[1..] == more + tail;
  }

  lemma CommentRow(text: string, tail: seq<Token>, indent: nat)
    ensures Rows([Token(Comment, text)] + tail, [], indent, 0)
      == [Line([Token(Comment, text)], indent, "")] + Rows(tail, [], indent, 0)
  {
    assert ([Token(Comment, text)] + tail)[1..] == tail;
  }

  lemma OperatorRow(op: string, tail: seq<Token>, pending: seq<Token>, indent: nat)
    requires op !in {"[", "]", "<<", ">>", "BI"}
    ensures var t := Token(Operator, op);
      var at := if op in {"Q", "ET", "EMC"} then Less(indent) else indent;
      var after := if op in {"q", "BT", "BMC", "BDC"} then at + 1 else at;
      Rows([t] + tail, pending, indent, 0) == [Line(pending + [t], at, op)] + Rows(tail, [], after, 0)
  {
    assert ([Token(Operator, op)] + tail)[1..] == tail;
  }

  lemma {:induction false} ImageIsPast(parts: seq<Token>, tail: seq<Token>, j: nat)
    requires Token(Operator, "EI") !in parts && 1 <= j <= |parts| + 1
    ensures var ts := [Token(Operator, "BI")] + parts + [Token(Operator, "EI")] + tail;
      PastImage(ts, j) == |parts| + 2
    decreases |parts| - j
  {
    var ts := [Token(Operator, "BI")] + parts + [Token(Operator, "EI")] + tail;
    if j <= |parts| {
      assert ts[j] == parts[j - 1] && parts[j - 1] in parts;
      ImageIsPast(parts, tail, j + 1);
    } else {
      assert ts[j] == Token(Operator, "EI");
    }
  }

  lemma ImageRow(parts: seq<Token>, tail: seq<Token>, pending: seq<Token>, indent: nat)
    requires Token(Operator, "EI") !in parts
    ensures var image := [Token(Operator, "BI")] + parts + [Token(Operator, "EI")];
      Rows(image + tail, pending, indent, 0) == [Line(pending + image, indent, "BI")] + Rows(tail, [], indent, 0)
  {
    var image := [Token(Operator, "BI")] + parts + [Token(Operator, "EI")];
    var ts := image + tail;
    ImageIsPast(parts, tail, 1);
    assert ts[0] == Token(Operator, "BI");
    assert ts[..|image|] == image && ts[|image|..] == tail;
  }

  /** Contents that stand whole in a stream give their own lines, whatever follows. */
  lemma {:induction false} ContentIsFormatted(c: Content, tail: seq<Token>, indent: nat)
    requires IsContent(c)
    ensures Rows(ContentTokens(c) + tail, [], indent, 0) == ContentLines(c, indent) + Rows(tail, [], indent, 0)
    decreases c
  {
    hide Rows, OperandTokens, AreOperands;
    match c
    case Nothing =>
      assert [] + tail == tail;
    case Remark(text, rest) =>
      ContentIsFormatted(rest, tail, indent);
      RemarkIsFormatted(text, ContentTokens(rest), ContentLines(rest, indent), tail, indent);
    case Operation(o, op, rest) =>
      ContentIsFormatted(rest, tail, indent);
      OperationIsFormatted(o, op, ContentTokens(rest), ContentLines(rest, indent), tail, indent);
    case Nest(o, b, inner, rest) =>
      ContentIsFormatted(rest, tail, indent);
      ContentIsFormatted(inner, [Token(Operator, Closer(b))] + (ContentTokens(rest) + tail), indent + 1);
      NestIsFormatted(o, b, ContentTokens(inner), ContentLines(inner, indent + 1), ContentTokens(rest),
                      ContentLines(rest, indent), tail, indent);
    case Image(o, parts, rest) =>
      ContentIsFormatted(rest, tail, indent);
      ImageIsFormatted(o, parts, ContentTokens(rest), ContentLines(rest, indent), tail, indent);
  }

  lemma ThreeTokens(a: seq<Token>, b: seq<Token>, c: seq<Token>)
    ensures a + b + c == a + (b + c)
  {
  }

  lemma ThreeLines(a: seq<Line>, b: seq<Line>, c: seq<Line>)
    ensures a + b + c == a + (b + c)
  {
  }

  lemma RemarkIsFormatted(text: string, rest: seq<Token>, lines: seq<Line>, tail: seq<Token>, indent: nat)
    requires Rows(rest + tail, [], indent, 0) == lines + Rows(tail, [], indent, 0)
    ensures Rows([Token(Comment, text)] + rest + tail, [], indent, 0)
      == [Line([Token(Comment, text)], indent, "")] + lines + Rows(tail, [], indent, 0)
  {
    hide Rows;
    ThreeTokens([Token(Comment, text)], rest, tail);
    CommentRow(text, rest + tail, indent);
    ThreeLines([Line([Token(Comment, text)], indent, "")], lines, Rows(tail, [], indent, 0));
  }

  lemma OperationIsFormatted(o: Operands, op: string, rest: seq<Token>, lines: seq<Line>, tail: seq<Token>, indent: nat)
    requires AreOperands(o, false) && op !in {"q", "BT", "BMC", "BDC", "Q", "ET", "EMC", "[", "]", "<<", ">>", "BI"}
    requires Rows(rest + tail, [], indent, 0) == lines + Rows(tail, [], indent, 0)
    ensures Rows(OperandTokens(o) + [Token(Operator, op)] + rest + tail, [], indent, 0)
      == [Line(OperandTokens(o) + [Token(Operator, op)], indent, op)] + lines + Rows(tail, [], indent, 0)
  {
    OperationRow(o, op, rest + tail, indent);
    hide *;
    var a, b := OperandTokens(o), [Token(Operator, op)];
    ThreeTokens(a + b, rest, tail);
    ThreeTokens(a, b, rest + tail);
    ThreeLines([Line(a + b, indent, op)], lines, Rows(tail, [], indent, 0));
  }

  lemma ImageIsFormatted(o: Operands, parts: seq<Token>, rest: seq<Token>, lines: seq<Line>, tail: seq<Token>,
                         indent: nat)
    requires AreOperands(o, false) && Token(Operator, "EI") !in parts
    requires Rows(rest + tail, [], indent, 0) == lines + Rows(tail, [], indent, 0)
    ensures var image := [Token(Operator, "BI")] + parts + [Token(Operator, "EI")];
      Rows(OperandTokens(o) + image + rest + tail, [], indent, 0)
        == [Line(OperandTokens(o) + image, indent, "BI")] + lines + Rows(tail, [], indent, 0)
  {
    hide *;
    var a, image := OperandTokens(o), [Token(Operator, "BI")] + parts + [Token(Operator, "EI")];
    ThreeTokens(a + image, rest, tail);
    ThreeTokens(a, image, rest + tail);
    OperandsWait(o, image + (rest + tail), [], indent, 0);
    NoneBefore(a);
    ImageRow(parts, rest + tail, a, indent);
    ThreeLines([Line(a + image, indent, "BI")], lines, Rows(tail, [], indent, 0));
  }

  lemma NoneBefore(a: seq<Token>)
    ensures [] + a == a
  {
  }

  lemma OperationRow(o: Operands, op: string, more: seq<Token>, indent: nat)
    requires AreOperands(o, false) && op !in {"[", "]", "<<", ">>", "BI"}
    ensures var t := Token(Operator, op);
      var at := if op in {"Q", "ET", "EMC"} then Less(indent) else indent;
      var after := if op in {"q", "BT", "BMC", "BDC"} then at + 1 else at;
      Rows(OperandTokens(o) + ([t] + more), [], indent, 0)
        == [Line(OperandTokens(o) + [t], at, op)] + Rows(more, [], after, 0)
  {
    hide *;
    OperandsWait(o, [Token(Operator, op)] + more, [], indent, 0);
    NoneBefore(OperandTokens(o));
    OperatorRow(op, more, OperandTokens(o), indent);
  }

  lemma NestIsFormatted(o: Operands, b: Block, inner: seq<Token>, innerLines: seq<Line>, rest: seq<Token>,
                        lines: seq<Line>, tail: seq<Token>, indent: nat)
    requires AreOperands(o, false)
    requires var more := [Token(Operator, Closer(b))] + (rest + tail);
      Rows(inner + more, [], indent + 1, 0) == innerLines + Rows(more, [], indent + 1, 0)
    requires Rows(rest + tail, [], indent, 0) == lines + Rows(tail, [], indent, 0)
    ensures var open, close := [Token(Operator, Opener(b))], [Token(Operator, Closer(b))];
      Rows(OperandTokens(o) + open + inner + close + rest + tail, [], indent, 0)
        == [Line(OperandTokens(o) + open, indent, Opener(b))] + innerLines + [Line(close, indent, Closer(b))] + lines
           + Rows(tail, [], indent, 0)
  {
    var open, close := [Token(Operator, Opener(b))], [Token(Operator, Closer(b))];
    var a, more, last := OperandTokens(o), close + (rest + tail), Rows(tail, [], indent, 0);
    BlockRows(o, b, inner + more, rest + tail, indent);
    hide *;
    NestTokens(a, open, inner, close, rest, tail);
    NestLines([Line(a + open, indent, Opener(b))], innerLines, [Line(close, indent, Closer(b))], lines, last);
  }

  lemma NestTokens(a: seq<Token>, b: seq<Token>, c: seq<Token>, d: seq<Token>, e: seq<Token>, f: seq<Token>)
    ensures a + b + c + d + e + f == a + (b + (c + (d + (e + f))))
  {
    ThreeTokens(a + b + c + d, e, f);
    ThreeTokens(a + b + c, d, e + f);
    ThreeTokens(a + b, c, d + (e + f));
    ThreeTokens(a, b, c + (d + (e + f)));
  }

  lemma NestLines(a: seq<Line>, b: seq<Line>, c: seq<Line>, d: seq<Line>, e: seq<Line>)
    ensures a + b + c + d + e == a + (b + (c + (d + e)))
  {
    ThreeLines(a + b + c, d, e);
    ThreeLines(a + b, c, d + e);
    ThreeLines(a, b, c + (d + e));
  }

  lemma BlockRows(o: Operands, b: Block, body: seq<Token>, more: seq<Token>, indent: nat)
    requires AreOperands(o, false)
    ensures var open, close := [Token(Operator, Opener(b))], [Token(Operator, Closer(b))];
      && Rows(OperandTokens(o) + (open + body), [], indent, 0)
        == [Line(OperandTokens(o) + open, indent, Opener(b))] + Rows(body, [], indent + 1, 0)
      && Rows(close + more, [], indent + 1, 0) == [Line(close, indent, Closer(b))] + Rows(more, [], indent, 0)
  {
    hide Rows, OperandTokens, AreOperands;
    OperationRow(o, Opener(b), body, indent);
    OperatorRow(Closer(b), more, [], indent + 1);
    NoneBefore([Token(Operator, Closer(b))]);
  }

  /** Contents and the operands left over after them. */
  lemma WrittenIsFormatted(c: Content, o: Operands)
    requires IsContent(c) && AreOperands(o, false)
    ensures Rows(ContentTokens(c) + OperandTokens(o), [], 0, 0) == ContentLines(c, 0) + Dangling(o, 0)
  {
    hide AreOperands;
    ContentIsFormatted(c, OperandTokens(o), 0);
    OperandsWait(o, [], [], 0, 0);
    assert OperandTokens(o) + [] == OperandTokens(o) && [] + OperandTokens(o) == OperandTokens(o);
    SomeTokens(o);
  }

  lemma SomeTokens(o: Operands)
    ensures OperandTokens(o) == [] <==> o == NoMore
  {
  }

  /** However the tokens are written as contents and operands after them, the lines are theirs. */
  ghost predicate AreLinesOf(tokens: seq<Token>, lines: seq<Line>) {
    forall c, o :: IsContent(c) && AreOperands(o, false) && ContentTokens(c) + OperandTokens(o) == tokens
      ==> lines == ContentLines(c, 0) + Dangling(o, 0)
  }

  lemma RowsAreLines(tokens: seq<Token>)
    ensures AreLinesOf(tokens, Rows(tokens, [], 0, 0))
  {
    forall c, o | IsContent(c) && AreOperands(o, false) && ContentTokens(c) + OperandTokens(o) == tokens
      ensures Rows(tokens, [], 0, 0) == ContentLines(c, 0) + Dangling(o, 0)
    {
      WrittenIsFormatted(c, o);
    }
  }

  // One turn of the loop.

  lemma {:induction false} PastImageFrom(tokens: seq<Token>, i: nat, j: nat)
    requires i <= j <= |tokens|
    ensures PastImage(tokens[i..], j - i) + i == PastImage(tokens, j)
    decreases |tokens| - j
  {
    if j < |tokens| {
      assert tokens[i..][j - i] == tokens[j];
      PastImageFrom(tokens, i, j + 1);
    }
  }

  /** What comes at position i. */
  lemma RowsFrom(tokens: seq<Token>, i: nat, pending: seq<Token>, indent: nat, d: nat)
    requires i < |tokens|
    ensures var t, rest, now := tokens[i], tokens[i + 1..], Rows(tokens[i..], pending, indent, d);
      if t.kind == Comment then
        now == (if pending == [] then [] else [Line(pending, indent, "")]) + [Line([t], indent, "")]
               + Rows(rest, [], indent, d)
      else if t.kind != Operator then now == Rows(rest, pending + [t], indent, d)
      else if OpensOperand(t) then now == Rows(rest, pending + [t], indent, d + 1)
      else if ClosesOperand(t) then now == Rows(rest, pending + [t], indent, Less(d))
      else if d > 0 then now == Rows(rest, pending + [t], indent, d)
      else if t.value == "BI" then
        var end := PastImage(tokens, i + 1);
        && i < end <= |tokens|
        && now == [Line(pending + tokens[i..end], indent, "BI")] + Rows(tokens[end..], [], indent, 0)
      else
        var at := if IsClose(t.value) then Less(indent) else indent;
        now == [Line(pending + [t], at, t.value)] + Rows(rest, [], if IsOpen(t.value) then at + 1 else at, 0)
  {
    hide IsOpen, IsClose, OpensOperand, ClosesOperand;
    var s := tokens[i..];
    PastImageFrom(tokens, i, i + 1);
    assert s[0] == tokens[i] && s[1..] == tokens[i + 1..];
    var end := PastImage(s, 1);
    assert s[..end] == tokens[i..i + end] && s[end..] == tokens[i + end..];
  }

  /** The lines made so far and those still to come are all. */
  ghost predicate Ahead(all: seq<Line>, lines: seq<Line>, tokens: seq<Token>, i: nat, pending: seq<Token>, indent: nat,
                        d: nat)
  {
    i <= |tokens| && all == lines + Rows(tokens[i..], pending, indent, d)
  }

  lemma AheadFrom(all: seq<Line>, lines: seq<Line>, tokens: seq<Token>, i: nat, pending: seq<Token>, indent: nat,
                  d: nat)
    requires i < |tokens| && Ahead(all, lines, tokens, i, pending, indent, d)
    ensures var t := tokens[i];
      if t.kind == Comment then
        Ahead(all, (if pending == [] then lines else lines + [Line(pending, indent, "")]) + [Line([t], indent, "")],
              tokens, i + 1, [], indent, d)
      else if t.kind != Operator then Ahead(all, lines, tokens, i + 1, pending + [t], indent, d)
      else if OpensOperand(t) then Ahead(all, lines, tokens, i + 1, pending + [t], indent, d + 1)
      else if ClosesOperand(t) then Ahead(all, lines, tokens, i + 1, pending + [t], indent, Less(d))
      else if d > 0 then Ahead(all, lines, tokens, i + 1, pending + [t], indent, d)
      else if t.value == "BI" then
        var end := PastImage(tokens, i + 1);
        && i < end <= |tokens|
        && Ahead(all, lines + [Line(pending + tokens[i..end], indent, "BI")], tokens, end, [], indent, 0)
      else
        var at := if IsClose(t.value) then Less(indent) else indent;
        Ahead(all, lines + [Line(pending + [t], at, t.value)], tokens, i + 1, [],
              if IsOpen(t.value) then at + 1 else at, 0)
  {
    hide Rows, PastImage, IsOpen, IsClose, OpensOperand, ClosesOperand;
    RowsFrom(tokens, i, pending, indent, d);
    JoinLines(lines);
  }

  lemma AllAhead(tokens: seq<Token>) returns (all: seq<Line>)
    ensures AreLinesOf(tokens, all) && Ahead(all, [], tokens, 0, [], 0, 0)
  {
    hide AreLinesOf;
    all := Rows(tokens, [], 0, 0);
    RowsAreLines(tokens);
    assert tokens[0..] == tokens;
    assert all == [] + all;
  }

  lemma NoneAhead(all: seq<Line>, lines: seq<Line>, tokens: seq<Token>, pending: seq<Token>, indent: nat, d: nat)
    requires Ahead(all, lines, tokens, |tokens|, pending, indent, d)
    ensures all == if pending == [] then lines else lines + [Line(pending, indent, "")]
  {
    assert lines + [] == lines;
  }

  lemma JoinLines(lines: seq<Line>)
    ensures forall a: seq<Line>, b: seq<Line> :: lines + (a + b) == lines + a + b
    ensures forall a: seq<Line>, b: seq<Line>, c: seq<Line> :: lines + (a + b + c) == lines + a + b + c
  {
  }
}
