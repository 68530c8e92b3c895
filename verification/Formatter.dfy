/** Grouping a content stream's tokens into one line per operation, indented by the blocks they stand in. */
module Formatter {
  import opened ContentLexer
  import opened FormatGrammar
  import opened FormatRows

  /** All tokens of the lines, in order. */
  function Flat(lines: seq<Line>): seq<Token> {
    if lines == [] then [] else Flat(lines[..|lines| - 1]) + lines[|lines| - 1].tokens
  }

  // Indent.

  /** The block level after the lines: up at each opening operator, down at each closing one but never below zero. */
  function Level(lines: seq<Line>): nat {
    if lines == [] then 0
    else
      var before := Level(lines[..|lines| - 1]);
      var op := lines[|lines| - 1].operator;
      if IsClose(op) then Less(before) else if IsOpen(op) then before + 1 else before
  }

  function Net(op: string): int {
    if IsClose(op) then -1 else if IsOpen(op) then 1 else 0
  }

  /** Openings minus closings over some lines. */
  function Balance(lines: seq<Line>): int {
    if lines == [] then 0 else Balance(lines[..|lines| - 1]) + Net(lines[|lines| - 1].operator)
  }

  lemma BalanceStep(lines: seq<Line>, j: nat)
    requires j < |lines|
    ensures Balance(lines[j..]) == Balance(lines[..|lines| - 1][j..]) + Net(lines[|lines| - 1].operator)
  {
    var n := |lines|;
    assert lines[j..][..n - j - 1] == lines[..n - 1][j..] && lines[j..][n - j - 1] == lines[n - 1];
  }

  lemma LevelStep(lines: seq<Line>)
    requires lines != []
    ensures var l := Level(lines[..|lines| - 1]) + Net(lines[|lines| - 1].operator);
      Level(lines) == if l < 0 then 0 else l
  {
  }

  /** The level is the greatest balance of any run of lines up to the end: closings that find nothing open are not
      held against what opens later. */
  lemma {:induction false} LevelIsGreatestBalance(lines: seq<Line>)
    ensures exists j :: 0 <= j <= |lines| && Balance(lines[j..]) == Level(lines)
    ensures forall j :: 0 <= j <= |lines| ==> Balance(lines[j..]) <= Level(lines)
  {
    hide Net;
    var n := |lines|;
    assert Balance(lines[n..]) == 0;
    if n > 0 {
      hide Level, Balance;
      var before := lines[..n - 1];
      LevelIsGreatestBalance(before);
      LevelStep(lines);
      var j :| 0 <= j <= n - 1 && Balance(before[j..]) == Level(before);
      BalanceStep(lines, j);
      forall i | 0 <= i <= n
        ensures Balance(lines[i..]) <= Level(lines)
      {
        if i < n {
          BalanceStep(lines, i);
        }
      }
      assert Balance(lines[j..]) == Level(lines) || Balance(lines[n..]) == Level(lines);
    }
  }

  /** Where nothing closes more than was opened, the level is the plain balance. */
  lemma {:induction false} BalancedLevel(lines: seq<Line>)
    requires forall k :: 0 <= k <= |lines| ==> Balance(lines[..k]) >= 0
    ensures Level(lines) == Balance(lines)
  {
    if lines != [] {
      var n := |lines| - 1;
      forall k | 0 <= k <= n
        ensures lines[..n][..k] == lines[..k]
      {
      }
      BalancedLevel(lines[..n]);
      assert lines[..n + 1] == lines;
    }
  }

  /** A line stands at the level before it, or one less when it closes a block. */
  ghost predicate Indented(lines: seq<Line>) {
    forall k :: 0 <= k < |lines| ==>
      lines[k].indent == if IsClose(lines[k].operator) then Less(Level(lines[..k])) else Level(lines[..k])
  }

  // The shape of lines.

  /** How deep in arrays and dictionaries the tokens end, from depth d; stray closings count for nothing. */
  function Depth(d: nat, ts: seq<Token>): nat {
    if ts == [] then d
    else
      var before := Depth(d, ts[..|ts| - 1]);
      var t := ts[|ts| - 1];
      if OpensOperand(t) then before + 1 else if ClosesOperand(t) then Less(before) else before
  }

  /** Tokens that end no line: no comment, and operators only as array and dictionary delimiters or inside them. */
  predicate Operands(d: nat, ts: seq<Token>) {
    forall i :: 0 <= i < |ts| ==>
      && ts[i].kind != Comment
      && (ts[i].kind == Operator ==> OpensOperand(ts[i]) || ClosesOperand(ts[i]) || Depth(d, ts[..i]) > 0)
  }

  predicate IsComment(line: Line) {
    line.operator == "" && |line.tokens| == 1 && line.tokens[0].kind == Comment
  }

  /** Operands and then the operator that the line is named for, outside any array or dictionary. */
  predicate IsOperation(d: nat, line: Line) {
    var n := |line.tokens| - 1;
    && n >= 0 && line.operator != "BI"
    && IsOp(line.tokens[n], line.operator) && !OpensOperand(line.tokens[n]) && !ClosesOperand(line.tokens[n])
    && Operands(d, line.tokens[..n]) && Depth(d, line.tokens[..n]) == 0
  }

  /** Operands, BI at position m, and everything to the first EI after it, or to the end of the tokens. */
  predicate IsImageAt(d: nat, line: Line, m: nat, last: bool) {
    && m < |line.tokens| && line.operator == "BI" && IsOp(line.tokens[m], "BI")
    && Operands(d, line.tokens[..m]) && Depth(d, line.tokens[..m]) == 0
    && (forall i :: m < i < |line.tokens| - 1 ==> !IsOp(line.tokens[i], "EI"))
    && (last || (m < |line.tokens| - 1 && IsOp(line.tokens[|line.tokens| - 1], "EI")))
  }

  ghost predicate IsImage(d: nat, line: Line, last: bool) {
    exists m: nat :: IsImageAt(d, line, m, last)
  }

  /** Operands that meet no operator, before a comment or at the end. */
  predicate IsDangling(d: nat, line: Line) {
    line.operator == "" && line.tokens != [] && Operands(d, line.tokens)
  }

  /** The depth after a line. */
  function DepthAfter(d: nat, line: Line): nat {
    if line.operator == "" then Depth(d, line.tokens) else 0
  }

  function DepthAfterAll(lines: seq<Line>): nat {
    if lines == [] then 0 else DepthAfter(DepthAfterAll(lines[..|lines| - 1]), lines[|lines| - 1])
  }

  ghost predicate Shaped(lines: seq<Line>, k: nat)
    requires k < |lines|
  {
    var d := DepthAfterAll(lines[..k]);
    || IsComment(lines[k])
    || IsOperation(d, lines[k])
    || IsImage(d, lines[k], k == |lines| - 1)
    || (IsDangling(d, lines[k]) && (k == |lines| - 1 || IsComment(lines[k + 1])))
  }

  ghost predicate AllShaped(lines: seq<Line>) {
    forall k :: 0 <= k < |lines| ==> Shaped(lines, k)
  }

  // One more line.

  lemma AddLine(lines: seq<Line>, line: Line)
    requires Indented(lines)
    requires line.indent == if IsClose(line.operator) then Less(Level(lines)) else Level(lines)
    ensures Indented(lines + [line]) && Flat(lines + [line]) == Flat(lines) + line.tokens
    ensures DepthAfterAll(lines + [line]) == DepthAfter(DepthAfterAll(lines), line)
    ensures Level(lines + [line]) ==
      if IsClose(line.operator) then Less(Level(lines))
      else if IsOpen(line.operator) then Level(lines) + 1
      else Level(lines)
  {
    var next := lines + [line];
    assert next[..|lines|] == lines;
    forall k | 0 <= k < |lines|
      ensures next[..k] == lines[..k]
    {
    }
  }

  /** Lines that are well shaped whatever follows, except that the last may still need a comment after it. */
  ghost predicate ShapedSoFar(lines: seq<Line>) {
    forall k :: 0 <= k < |lines| ==> SettledAt(lines, k)
  }

  ghost predicate SettledAt(lines: seq<Line>, k: nat)
    requires k < |lines|
  {
    var d := DepthAfterAll(lines[..k]);
    || IsComment(lines[k])
    || IsOperation(d, lines[k])
    || IsImage(d, lines[k], false)
    || (IsDangling(d, lines[k]) && k < |lines| - 1 && IsComment(lines[k + 1]))
  }

  lemma SettledStays(lines: seq<Line>, more: seq<Line>, k: nat)
    requires k < |lines| && SettledAt(lines, k)
    ensures SettledAt(lines + more, k)
  {
    assert (lines + more)[..k] == lines[..k];
  }

  lemma ShapedPush(lines: seq<Line>, line: Line)
    requires ShapedSoFar(lines)
    requires var d := DepthAfterAll(lines); IsComment(line) || IsOperation(d, line) || IsImage(d, line, false)
    ensures ShapedSoFar(lines + [line])
  {
    hide IsOperation, IsImage, IsDangling, IsComment;
    var next := lines + [line];
    assert next[..|lines|] == lines;
    forall k | 0 <= k < |next|
      ensures SettledAt(next, k)
    {
      if k < |lines| {
        SettledStays(lines, [line], k);
      }
    }
  }

  /** Operands before a comment, and the comment. */
  lemma ShapedDangling(lines: seq<Line>, line: Line, comment: Line)
    requires ShapedSoFar(lines) && IsDangling(DepthAfterAll(lines), line) && IsComment(comment)
    ensures ShapedSoFar(lines + [line] + [comment])
  {
    hide IsOperation, IsImage, IsDangling, IsComment;
    var next := lines + [line] + [comment];
    assert next == lines + [line, comment];
    assert next[..|lines|] == lines;
    forall k | 0 <= k < |next|
      ensures SettledAt(next, k)
    {
      if k < |lines| {
        SettledStays(lines, [line, comment], k);
      }
    }
  }

  lemma SettledIsShaped(lines: seq<Line>, k: nat)
    requires k < |lines| && SettledAt(lines, k)
    ensures Shaped(lines, k)
  {
    var d := DepthAfterAll(lines[..k]);
    if m: nat :| IsImageAt(d, lines[k], m, false) {
      assert IsImageAt(d, lines[k], m, true);
    }
  }

  /** The last line may dangle, or be an image without an end. */
  lemma ShapedEnd(lines: seq<Line>, line: Line)
    requires ShapedSoFar(lines)
    requires IsDangling(DepthAfterAll(lines), line) || IsImage(DepthAfterAll(lines), line, true)
    ensures AllShaped(lines + [line])
  {
    hide IsOperation, IsImage, IsDangling, IsComment;
    var next := lines + [line];
    assert next[..|lines|] == lines;
    forall k | 0 <= k < |next|
      ensures Shaped(next, k)
    {
      if k < |lines| {
        SettledStays(lines, [line], k);
        SettledIsShaped(next, k);
      }
    }
  }

  lemma ShapedSoFarIsShaped(lines: seq<Line>)
    requires ShapedSoFar(lines)
    ensures AllShaped(lines)
  {
    hide SettledAt, Shaped;
    forall k | 0 <= k < |lines|
      ensures Shaped(lines, k)
    {
      SettledIsShaped(lines, k);
    }
  }

  lemma MoreOperands(d: nat, pending: seq<Token>, t: Token)
    requires Operands(d, pending) && t.kind != Comment
    requires t.kind == Operator ==> OpensOperand(t) || ClosesOperand(t) || Depth(d, pending) > 0
    ensures Operands(d, pending + [t])
    ensures Depth(d, pending + [t]) ==
      if OpensOperand(t) then Depth(d, pending) + 1
      else if ClosesOperand(t) then Less(Depth(d, pending))
      else Depth(d, pending)
  {
    var next := pending + [t];
    assert next[..|pending|] == pending;
    forall i | 0 <= i < |pending|
      ensures next[..i] == pending[..i]
    {
    }
  }

  /** The state of the grouping after some tokens: lines that are finished, and operands still waiting. */
  ghost predicate Grouped(lines: seq<Line>, pending: seq<Token>, indent: nat, delimDepth: nat, read: seq<Token>) {
    && Flat(lines) + pending == read
    && Indented(lines) && indent == Level(lines)
    && ShapedSoFar(lines)
    && Operands(DepthAfterAll(lines), pending) && delimDepth == Depth(DepthAfterAll(lines), pending)
  }

  lemma GroupOperand(lines: seq<Line>, pending: seq<Token>, indent: nat, delimDepth: nat, read: seq<Token>, t: Token)
    requires Grouped(lines, pending, indent, delimDepth, read) && t.kind != Comment
    requires t.kind == Operator ==> OpensOperand(t) || ClosesOperand(t) || delimDepth > 0
    ensures Grouped(lines, pending + [t], indent,
      if OpensOperand(t) then delimDepth + 1 else if ClosesOperand(t) then Less(delimDepth) else delimDepth, read + [t])
  {
    hide Operands, Depth, Flat, Indented, Level, ShapedSoFar, DepthAfterAll;
    MoreOperands(DepthAfterAll(lines), pending, t);
  }

  lemma GroupDangling(lines: seq<Line>, pending: seq<Token>, indent: nat, delimDepth: nat, read: seq<Token>, t: Token)
    requires Grouped(lines, pending, indent, delimDepth, read) && pending != [] && t.kind == Comment
    ensures Grouped(lines + [Line(pending, indent, "")] + [Line([t], indent, "")], [], indent, delimDepth, read + [t])
  {
    hide Operands, Depth, Flat, Indented, Level, ShapedSoFar, DepthAfterAll, DepthAfter, IsDangling;
    var d := DepthAfterAll(lines);
    var tail, comment := Line(pending, indent, ""), Line([t], indent, "");
    DanglingLine(d, tail);
    ShapedDangling(lines, tail, comment);
    AddLine(lines, tail);
    AddLine(lines + [tail], comment);
    CommentDepth(delimDepth, comment);
    NoOperands(delimDepth);
    assert Flat(lines + [tail] + [comment]) + [] == Flat(lines) + pending + [t];
  }

  lemma GroupComment(lines: seq<Line>, indent: nat, delimDepth: nat, read: seq<Token>, t: Token)
    requires Grouped(lines, [], indent, delimDepth, read) && t.kind == Comment
    ensures Grouped(lines + [Line([t], indent, "")], [], indent, delimDepth, read + [t])
  {
    hide Operands, Depth, Flat, Indented, Level, ShapedSoFar, DepthAfterAll, DepthAfter;
    var d := DepthAfterAll(lines);
    var comment := Line([t], indent, "");
    NoOperands(d);
    ShapedPush(lines, comment);
    AddLine(lines, comment);
    CommentDepth(d, comment);
    assert Flat(lines) + [] == Flat(lines) && Flat(lines + [comment]) + [] == Flat(lines + [comment]);
  }

  lemma GroupOperation(lines: seq<Line>, pending: seq<Token>, indent: nat, read: seq<Token>, t: Token, at: nat)
    requires Grouped(lines, pending, indent, 0, read)
    requires t.kind == Operator && !OpensOperand(t) && !ClosesOperand(t) && t.value != "BI"
    requires at == if IsClose(t.value) then Less(indent) else indent
    ensures Grouped(lines + [Line(pending + [t], at, t.value)], [], if IsOpen(t.value) then at + 1 else at, 0,
                    read + [t])
  {
    hide Operands, Depth, Flat, Indented, Level, ShapedSoFar, DepthAfterAll, DepthAfter, IsOperation;
    var d := DepthAfterAll(lines);
    var line := Line(pending + [t], at, t.value);
    OperationLine(d, pending, t, line);
    ShapedPush(lines, line);
    AddLine(lines, line);
    NoOperands(0);
    assert Flat(lines + [line]) + [] == Flat(lines + [line]);
  }

  /** An inline image, up to position end of the tokens. */
  lemma GroupImage(lines: seq<Line>, pending: seq<Token>, indent: nat, tokens: seq<Token>, i: nat, end: nat)
    requires i < end <= |tokens| && Grouped(lines, pending, indent, 0, tokens[..i]) && IsOp(tokens[i], "BI")
    requires forall j :: i < j < end - 1 ==> !IsOp(tokens[j], "EI")
    requires end == |tokens| || (i < end - 1 && IsOp(tokens[end - 1], "EI"))
    ensures var next := lines + [Line(pending + tokens[i..end], indent, "BI")];
      && Flat(next) == tokens[..end] && Indented(next) && AllShaped(next)
      && (end < |tokens| ==> Grouped(next, [], indent, 0, tokens[..end]))
  {
    hide Operands, Depth, Flat, Indented, Level, ShapedSoFar, DepthAfterAll, DepthAfter, IsImage, AllShaped;
    var d := DepthAfterAll(lines);
    var line := Line(pending + tokens[i..end], indent, "BI");
    ImageLine(d, tokens, i, end, pending, line);
    AddLine(lines, line);
    assert tokens[..i] + tokens[i..end] == tokens[..end];
    NoOperands(0);
    assert Flat(lines + [line]) + [] == Flat(lines + [line]);
    if end < |tokens| {
      ShapedPush(lines, line);
      ShapedSoFarIsShaped(lines + [line]);
    } else {
      ShapedEnd(lines, line);
    }
  }

  /** What is left at the end. */
  lemma GroupEnd(lines: seq<Line>, pending: seq<Token>, indent: nat, delimDepth: nat, read: seq<Token>)
    requires Grouped(lines, pending, indent, delimDepth, read)
    ensures var all := if pending == [] then lines else lines + [Line(pending, indent, "")];
      Flat(all) == read && Indented(all) && AllShaped(all)
  {
    hide Operands, Depth, Flat, Indented, Level, ShapedSoFar, DepthAfterAll, DepthAfter, IsDangling, AllShaped;
    if pending != [] {
      var tail := Line(pending, indent, "");
      DanglingLine(DepthAfterAll(lines), tail);
      ShapedEnd(lines, tail);
      AddLine(lines, tail);
    } else {
      ShapedSoFarIsShaped(lines);
      assert Flat(lines) + [] == Flat(lines);
    }
  }

  /** The grouping stands at position i: what is finished is well shaped, and all is what is finished and what is
      still to come. */
  ghost predicate Going(all: seq<Line>, tokens: seq<Token>, i: nat, lines: seq<Line>, pending: seq<Token>, indent: nat,
                        delimDepth: nat)
  {
    && i <= |tokens|
    && (i < |tokens| || pending != [] ==> Grouped(lines, pending, indent, delimDepth, tokens[..i]))
    && (i == |tokens| && pending == [] ==> Flat(lines) == tokens && Indented(lines) && AllShaped(lines))
    && Ahead(all, lines, tokens, i, pending, indent, delimDepth)
  }

  lemma GoOn(all: seq<Line>, tokens: seq<Token>, i: nat, lines: seq<Line>, pending: seq<Token>, indent: nat,
             delimDepth: nat)
    requires i <= |tokens| && Grouped(lines, pending, indent, delimDepth, tokens[..i])
    requires Ahead(all, lines, tokens, i, pending, indent, delimDepth)
    ensures Going(all, tokens, i, lines, pending, indent, delimDepth)
  {
    hide Grouped, Ahead, Flat, Indented, AllShaped;
    GroupEnd(lines, pending, indent, delimDepth, tokens[..i]);
    assert i == |tokens| ==> tokens[..i] == tokens;
  }

  lemma GoComment(all: seq<Line>, tokens: seq<Token>, i: nat, lines: seq<Line>, pending: seq<Token>, indent: nat,
                  delimDepth: nat)
    requires Going(all, tokens, i, lines, pending, indent, delimDepth) && i < |tokens| && tokens[i].kind == Comment
    ensures var next := if pending == [] then lines else lines + [Line(pending, indent, "")];
      Going(all, tokens, i + 1, next + [Line([tokens[i]], indent, "")], [], indent, delimDepth)
  {
    hide Grouped, Ahead, Flat, Indented, AllShaped;
    AheadFrom(all, lines, tokens, i, pending, indent, delimDepth);
    assert tokens[..i] + [tokens[i]] == tokens[..i + 1];
    if pending != [] {
      GroupDangling(lines, pending, indent, delimDepth, tokens[..i], tokens[i]);
    } else {
      GroupComment(lines, indent, delimDepth, tokens[..i], tokens[i]);
    }
    var next := if pending == [] then lines else lines + [Line(pending, indent, "")];
    GoOn(all, tokens, i + 1, next + [Line([tokens[i]], indent, "")], [], indent, delimDepth);
  }

  lemma GoOperand(all: seq<Line>, tokens: seq<Token>, i: nat, lines: seq<Line>, pending: seq<Token>, indent: nat,
                  delimDepth: nat)
    requires Going(all, tokens, i, lines, pending, indent, delimDepth) && i < |tokens| && tokens[i].kind != Comment
    requires tokens[i].kind == Operator ==> OpensOperand(tokens[i]) || ClosesOperand(tokens[i]) || delimDepth > 0
    ensures Going(all, tokens, i + 1, lines, pending + [tokens[i]], indent,
      if OpensOperand(tokens[i]) then delimDepth + 1 else if ClosesOperand(tokens[i]) then Less(delimDepth)
      else delimDepth)
  {
    KindOfOperand(tokens[i]);
    hide Grouped, Ahead, Flat, Indented, AllShaped, OpensOperand, ClosesOperand;
    AheadFrom(all, lines, tokens, i, pending, indent, delimDepth);
    assert tokens[..i] + [tokens[i]] == tokens[..i + 1];
    GroupOperand(lines, pending, indent, delimDepth, tokens[..i], tokens[i]);
    GoOn(all, tokens, i + 1, lines, pending + [tokens[i]], indent,
         if OpensOperand(tokens[i]) then delimDepth + 1 else if ClosesOperand(tokens[i]) then Less(delimDepth)
         else delimDepth);
  }

  lemma KindOfOperand(t: Token)
    ensures OpensOperand(t) || ClosesOperand(t) ==> t.kind == Operator
  {
  }

  lemma GoImage(all: seq<Line>, tokens: seq<Token>, i: nat, end: nat, lines: seq<Line>, pending: seq<Token>,
                indent: nat)
    requires Going(all, tokens, i, lines, pending, indent, 0) && i < end <= |tokens| && IsOp(tokens[i], "BI")
    requires end == PastImage(tokens, i + 1) && forall j :: i < j < end - 1 ==> !IsOp(tokens[j], "EI")
    requires end == |tokens| || (i < end - 1 && IsOp(tokens[end - 1], "EI"))
    ensures Going(all, tokens, end, lines + [Line(pending + tokens[i..end], indent, "BI")], [], indent, 0)
  {
    hide Grouped, Ahead, Flat, Indented, AllShaped, PastImage;
    AheadFrom(all, lines, tokens, i, pending, indent, 0);
    GroupImage(lines, pending, indent, tokens, i, end);
    assert end == |tokens| ==> tokens[..end] == tokens;
  }

  lemma GoOperation(all: seq<Line>, tokens: seq<Token>, i: nat, lines: seq<Line>, pending: seq<Token>, indent: nat,
                    at: nat)
    requires Going(all, tokens, i, lines, pending, indent, 0) && i < |tokens| && tokens[i].kind == Operator
    requires !OpensOperand(tokens[i]) && !ClosesOperand(tokens[i]) && tokens[i].value != "BI"
    requires at == if IsClose(tokens[i].value) then Less(indent) else indent
    ensures Going(all, tokens, i + 1, lines + [Line(pending + [tokens[i]], at, tokens[i].value)], [],
      if IsOpen(tokens[i].value) then at + 1 else at, 0)
  {
    hide Grouped, Ahead, Flat, Indented, AllShaped, OpensOperand, ClosesOperand, IsOpen, IsClose;
    var t := tokens[i];
    AheadFrom(all, lines, tokens, i, pending, indent, 0);
    assert tokens[..i] + [t] == tokens[..i + 1];
    GroupOperation(lines, pending, indent, tokens[..i], t, at);
    GoOn(all, tokens, i + 1, lines + [Line(pending + [t], at, t.value)], [], if IsOpen(t.value) then at + 1 else at, 0);
  }

  lemma GoEnd(all: seq<Line>, tokens: seq<Token>, lines: seq<Line>, pending: seq<Token>, indent: nat, delimDepth: nat)
    requires Going(all, tokens, |tokens|, lines, pending, indent, delimDepth)
    ensures var last := if pending == [] then lines else lines + [Line(pending, indent, "")];
      last == all && Flat(last) == tokens && Indented(last) && AllShaped(last)
  {
    hide Grouped, Ahead, Flat, Indented, AllShaped;
    assert tokens[..|tokens|] == tokens;
    NoneAhead(all, lines, tokens, pending, indent, delimDepth);
    if pending != [] {
      GroupEnd(lines, pending, indent, delimDepth, tokens);
    }
  }

  lemma GoStart(tokens: seq<Token>) returns (all: seq<Line>)
    ensures Going(all, tokens, 0, [], [], 0, 0) && AreLinesOf(tokens, all)
  {
    hide Grouped, Ahead, Flat, Indented, AllShaped, AreLinesOf;
    all := AllAhead(tokens);
    NothingYet();
    assert tokens[..0] == [];
  }

  /** Groups tokens into lines.  Together the lines are exactly the tokens; each line is a comment, an operation, an
      inline image or operands without an operator; each is indented by its block level; and however the tokens are
      written as nested blocks, the lines are theirs. */
  method Format(tokens: seq<Token>) returns (lines: seq<Line>)
    ensures Flat(lines) == tokens
    ensures Indented(lines)
    ensures AllShaped(lines)
    ensures AreLinesOf(tokens, lines)
  {
    hide Going, Indented, AllShaped, Flat, PastImage, AreLinesOf;
    ghost var all := GoStart(tokens);
    lines := [];
    var indent, delimDepth := 0, 0;
    var pending: seq<Token> := [];
    var i := 0;
    while i < |tokens|
      invariant 0 <= i <= |tokens| && Going(all, tokens, i, lines, pending, indent, delimDepth)
    {
      var t := tokens[i];
      if t.kind == Comment {
        GoComment(all, tokens, i, lines, pending, indent, delimDepth);
        if pending != [] {
          lines := lines + [Line(pending, indent, "")];
          pending := [];
        }
        lines := lines + [Line([t], indent, "")];
        i := i + 1;
        continue;
      }
      if t.kind != Operator {
        GoOperand(all, tokens, i, lines, pending, indent, delimDepth);
        pending := pending + [t];
        i := i + 1;
        continue;
      }
      if t.value == "[" || t.value == "<<" {
        GoOperand(all, tokens, i, lines, pending, indent, delimDepth);
        delimDepth := delimDepth + 1;
        pending := pending + [t];
        i := i + 1;
        continue;
      }
      if t.value == "]" || t.value == ">>" {
        GoOperand(all, tokens, i, lines, pending, indent, delimDepth);
        if delimDepth > 0 {
          delimDepth := delimDepth - 1;
        }
        pending := pending + [t];
        i := i + 1;
        continue;
      }
      if delimDepth > 0 {
        GoOperand(all, tokens, i, lines, pending, indent, delimDepth);
        pending := pending + [t];
        i := i + 1;
        continue;
      }
      if t.value == "BI" {
        var end := ImageBlockEnd(tokens, i);
        GoImage(all, tokens, i, end, lines, pending, indent);
        lines := lines + [Line(pending + tokens[i..end], indent, "BI")];
        pending := [];
        i := end;
        continue;
      }
      GoOperation(all, tokens, i, lines, pending, indent, if IsClose(t.value) then Less(indent) else indent);
      if IsClose(t.value) {
        if indent > 0 {
          indent := indent - 1;
        }
      }
      lines := lines + [Line(pending + [t], indent, t.value)];
      pending := [];
      if IsOpen(t.value) {
        indent := indent + 1;
      }
      i := i + 1;
    }
    GoEnd(all, tokens, lines, pending, indent, delimDepth);
    if pending != [] {
      lines := lines + [Line(pending, indent, "")];
    }
  }

  lemma NothingYet()
    ensures Grouped([], [], 0, 0, []) && Flat([]) == [] && Indented([]) && AllShaped([])
  {
  }

  lemma DanglingLine(d: nat, line: Line)
    requires line.operator == "" && line.tokens != [] && Operands(d, line.tokens)
    ensures IsDangling(d, line) && DepthAfter(d, line) == Depth(d, line.tokens)
  {
  }

  lemma CommentDepth(d: nat, comment: Line)
    requires IsComment(comment)
    ensures DepthAfter(d, comment) == d
  {
    assert comment.tokens[..0] == [];
    assert Depth(d, []) == d;
  }

  lemma NoOperands(d: nat)
    ensures Operands(d, []) && Depth(d, []) == d
  {
  }

  lemma ImageLine(d: nat, tokens: seq<Token>, i: nat, end: nat, pending: seq<Token>, line: Line)
    requires i < end <= |tokens| && IsOp(tokens[i], "BI") && Operands(d, pending) && Depth(d, pending) == 0
    requires forall j :: i < j < end - 1 ==> !IsOp(tokens[j], "EI")
    requires end == |tokens| || (i < end - 1 && IsOp(tokens[end - 1], "EI"))
    requires line.tokens == pending + tokens[i..end] && line.operator == "BI"
    ensures IsImage(d, line, end == |tokens|) && DepthAfter(d, line) == 0
  {
    var m := |pending|;
    assert line.tokens[..m] == pending;
    forall k | m < k < |line.tokens|
      ensures line.tokens[k] == tokens[i + k - m]
    {
    }
    assert IsImageAt(d, line, m, end == |tokens|);
  }

  lemma OperationLine(d: nat, pending: seq<Token>, t: Token, line: Line)
    requires Operands(d, pending) && Depth(d, pending) == 0
    requires t.kind == Operator && !OpensOperand(t) && !ClosesOperand(t) && t.value != "BI"
    requires line.tokens == pending + [t] && line.operator == t.value
    ensures IsOperation(d, line) && DepthAfter(d, line) == 0
  {
    assert line.tokens[..|pending|] == pending;
    assert Depth(d, line.tokens) == 0;
  }

  /** Past the first EI operator after position i, or the end of the tokens. */
  method ImageBlockEnd(tokens: seq<Token>, i: nat) returns (end: nat)
    requires i < |tokens|
    ensures i < end <= |tokens| && end == PastImage(tokens, i + 1)
    ensures forall j :: i < j < end - 1 ==> !IsOp(tokens[j], "EI")
    ensures end == |tokens| || (i < end - 1 && IsOp(tokens[end - 1], "EI"))
  {
    var j := i + 1;
    while j < |tokens|
      invariant i < j <= |tokens|
      invariant forall k :: i < k < j ==> !IsOp(tokens[k], "EI")
      invariant PastImage(tokens, i + 1) == PastImage(tokens, j)
    {
      if IsOp(tokens[j], "EI") {
        break;
      }
      j := j + 1;
    }
    end := if j < |tokens| then j + 1 else j;
  }
}
