/** Contents written as nested blocks of operations, and the lines they are formatted into. */
module FormatGrammar {
  import opened ContentLexer

  datatype Line = Line(tokens: seq<Token>, indent: nat, operator: string)

  /** Operands: values, and arrays and dictionaries that hold more of them; words stand only inside those. */
  datatype Operands =
    | NoMore
    | Value(kind: Kind, text: string, rest: Operands)
    | Word(text: string, rest: Operands)
    | Bracketed(inner: Operands, rest: Operands)
    | Keyed(inner: Operands, rest: Operands)

  predicate AreOperands(o: Operands, inside: bool) {
    match o
    case NoMore => true
    case Value(kind, _, rest) => kind != Comment && kind != Operator && AreOperands(rest, inside)
    case Word(text, rest) => inside && text !in {"[", "]", "<<", ">>"} && AreOperands(rest, inside)
    case Bracketed(inner, rest) => AreOperands(inner, true) && AreOperands(rest, inside)
    case Keyed(inner, rest) => AreOperands(inner, true) && AreOperands(rest, inside)
  }

  function OperandTokens(o: Operands): seq<Token> {
    match o
    case NoMore => []
    case Value(kind, text, rest) => [Token(kind, text)] + OperandTokens(rest)
    case Word(text, rest) => [Token(Operator, text)] + OperandTokens(rest)
    case Bracketed(inner, rest) =>
      [Token(Operator, "[")] + OperandTokens(inner) + [Token(Operator, "]")] + OperandTokens(rest)
    case Keyed(inner, rest) =>
      [Token(Operator, "<<")] + OperandTokens(inner) + [Token(Operator, ">>")] + OperandTokens(rest)
  }

  datatype Block = State | TextObject | Marked | MarkedWithProperties

  function Opener(b: Block): string {
    match b
    case State => "q"
    case TextObject => "BT"
    case Marked => "BMC"
    case MarkedWithProperties => "BDC"
  }

  function Closer(b: Block): string {
    match b
    case State => "Q"
    case TextObject => "ET"
    case Marked => "EMC"
    case MarkedWithProperties => "EMC"
  }

  datatype Content =
    | Nothing
    | Remark(text: string, rest: Content)
    | Operation(operands: Operands, op: string, rest: Content)
    | Nest(operands: Operands, block: Block, inner: Content, rest: Content)
    | Image(operands: Operands, parts: seq<Token>, rest: Content)

  predicate IsContent(c: Content) {
    match c
    case Nothing => true
    case Remark(_, rest) => IsContent(rest)
    case Operation(o, op, rest) =>
      && AreOperands(o, false) && IsContent(rest)
      && op !in {"q", "BT", "BMC", "BDC", "Q", "ET", "EMC", "[", "]", "<<", ">>", "BI"}
    case Nest(o, _, inner, rest) => AreOperands(o, false) && IsContent(inner) && IsContent(rest)
    case Image(o, parts, rest) => AreOperands(o, false) && Token(Operator, "EI") !in parts && IsContent(rest)
  }

  function ContentTokens(c: Content): seq<Token> {
    match c
    case Nothing => []
    case Remark(text, rest) => [Token(Comment, text)] + ContentTokens(rest)
    case Operation(o, op, rest) => OperandTokens(o) + [Token(Operator, op)] + ContentTokens(rest)
    case Nest(o, b, inner, rest) =>
      OperandTokens(o) + [Token(Operator, Opener(b))] + ContentTokens(inner) + [Token(Operator, Closer(b))]
      + ContentTokens(rest)
    case Image(o, parts, rest) =>
      OperandTokens(o) + ([Token(Operator, "BI")] + parts + [Token(Operator, "EI")]) + ContentTokens(rest)
  }

  /** One line for each comment, operation, image and end of a block, at the depth of the blocks around it. */
  function ContentLines(c: Content, depth: nat): seq<Line> {
    match c
    case Nothing => []
    case Remark(text, rest) => [Line([Token(Comment, text)], depth, "")] + ContentLines(rest, depth)
    case Operation(o, op, rest) =>
      [Line(OperandTokens(o) + [Token(Operator, op)], depth, op)] + ContentLines(rest, depth)
    case Nest(o, b, inner, rest) =>
      [Line(OperandTokens(o) + [Token(Operator, Opener(b))], depth, Opener(b))] + ContentLines(inner, depth + 1)
      + [Line([Token(Operator, Closer(b))], depth, Closer(b))] + ContentLines(rest, depth)
    case Image(o, parts, rest) =>
      [Line(OperandTokens(o) + ([Token(Operator, "BI")] + parts + [Token(Operator, "EI")]), depth, "BI")]
      + ContentLines(rest, depth)
  }

  function Dangling(o: Operands, depth: nat): seq<Line> {
    if o == NoMore then [] else [Line(OperandTokens(o), depth, "")]
  }
}
