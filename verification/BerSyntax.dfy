/** BER encodings as syntax trees: every element with its identifier octets, the length form it chose and its
    contents, what each choice must satisfy, and the octets it stands for (X.690 section 8.1). */
module BerSyntax {

  type Byte = x: int | 0 <= x < 256

  /** The forms of length octets. */
  datatype LenForm = Short | Long(octets: nat) | Indefinite

  /** A primitive element, or a constructed one with its content elements. */
  datatype Node =
    | Prim(tag: seq<Byte>, form: LenForm, content: seq<Byte>)
    | Cons(tag: seq<Byte>, form: LenForm, kids: seq<Node>)

  function Pow256(k: nat): nat {
    if k == 0 then 1 else 256 * Pow256(k - 1)
  }

  /** n in k octets, most significant first. */
  function BigEndian(n: nat, k: nat): (s: seq<Byte>)
    ensures |s| == k
  {
    if k == 0 then [] else BigEndian(n / 256, k - 1) + [n % 256]
  }

  function FromBytes(s: seq<Byte>): nat {
    if s == [] then 0 else FromBytes(s[..|s| - 1]) * 256 + s[|s| - 1]
  }

  /** The number of octets of n without leading zeros. */
  function Octets(n: nat): nat {
    if n == 0 then 0 else 1 + Octets(n / 256)
  }

  /** The length octets of form for n, which ValidLen says they can carry. */
  function LenBytes(form: LenForm, n: nat): seq<Byte> {
    match form
    case Short => [n % 256]
    case Long(k) => [(128 + k) % 256] + BigEndian(n, k)
    case Indefinite => [128]
  }

  /** n fits the form, and a definite length has at most four octets, the largest the decoder supports. */
  predicate ValidLen(form: LenForm, n: nat) {
    match form
    case Short => n < 128
    case Long(k) => 1 <= k <= 4 && n < Pow256(k)
    case Indefinite => true
  }

  function TagNumber(s: seq<Byte>): nat {
    if s == [] then 0 else TagNumber(s[..|s| - 1]) * 128 + s[|s| - 1] % 128
  }

  /** Continuation octets of a high tag number. */
  predicate Continues(s: seq<Byte>) {
    forall i :: 0 <= i < |s| ==> s[i] >= 128
  }

  const MAX_INT32: nat := 0x7fff_ffff

  /** Identifier octets: one octet, or a leading octet and at most five octets of a minimal tag number
      between 31 and the largest 32-bit integer. */
  predicate ValidTag(tag: seq<Byte>) {
    && tag != [] && tag[0] != 0
    && if tag[0] % 32 != 31 then |tag| == 1
       else
         && 2 <= |tag| <= 6 && tag[1] != 128
         && Continues(tag[1..|tag| - 1]) && tag[|tag| - 1] < 128
         && 31 <= TagNumber(tag[1..]) <= MAX_INT32
  }

  lemma NonEmptyTag(tag: seq<Byte>)
    requires ValidTag(tag)
    ensures tag != [] && tag[0] != 0
  {
  }

  predicate IsConstructed(b: Byte) { (b / 32) % 2 == 1 }

  /** The universal string types that BER allows in constructed form. */
  predicate IsStringTag(t: int) {
    t in {3, 4, 7, 12, 18, 19, 20, 21, 22, 23, 24, 25, 26, 27, 28, 30}
  }

  /** The identifier octet without its constructed bit. */
  function Base(b: Byte): Byte {
    if IsConstructed(b) then b - 32 else b
  }

  predicate IsString(tag: seq<Byte>) {
    |tag| == 1 && tag[0] / 64 == 0 && IsStringTag(Base(tag[0]))
  }

  /** The primitive segments of a BIT STRING so far: whether there was one, and the unused bits of the last. */
  datatype Bits = Bits(seen: bool, unused: Byte)

  const NO_BITS := Bits(false, 0)

  /** Where an element stands: on its own, or as a segment of a constructed string of type base. */
  datatype Ctx = Top | Seg(base: Byte, bits: Bits)

  /** A segment has its string's type; a character string's segments may also be OCTET STRINGs. */
  predicate SegmentType(b: Byte, base: Byte) {
    Base(b) == base || (base != 3 && base != 4 && Base(b) == 4)
  }

  /** A BIT STRING segment starts with 0 to 7 unused bits, 0 when it has no data. */
  predicate BitSegment(c: seq<Byte>) {
    c != [] && c[0] <= 7 && (|c| == 1 ==> c[0] == 0)
  }

  /** Whether content c is allowed for a primitive element in ctx, and the state after it. */
  datatype Checked = Bad | Good(ctx: Ctx)

  function CheckContent(c: seq<Byte>, ctx: Ctx): Checked {
    if ctx.Top? || ctx.base != 3 then Good(ctx)
    else if !BitSegment(c) || (ctx.bits.seen && ctx.bits.unused != 0) then Bad
    else Good(Seg(3, Bits(true, c[0])))
  }

  /** The context of the content elements of a constructed element with identifier tag in ctx. */
  function KidCtx(tag: seq<Byte>, ctx: Ctx): Ctx
    requires tag != []
  {
    if ctx.Seg? then Seg(Base(tag[0]), ctx.bits)
    else if IsString(tag) then Seg(Base(tag[0]), NO_BITS)
    else Top
  }

  /** The context after a constructed element whose content ended in ctx'. */
  function AfterKids(ctx: Ctx, ctx': Ctx): Ctx {
    if ctx.Seg? && ctx'.Seg? then Seg(ctx.base, ctx'.bits) else ctx
  }

  predicate FitsCtx(tag: seq<Byte>, ctx: Ctx)
    requires tag != []
  {
    ctx.Seg? ==> SegmentType(tag[0], ctx.base)
  }

  /** Whether node is an encoding allowed in ctx, and the context after it. */
  function Check(node: Node, ctx: Ctx): Checked {
    if !ValidTag(node.tag) || !FitsCtx(node.tag, ctx) then Bad
    else match node
      case Prim(tag, form, content) =>
        if IsConstructed(tag[0]) || form.Indefinite? || !ValidLen(form, |content|) then Bad
        else CheckContent(content, ctx)
      case Cons(tag, form, kids) =>
        var c := CheckAll(kids, KidCtx(tag, ctx));
        if !IsConstructed(tag[0]) || c.Bad? || !ValidLen(form, |UnparseAll(kids)|) then Bad
        else Good(AfterKids(ctx, c.ctx))
  }

  function CheckAll(kids: seq<Node>, ctx: Ctx): Checked {
    if kids == [] then Good(ctx)
    else
      var c := Check(kids[0], ctx);
      if c.Bad? then Bad else CheckAll(kids[1..], c.ctx)
  }

  /** The octets of an element: identifier, length, contents and, for the indefinite form, end-of-contents. */
  function Unparse(node: Node): seq<Byte> {
    match node
    case Prim(tag, form, content) => tag + LenBytes(form, |content|) + content
    case Cons(tag, form, kids) =>
      tag + LenBytes(form, |UnparseAll(kids)|) + UnparseAll(kids) + EndOfContents(form)
  }

  function EndOfContents(form: LenForm): seq<Byte> {
    if form.Indefinite? then [0, 0] else []
  }

  function UnparseAll(kids: seq<Node>): seq<Byte> {
    if kids == [] then [] else Unparse(kids[0]) + UnparseAll(kids[1..])
  }
}
