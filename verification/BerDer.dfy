/** What a BER encoding means, its DER form, and how the two relate: the DER form means the same, is a fixed
    point, is itself an allowed encoding, and is not much longer (X.690 sections 8.6.4, 8.7.3, 8.23, 10.1
    and 10.2). */
module BerDer {
  import opened BerSyntax
  import opened BerParser

  /** The meaning of an element: its type and its contents octets or the values it groups. */
  datatype Value = Atom(tag: seq<Byte>, content: seq<Byte>) | Group(tag: seq<Byte>, parts: seq<Value>)

  /** The contents of the primitive segments of a constructed string, in order. */
  function Leaves(node: Node): seq<seq<Byte>> {
    match node
    case Prim(_, _, content) => [content]
    case Cons(_, _, kids) => LeavesAll(kids)
  }

  function LeavesAll(kids: seq<Node>): seq<seq<Byte>> {
    if kids == [] then [] else Leaves(kids[0]) + LeavesAll(kids[1..])
  }

  function Concat(s: seq<seq<Byte>>): seq<Byte> {
    if s == [] then [] else s[0] + Concat(s[1..])
  }

  /** The data octets of a BIT STRING segment: all but its leading unused-bits octet. */
  function Data(c: seq<Byte>): seq<Byte> {
    if c == [] then [] else c[1..]
  }

  function ConcatData(s: seq<seq<Byte>>): seq<Byte> {
    if s == [] then [] else Data(s[0]) + ConcatData(s[1..])
  }

  /** The unused bits of a BIT STRING are those of its last segment. */
  function UnusedBits(s: seq<seq<Byte>>): Byte {
    if s == [] || s[|s| - 1] == [] then 0 else s[|s| - 1][0]
  }

  /** The contents octets of the primitive string that a constructed string of type base stands for. */
  function StringContent(base: Byte, kids: seq<Node>): seq<Byte> {
    if base == 3 then [UnusedBits(LeavesAll(kids))] + ConcatData(LeavesAll(kids)) else Concat(LeavesAll(kids))
  }

  function ValueOf(node: Node): Value {
    match node
    case Prim(tag, _, content) => Atom(tag, content)
    case Cons(tag, _, kids) =>
      if IsString(tag) then Atom([Base(tag[0])], StringContent(Base(tag[0]), kids)) else Group(tag, ValueAll(kids))
  }

  function ValueAll(kids: seq<Node>): seq<Value> {
    if kids == [] then [] else [ValueOf(kids[0])] + ValueAll(kids[1..])
  }

  /** The shortest definite form. */
  function MinForm(n: nat): LenForm {
    if n < 128 then Short else Long(Octets(n))
  }

  /** The same element with minimal definite lengths and no constructed string. */
  function DerOf(node: Node): Node {
    match node
    case Prim(tag, _, content) => Prim(tag, MinForm(|content|), content)
    case Cons(tag, _, kids) =>
      if IsString(tag) then
        var c := StringContent(Base(tag[0]), kids);
        Prim([Base(tag[0])], MinForm(|c|), c)
      else Cons(tag, MinForm(|UnparseAll(DerAll(kids))|), DerAll(kids))
  }

  function DerAll(kids: seq<Node>): seq<Node> {
    if kids == [] then [] else [DerOf(kids[0])] + DerAll(kids[1..])
  }

  /** Every length is minimal and definite, and no string is constructed. */
  predicate IsDer(node: Node) {
    match node
    case Prim(_, form, content) => form == MinForm(|content|)
    case Cons(tag, form, kids) => !IsString(tag) && AllDer(kids) && form == MinForm(|UnparseAll(kids)|)
  }

  predicate AllDer(kids: seq<Node>) {
    kids == [] || (IsDer(kids[0]) && AllDer(kids[1..]))
  }

  lemma {:induction false} DerOfIsDer(node: Node)
    ensures IsDer(DerOf(node))
    decreases node, 0
  {
    if node.Cons? {
      DerAllIsDer(node.kids);
    }
  }

  lemma {:induction false} DerAllIsDer(kids: seq<Node>)
    ensures AllDer(DerAll(kids))
    decreases kids, 1
  {
    if kids != [] {
      DerOfIsDer(kids[0]);
      DerAllIsDer(kids[1..]);
      assert DerAll(kids)[1..] == DerAll(kids[1..]);
    }
  }

  /** An element already in DER form is unchanged. */
  lemma {:induction false} DerIsFixed(node: Node)
    requires IsDer(node)
    ensures DerOf(node) == node
    decreases node, 0
  {
    if node.Cons? {
      DerAllIsFixed(node.kids);
    }
  }

  lemma {:induction false} DerAllIsFixed(kids: seq<Node>)
    requires AllDer(kids)
    ensures DerAll(kids) == kids
    decreases kids, 1
  {
    if kids != [] {
      DerIsFixed(kids[0]);
      DerAllIsFixed(kids[1..]);
    }
  }

  /** The DER form means the same. */
  lemma {:induction false} DerKeepsValue(node: Node)
    ensures ValueOf(DerOf(node)) == ValueOf(node)
    decreases node, 0
  {
    if node.Cons? {
      DerAllKeepsValue(node.kids);
    }
  }

  lemma {:induction false} DerAllKeepsValue(kids: seq<Node>)
    ensures ValueAll(DerAll(kids)) == ValueAll(kids)
    decreases kids, 1
  {
    if kids != [] {
      DerKeepsValue(kids[0]);
      DerAllKeepsValue(kids[1..]);
      assert DerAll(kids)[1..] == DerAll(kids[1..]);
    }
  }

  lemma {:induction false} DerDepth(node: Node)
    ensures Depth(DerOf(node)) <= Depth(node)
    decreases node, 0
  {
    if node.Cons? {
      DerAllDepth(node.kids);
    }
  }

  lemma {:induction false} DerAllDepth(kids: seq<Node>)
    ensures DepthAll(DerAll(kids)) <= DepthAll(kids)
    decreases kids, 1
  {
    if kids != [] {
      DerDepth(kids[0]);
      DerAllDepth(kids[1..]);
      assert DerAll(kids)[1..] == DerAll(kids[1..]);
    }
  }

  // Lengths.

  const LENGTH_LIMIT: nat := 0x1_0000_0000

  lemma {:induction false} OctetsFit(n: nat)
    ensures n < Pow256(Octets(n))
    ensures n > 0 ==> Pow256(Octets(n) - 1) <= n
  {
    if n > 0 {
      OctetsFit(n / 256);
      if n >= 256 {
        assert Pow256(Octets(n) - 1) == 256 * Pow256(Octets(n / 256) - 1);
      }
    }
  }

  lemma {:induction false} OctetsAtMost(n: nat, k: nat)
    requires n < Pow256(k)
    ensures Octets(n) <= k
  {
    if n > 0 {
      OctetsAtMost(n / 256, k - 1);
    }
  }

  /** A minimal length below 2^32 is one the decoder supports. */
  lemma MinFormValid(n: nat)
    requires n < LENGTH_LIMIT
    ensures ValidLen(MinForm(n), n) && |LenBytes(MinForm(n), n)| <= 5
  {
    assert Pow256(4) == LENGTH_LIMIT by {
      assert Pow256(1) == 256 && Pow256(2) == 65536 && Pow256(3) == 16777216;
    }
    OctetsAtMost(n, 4);
    OctetsFit(n);
  }

  /** No form of the same length is shorter than the minimal one. */
  lemma MinFormShortest(form: LenForm, n: nat)
    requires ValidLen(form, n) && !form.Indefinite?
    ensures |LenBytes(MinForm(n), n)| <= |LenBytes(form, n)|
  {
    if form.Long? {
      OctetsAtMost(n, form.octets);
    }
  }

  /** The DER form of an allowed encoding is an allowed encoding. */
  lemma {:induction false} DerChecks(node: Node)
    requires Check(node, Top).Good? && |Unparse(DerOf(node))| < LENGTH_LIMIT
    ensures Check(DerOf(node), Top) == Good(Top)
    decreases node, 0
  {
    hide ValidLen, LenBytes, StringContent, CheckContent;
    match node
    case Prim(tag, form, content) =>
      MinFormValid(|content|);
      TopContent(content);
    case Cons(tag, form, kids) =>
      if IsString(tag) {
        var c := StringContent(Base(tag[0]), kids);
        MinFormValid(|c|);
        TopContent(c);
        StringTag(tag);
      } else {
        MinFormValid(|UnparseAll(DerAll(kids))|);
        TopKids(kids);
        DerAllChecks(kids);
      }
  }

  lemma TopContent(c: seq<Byte>)
    ensures CheckContent(c, Top) == Good(Top)
  {
  }

  lemma StringTag(tag: seq<Byte>)
    requires IsString(tag)
    ensures |tag| == 1 && ValidTag([Base(tag[0])]) && !IsConstructed(Base(tag[0]))
  {
  }

  /** Elements outside strings leave the context as it is. */
  lemma TopKids(kids: seq<Node>)
    requires CheckAll(kids, Top).Good?
    ensures kids != [] ==> Check(kids[0], Top) == Good(Top) && CheckAll(kids[1..], Top).Good?
  {
  }

  lemma {:induction false} DerAllChecks(kids: seq<Node>)
    requires CheckAll(kids, Top).Good? && |UnparseAll(DerAll(kids))| < LENGTH_LIMIT
    ensures CheckAll(DerAll(kids), Top) == Good(Top)
    decreases kids, 1
  {
    hide Check, Unparse;
    if kids != [] {
      TopKids(kids);
      var rest := DerAll(kids[1..]);
      assert DerAll(kids) == [DerOf(kids[0])] + rest && DerAll(kids)[1..] == rest;
      DerChecks(kids[0]);
      DerAllChecks(kids[1..]);
    }
  }

  /** The number of constructed elements. */
  function Constructed(node: Node): nat {
    match node
    case Prim(_, _, _) => 0
    case Cons(_, _, kids) => 1 + ConstructedAll(kids)
  }

  function ConstructedAll(kids: seq<Node>): nat {
    if kids == [] then 0 else Constructed(kids[0]) + ConstructedAll(kids[1..])
  }

  /** The DER form is longer by at most four octets per constructed element. */
  lemma {:induction false} DerSize(node: Node, ctx: Ctx)
    requires Check(node, ctx).Good? && |Unparse(DerOf(node))| < LENGTH_LIMIT
    ensures |Unparse(DerOf(node))| <= |Unparse(node)| + 4 * Constructed(node)
    decreases node, 0
  {
    hide ValidLen, LenBytes, StringContent, CheckContent, ValidTag, IsString;
    match node
    case Prim(tag, form, content) =>
      MinFormShortest(form, |content|);
    case Cons(tag, form, kids) =>
      SomeLength(form, |UnparseAll(kids)|);
      Tagged(tag);
      if IsString(tag) {
        var c := StringContent(Base(tag[0]), kids);
        MinFormValid(|c|);
        OneOctetLength(|c|);
        StringSize(Base(tag[0]), kids);
      } else {
        MinFormValid(|UnparseAll(DerAll(kids))|);
        DerAllSize(kids, KidCtx(tag, ctx));
      }
  }

  lemma Tagged(tag: seq<Byte>)
    requires ValidTag(tag)
    ensures |tag| >= 1 && (IsString(tag) ==> |tag| == 1)
  {
  }

  lemma OneOctetLength(n: nat)
    ensures n == 1 ==> |LenBytes(MinForm(n), n)| == 1
  {
  }

  lemma SomeLength(form: LenForm, n: nat)
    ensures |LenBytes(form, n)| >= 1
  {
  }

  lemma {:induction false} DerAllSize(kids: seq<Node>, ctx: Ctx)
    requires CheckAll(kids, ctx).Good? && |UnparseAll(DerAll(kids))| < LENGTH_LIMIT
    ensures |UnparseAll(DerAll(kids))| <= |UnparseAll(kids)| + 4 * ConstructedAll(kids)
    decreases kids, 1
  {
    hide Check, Unparse;
    if kids != [] {
      var rest := DerAll(kids[1..]);
      assert DerAll(kids) == [DerOf(kids[0])] + rest && DerAll(kids)[1..] == rest;
      DerSize(kids[0], ctx);
      DerAllSize(kids[1..], Check(kids[0], ctx).ctx);
    }
  }

  lemma {:induction false} ConcatAppend(a: seq<seq<Byte>>, b: seq<seq<Byte>>)
    ensures Concat(a + b) == Concat(a) + Concat(b)
    ensures ConcatData(a + b) == ConcatData(a) + ConcatData(b)
  {
    if a == [] {
      assert a + b == b;
    } else {
      assert (a + b)[1..] == a[1..] + b && (a + b)[0] == a[0];
      ConcatAppend(a[1..], b);
    }
  }

  /** The contents of a flattened string are no longer than its segments, but for the unused-bits octet of
      a BIT STRING without segments. */
  lemma StringSize(base: Byte, kids: seq<Node>)
    ensures |StringContent(base, kids)| <= |UnparseAll(kids)| || |StringContent(base, kids)| == 1
  {
    LeavesAllSize(kids);
  }

  lemma {:induction false} LeavesSize(node: Node)
    ensures |Concat(Leaves(node))| <= |Unparse(node)|
    ensures |ConcatData(Leaves(node))| + |Leaves(node)| <= |Unparse(node)|
    decreases node, 0
  {
    if node.Cons? {
      LeavesAllSize(node.kids);
    } else {
      assert Leaves(node)[1..] == [];
    }
  }

  lemma {:induction false} LeavesAllSize(kids: seq<Node>)
    ensures |Concat(LeavesAll(kids))| <= |UnparseAll(kids)|
    ensures |ConcatData(LeavesAll(kids))| + |LeavesAll(kids)| <= |UnparseAll(kids)|
    decreases kids, 1
  {
    hide Unparse, Leaves;
    if kids != [] {
      LeavesSize(kids[0]);
      LeavesAllSize(kids[1..]);
      ConcatAppend(Leaves(kids[0]), LeavesAll(kids[1..]));
    }
  }
}
