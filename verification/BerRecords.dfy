/** What the three passes over an element record, emit and detect, as functions of its syntax tree, and how
    these functions split along a list of elements. */
module BerRecords {
  import opened BerSyntax
  import opened BerParser
  import opened BerDer

  /** The normalized content lengths of the constructed elements, in pre-order. */
  function Lens(node: Node): seq<nat> {
    match node
    case Prim(_, _, _) => []
    case Cons(tag, _, kids) =>
      if IsString(tag) then [|StringContent(Base(tag[0]), kids)|]
      else [|UnparseAll(DerAll(kids))|] + LensAll(kids)
  }

  function LensAll(kids: seq<Node>): seq<nat> {
    if kids == [] then [] else Lens(kids[0]) + LensAll(kids[1..])
  }

  /** The unused-bits octets of the flattened BIT STRINGs, in pre-order. */
  function Unused(node: Node): seq<Byte> {
    match node
    case Prim(_, _, _) => []
    case Cons(tag, _, kids) =>
      if !IsString(tag) then UnusedAll(kids)
      else if Base(tag[0]) == 3 then [UnusedBits(LeavesAll(kids))]
      else []
  }

  function UnusedAll(kids: seq<Node>): seq<Byte> {
    if kids == [] then [] else Unused(kids[0]) + UnusedAll(kids[1..])
  }

  /** The octets emitted for an element. */
  function Emitted(node: Node): seq<Byte> { Unparse(DerOf(node)) }

  function EmittedAll(kids: seq<Node>): seq<Byte> { UnparseAll(DerAll(kids)) }

  /** The content octets a segment of a string of type base contributes. */
  function SegBytes(base: Byte, leaves: seq<seq<Byte>>): seq<Byte> {
    if base == 3 then ConcatData(leaves) else Concat(leaves)
  }

  lemma AppendKid(a: seq<Node>, k: Node)
    ensures LensAll(a + [k]) == LensAll(a) + Lens(k)
    ensures UnusedAll(a + [k]) == UnusedAll(a) + Unused(k)
    ensures EmittedAll(a + [k]) == EmittedAll(a) + Emitted(k)
    ensures AllDer(a + [k]) == (AllDer(a) && IsDer(k))
  {
    hide Lens, LensAll, Unused, UnusedAll, IsDer;
    AppendAll(a, [k]);
    assert [k][1..] == [];
    AppendDer(a, k);
    AppendUnparse(DerAll(a), DerOf(k));
    OneRecord(k);
  }

  lemma OneRecord(k: Node)
    ensures LensAll([k]) == Lens(k) && UnusedAll([k]) == Unused(k)
  {
    hide Lens, Unused;
    assert [k][1..] == [];
    assert LensAll([]) == [] && UnusedAll([]) == [];
  }

  lemma {:induction false} AppendDer(a: seq<Node>, k: Node)
    ensures DerAll(a + [k]) == DerAll(a) + [DerOf(k)]
    ensures AllDer(a + [k]) == (AllDer(a) && IsDer(k))
    decreases a
  {
    hide DerOf, IsDer;
    var s := a + [k];
    if a == [] {
      assert s[1..] == [] && s[0] == k;
    } else {
      assert s[1..] == a[1..] + [k] && s[0] == a[0];
      AppendDer(a[1..], k);
    }
  }

  lemma {:induction false} AppendUnparse(a: seq<Node>, k: Node)
    ensures UnparseAll(a + [k]) == UnparseAll(a) + Unparse(k)
    decreases a
  {
    hide Unparse;
    var s := a + [k];
    if a == [] {
      assert s[1..] == [] && s[0] == k;
    } else {
      assert s[1..] == a[1..] + [k] && s[0] == a[0];
      AppendUnparse(a[1..], k);
    }
  }

  lemma {:induction false} AppendAll(a: seq<Node>, b: seq<Node>)
    ensures LensAll(a + b) == LensAll(a) + LensAll(b) && UnusedAll(a + b) == UnusedAll(a) + UnusedAll(b)
    decreases a
  {
    hide Lens, Unused;
    if a == [] {
      assert a + b == b;
    } else {
      assert (a + b)[0] == a[0] && (a + b)[1..] == a[1..] + b;
      AppendAll(a[1..], b);
    }
  }

  lemma {:induction false} AppendLeaves(a: seq<Node>, k: Node)
    ensures LeavesAll(a + [k]) == LeavesAll(a) + Leaves(k)
    decreases a
  {
    hide Leaves;
    var s := a + [k];
    if a == [] {
      assert s[1..] == [] && s[0] == k;
    } else {
      assert s[1..] == a[1..] + [k] && s[0] == a[0];
      AppendLeaves(a[1..], k);
    }
  }

  lemma AppendSegBytes(base: Byte, a: seq<seq<Byte>>, b: seq<seq<Byte>>)
    ensures SegBytes(base, a + b) == SegBytes(base, a) + SegBytes(base, b)
  {
    ConcatAppend(a, b);
  }

  /** The unused bits of the last segment are what the check carries to the end. */
  ghost predicate TracksBits(ctx: Ctx, ctx': Ctx, leaves: seq<seq<Byte>>) {
    && ctx.Seg? && ctx'.Seg? && ctx'.base == ctx.base
    && (ctx.base == 3 ==> ctx'.bits.unused == if leaves == [] then ctx.bits.unused else UnusedBits(leaves))
  }

  lemma {:induction false} CheckTracksBits(node: Node, ctx: Ctx)
    requires ctx.Seg? && Check(node, ctx).Good?
    ensures TracksBits(ctx, Check(node, ctx).ctx, Leaves(node))
    decreases node, 0
  {
    hide ValidTag, ValidLen, IsString;
    NonEmptyTag(node.tag);
    if node.Cons? {
      CheckAllTracksBits(node.kids, KidCtx(node.tag, ctx));
    }
  }

  lemma {:induction false} CheckAllTracksBits(kids: seq<Node>, ctx: Ctx)
    requires ctx.Seg? && CheckAll(kids, ctx).Good?
    ensures TracksBits(ctx, CheckAll(kids, ctx).ctx, LeavesAll(kids))
    decreases kids, 1
  {
    hide Check, Leaves;
    if kids != [] {
      CheckTracksBits(kids[0], ctx);
      CheckAllTracksBits(kids[1..], Check(kids[0], ctx).ctx);
      LastOf(Leaves(kids[0]), LeavesAll(kids[1..]));
    }
  }

  lemma LastOf(a: seq<seq<Byte>>, b: seq<seq<Byte>>)
    ensures UnusedBits(a + b) == if b == [] then UnusedBits(a) else UnusedBits(b)
  {
    if b == [] {
      assert a + b == a;
    }
  }

  /** kids followed by what is parsed after them. */
  function Prepend(kids: seq<Node>, r: Result<Kids>): Result<Kids> {
    match r
    case Err(e) => Err(e)
    case Ok(k) => Ok(Kids(kids + k.nodes, k.end, k.ctx))
  }

  /** The offset after an element's contents, a child element, or what is wrong at p. */
  datatype Step = Done(end: nat) | Child | Wrong(error: BerError)

  function StepAt(input: seq<Byte>, p: nat, limit: nat, indefinite: bool): Step
    requires limit <= |input|
  {
    if p >= limit then if indefinite then Wrong(NoEndOfContents) else Done(p)
    else if input[p] != 0 then Child
    else if p + 1 >= limit then Wrong(Truncated)
    else if input[p + 1] != 0 || !indefinite then Wrong(MalformedEndOfContents)
    else Done(p + 2)
  }

  lemma KidsStep(input: seq<Byte>, p: nat, limit: nat, indefinite: bool, depth: nat, ctx: Ctx)
    requires p <= limit <= |input| && depth <= MAX_BER_DEPTH + 1
    ensures var k, s := ParseKids(input, p, limit, indefinite, depth, ctx), StepAt(input, p, limit, indefinite);
            (s.Done? ==> k == Ok(Kids([], s.end, ctx))) && (s.Wrong? ==> k == Err(s.error))
    ensures StepAt(input, p, limit, indefinite).Child? ==>
              && p < limit && input[p] != 0
              && var k, i := ParseKids(input, p, limit, indefinite, depth, ctx), ParseItem(input, p, limit, depth, ctx);
                 if i.Err? then k == Err(i.error)
                 else k == Prepend([i.value.node], ParseKids(input, i.value.end, limit, indefinite, depth, i.value.ctx))
  {
    hide ParseItem;
  }

  lemma PrependPrepend(a: seq<Node>, b: seq<Node>, r: Result<Kids>)
    ensures Prepend(a, Prepend(b, r)) == Prepend(a + b, r)
  {
    if r.Ok? {
      assert a + (b + r.value.nodes) == (a + b) + r.value.nodes;
    }
  }

  /** Elements outside strings leave the context as it is, and segments keep its base. */
  lemma ItemCtx(input: seq<Byte>, off: nat, limit: nat, depth: nat, ctx: Ctx)
    requires limit <= |input| && ParseItem(input, off, limit, depth, ctx).Ok?
    ensures var c := ParseItem(input, off, limit, depth, ctx).value.ctx;
            if ctx.Top? then c.Top? else c.Seg? && c.base == ctx.base
  {
    hide ParseHeader, ParseKids, IsString, BitSegment;
  }

  /** A segment's own type flattens like the type of its string. */
  lemma SameSegBytes(b: Byte, base: Byte, leaves: seq<seq<Byte>>)
    requires SegmentType(b, base)
    ensures SegBytes(Base(b), leaves) == SegBytes(base, leaves)
  {
  }
}
