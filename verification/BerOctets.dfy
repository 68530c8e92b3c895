/** The DER form told by octets: which identifiers it never holds, which lengths it writes and how the segments of a
    string are joined, in numbers of X.680 section 8.4 and X.690 sections 8.1.3, 8.14, 10.1 and 10.2. */
module BerOctets {
  import opened BerSyntax
  import opened BerDer
  import opened BerParser
  import opened BerExact

  /** The universal types whose values BER may send in segments. */
  datatype StringType =
    | BitString | OctetString | ObjectDescriptor | Utf8String | NumericString | PrintableString | TeletexString
    | VideotexString | Ia5String | UtcTime | GeneralizedTime | GraphicString | VisibleString | GeneralString
    | UniversalString | BmpString

  /** The identifier octet of a primitive value of a type. */
  function Identifier(t: StringType): Byte {
    match t
    case BitString => 0x03
    case OctetString => 0x04
    case ObjectDescriptor => 0x07
    case Utf8String => 0x0c
    case NumericString => 0x12
    case PrintableString => 0x13
    case TeletexString => 0x14
    case VideotexString => 0x15
    case Ia5String => 0x16
    case UtcTime => 0x17
    case GeneralizedTime => 0x18
    case GraphicString => 0x19
    case VisibleString => 0x1a
    case GeneralString => 0x1b
    case UniversalString => 0x1c
    case BmpString => 0x1e
  }

  /** The identifier octets of a value sent in segments. */
  function Segmented(t: StringType): seq<Byte> {
    [0x20 + Identifier(t)]
  }

  /** The element or one inside it, at any depth, has these identifier octets. */
  predicate Holds(node: Node, tag: seq<Byte>) {
    node.tag == tag || (node.Cons? && HoldsIn(node.kids, tag))
  }

  predicate HoldsIn(kids: seq<Node>, tag: seq<Byte>) {
    kids != [] && (Holds(kids[0], tag) || HoldsIn(kids[1..], tag))
  }

  /** The element or one inside it is a string in segments. */
  ghost predicate HoldsSegmented(node: Node) {
    exists t: StringType :: Holds(node, Segmented(t))
  }

  /** Every length in the element is in the minimal definite form. */
  predicate LengthsAreMinimal(node: Node) {
    match node
    case Prim(_, form, content) => form == Minimal(|content|)
    case Cons(_, form, kids) => form == Minimal(|UnparseAll(kids)|) && AllMinimal(kids)
  }

  predicate AllMinimal(kids: seq<Node>) {
    kids == [] || (LengthsAreMinimal(kids[0]) && AllMinimal(kids[1..]))
  }

  /** The minimal definite form of a length below 2^32; longer ones are out of the decoder's reach. */
  function Minimal(n: nat): LenForm {
    if n < 0x80 then Short
    else if n < 0x100 then Long(1)
    else if n < 0x1_0000 then Long(2)
    else if n < 0x100_0000 then Long(3)
    else if n < 0x1_0000_0000 then Long(4)
    else Long(Octets(n))
  }

  lemma MinimalIsMinForm(n: nat)
    ensures Minimal(n) == MinForm(n)
  {
    if 0x80 <= n < 0x1_0000_0000 {
      assert Octets(n) == 1 + Octets(n / 256);
      assert Octets(n / 256) == if n / 256 == 0 then 0 else 1 + Octets(n / 0x1_0000);
      assert Octets(n / 0x1_0000) == if n / 0x1_0000 == 0 then 0 else 1 + Octets(n / 0x100_0000);
      assert Octets(n / 0x100_0000) == if n / 0x100_0000 == 0 then 0 else 1 + Octets(n / 0x1_0000_0000);
      assert Octets(0) == 0;
    }
  }

  /** The octets of a length, the most significant first. */
  lemma LengthOctets(n: nat)
    requires n < 0x1_0000_0000
    ensures LenBytes(MinForm(n), n) ==
      if n < 0x80 then [n]
      else if n < 0x100 then [0x81, n]
      else if n < 0x1_0000 then [0x82, n / 0x100, n % 0x100]
      else if n < 0x100_0000 then [0x83, n / 0x1_0000, n / 0x100 % 0x100, n % 0x100]
      else [0x84, n / 0x100_0000, n / 0x1_0000 % 0x100, n / 0x100 % 0x100, n % 0x100]
  {
    MinimalIsMinForm(n);
    var a, b, c := n / 0x100, n / 0x1_0000, n / 0x100_0000;
    assert a / 0x100 == b && b / 0x100 == c;
    assert BigEndian(c, 1) == BigEndian(c / 0x100, 0) + [c % 0x100];
    assert BigEndian(b, 2) == BigEndian(c, 1) + [b % 0x100];
    assert BigEndian(b, 1) == BigEndian(c, 0) + [b % 0x100];
    assert BigEndian(a, 3) == BigEndian(b, 2) + [a % 0x100];
    assert BigEndian(a, 2) == BigEndian(b, 1) + [a % 0x100];
    assert BigEndian(a, 1) == BigEndian(b, 0) + [a % 0x100];
    assert forall k :: 0 < k <= 4 ==> BigEndian(n, k) == BigEndian(a, k - 1) + [n % 0x100];
  }

  /** Among identifiers of constructed elements, those of strings are the ones listed. */
  lemma StringsAreListed(tag: seq<Byte>)
    requires ValidTag(tag) && IsConstructed(tag[0])
    ensures IsString(tag) <==> exists t: StringType :: tag == Segmented(t)
  {
    if IsString(tag) {
      var b := tag[0] - 32;
      var t :=
        if b == 0x03 then BitString else if b == 0x04 then OctetString else if b == 0x07 then ObjectDescriptor
        else if b == 0x0c then Utf8String else if b == 0x12 then NumericString else if b == 0x13 then PrintableString
        else if b == 0x14 then TeletexString else if b == 0x15 then VideotexString else if b == 0x16 then Ia5String
        else if b == 0x17 then UtcTime else if b == 0x18 then GeneralizedTime else if b == 0x19 then GraphicString
        else if b == 0x1a then VisibleString else if b == 0x1b then GeneralString
        else if b == 0x1c then UniversalString else BmpString;
      assert tag == Segmented(t);
    }
  }

  /** Identifiers of elements with content elements have the constructed bit, and others do not. */
  predicate WellTagged(node: Node) {
    && ValidTag(node.tag) && (IsConstructed(node.tag[0]) <==> node.Cons?)
    && (node.Cons? ==> AllTagged(node.kids))
  }

  predicate AllTagged(kids: seq<Node>) {
    kids == [] || (WellTagged(kids[0]) && AllTagged(kids[1..]))
  }

  lemma {:induction false} AllowedIsTagged(node: Node, ctx: Ctx)
    requires Check(node, ctx).Good?
    ensures WellTagged(node)
    decreases node, 0
  {
    NonEmptyTag(node.tag);
    hide ValidTag;
    if node.Cons? {
      AllAllowedTagged(node.kids, KidCtx(node.tag, ctx));
    }
  }

  lemma {:induction false} AllAllowedTagged(kids: seq<Node>, ctx: Ctx)
    requires CheckAll(kids, ctx).Good?
    ensures AllTagged(kids)
    decreases kids, 1
  {
    if kids != [] {
      hide Check, WellTagged;
      AllowedIsTagged(kids[0], ctx);
      AllAllowedTagged(kids[1..], Check(kids[0], ctx).ctx);
    }
  }

  lemma {:induction false} DerIsTagged(node: Node)
    requires WellTagged(node)
    ensures WellTagged(DerOf(node))
    decreases node, 0
  {
    if node.Cons? {
      AllDerTagged(node.kids);
    }
  }

  lemma {:induction false} AllDerTagged(kids: seq<Node>)
    requires AllTagged(kids)
    ensures AllTagged(DerAll(kids))
    decreases kids, 1
  {
    if kids != [] {
      DerIsTagged(kids[0]);
      AllDerTagged(kids[1..]);
      assert DerAll(kids)[1..] == DerAll(kids[1..]);
    }
  }

  /** An element is in DER form exactly when it holds no string in segments and its lengths are minimal. */
  lemma {:induction false} DerIsOctets(node: Node)
    requires WellTagged(node)
    ensures IsDer(node) <==> !HoldsSegmented(node) && LengthsAreMinimal(node)
    decreases node, 0
  {
    hide IsString, ValidTag;
    match node
    case Prim(tag, _, content) =>
      MinimalIsMinForm(|content|);
      forall t: StringType
        ensures tag != Segmented(t)
      {
      }
    case Cons(tag, _, kids) =>
      MinimalIsMinForm(|UnparseAll(kids)|);
      StringsAreListed(tag);
      DerAllIsOctets(kids);
      if exists t: StringType :: tag == Segmented(t) {
        var t: StringType :| tag == Segmented(t);
        assert Holds(node, Segmented(t));
      }
      if HoldsSegmented(node) && !IsString(tag) {
        var t: StringType :| Holds(node, Segmented(t));
        assert HoldsIn(kids, Segmented(t));
      }
      if exists t: StringType :: HoldsIn(kids, Segmented(t)) {
        var t: StringType :| HoldsIn(kids, Segmented(t));
        assert Holds(node, Segmented(t));
      }
  }

  lemma {:induction false} DerAllIsOctets(kids: seq<Node>)
    requires AllTagged(kids)
    ensures AllDer(kids) <==> !(exists t: StringType :: HoldsIn(kids, Segmented(t))) && AllMinimal(kids)
    decreases kids, 1
  {
    if kids != [] {
      hide WellTagged, IsDer, LengthsAreMinimal;
      DerIsOctets(kids[0]);
      DerAllIsOctets(kids[1..]);
      if HoldsSegmented(kids[0]) {
        var t: StringType :| Holds(kids[0], Segmented(t));
        assert HoldsIn(kids, Segmented(t));
      }
      if exists t: StringType :: HoldsIn(kids[1..], Segmented(t)) {
        var t: StringType :| HoldsIn(kids[1..], Segmented(t));
        assert HoldsIn(kids, Segmented(t));
      }
      if t: StringType :| HoldsIn(kids, Segmented(t)) {
        assert Holds(kids[0], Segmented(t)) || HoldsIn(kids[1..], Segmented(t));
      }
    }
  }

  /** What is told of an input and of what is written for it: the input is BER only when it holds a string in segments
      or a length that is not minimal, and neither is written, at any depth. */
  lemma WrittenIsOctets(node: Node, ctx: Ctx)
    requires Check(node, ctx).Good?
    ensures IsDer(node) <==> !HoldsSegmented(node) && LengthsAreMinimal(node)
    ensures !HoldsSegmented(DerOf(node)) && LengthsAreMinimal(DerOf(node))
  {
    hide HoldsSegmented, LengthsAreMinimal, IsDer, DerOf, Check;
    AllowedIsTagged(node, ctx);
    DerIsOctets(node);
    DerOfIsDer(node);
    DerIsTagged(node);
    DerIsOctets(DerOf(node));
  }

  // Strings in segments.

  /** A string's contents as it is sent: octets, or parts. */
  datatype Segment = Whole(form: LenForm, content: seq<Byte>) | Parts(form: LenForm, parts: seq<Segment>)

  /** The element that sends a segment whose primitive parts have the identifier octet id. */
  function SegmentNode(id: Byte, s: Segment): Node
    requires id < 0x20
  {
    match s
    case Whole(form, content) => Prim([id], form, content)
    case Parts(form, parts) => Cons([0x20 + id], form, SegmentNodes(id, parts))
  }

  function SegmentNodes(id: Byte, parts: seq<Segment>): seq<Node>
    requires id < 0x20
  {
    if parts == [] then [] else [SegmentNode(id, parts[0])] + SegmentNodes(id, parts[1..])
  }

  /** The contents of the primitive parts, in order, each without its first drop octets. */
  function Joined(parts: seq<Segment>, drop: nat): seq<Byte> {
    if parts == [] then [] else Joined(parts[..|parts| - 1], drop) + JoinedOne(parts[|parts| - 1], drop)
  }

  function JoinedOne(s: Segment, drop: nat): seq<Byte> {
    match s
    case Whole(_, content) => if |content| < drop then [] else content[drop..]
    case Parts(_, parts) => Joined(parts, drop)
  }

  /** The contents of the primitive parts, one by one. */
  function Contents(parts: seq<Segment>): seq<seq<Byte>> {
    if parts == [] then [] else Contents(parts[..|parts| - 1]) + ContentsOf(parts[|parts| - 1])
  }

  function ContentsOf(s: Segment): seq<seq<Byte>> {
    match s
    case Whole(_, content) => [content]
    case Parts(_, parts) => Contents(parts)
  }

  lemma {:induction false} NodesAppend(id: Byte, a: seq<Segment>, b: seq<Segment>)
    requires id < 0x20
    ensures SegmentNodes(id, a + b) == SegmentNodes(id, a) + SegmentNodes(id, b)
  {
    if a == [] {
      assert a + b == b;
    } else {
      assert (a + b)[1..] == a[1..] + b && (a + b)[0] == a[0];
      NodesAppend(id, a[1..], b);
    }
  }

  lemma {:induction false} LeavesAppend(a: seq<Node>, b: seq<Node>)
    ensures LeavesAll(a + b) == LeavesAll(a) + LeavesAll(b)
  {
    if a == [] {
      assert a + b == b;
    } else {
      assert (a + b)[1..] == a[1..] + b && (a + b)[0] == a[0];
      LeavesAppend(a[1..], b);
    }
  }

  lemma {:induction false} PartsJoin(id: Byte, parts: seq<Segment>)
    requires id < 0x20
    ensures LeavesAll(SegmentNodes(id, parts)) == Contents(parts)
    ensures Concat(Contents(parts)) == Joined(parts, 0) && ConcatData(Contents(parts)) == Joined(parts, 1)
    decreases parts, 1
  {
    if parts != [] {
      var n := |parts| - 1;
      var last := parts[n];
      assert parts == parts[..n] + [last];
      PartsJoin(id, parts[..n]);
      PartJoins(id, last);
      NodesAppend(id, parts[..n], [last]);
      assert [last][1..] == [];
      assert SegmentNodes(id, [last]) == [SegmentNode(id, last)] + SegmentNodes(id, []) == [SegmentNode(id, last)];
      LeavesAppend(SegmentNodes(id, parts[..n]), [SegmentNode(id, last)]);
      assert [SegmentNode(id, last)][1..] == [];
      assert LeavesAll([SegmentNode(id, last)]) == Leaves(SegmentNode(id, last)) + LeavesAll([]);
      ConcatAppend(Contents(parts[..n]), ContentsOf(last));
    }
  }

  lemma {:induction false} PartJoins(id: Byte, s: Segment)
    requires id < 0x20
    ensures Leaves(SegmentNode(id, s)) == ContentsOf(s)
    ensures Concat(ContentsOf(s)) == JoinedOne(s, 0) && ConcatData(ContentsOf(s)) == JoinedOne(s, 1)
    decreases s, 0
  {
    match s
    case Whole(_, content) =>
      assert [content][1..] == [];
      assert Concat([content]) == content + Concat([]) == content == content[0..];
      assert ConcatData([content]) == Data(content) + ConcatData([]) == Data(content);
    case Parts(_, parts) => PartsJoin(id, parts);
  }

  /** A string sent in segments of its own type, or of OCTET STRINGs, however nested, is written as one primitive
      value: its identifier, the minimal length and the contents joined in order.  A BIT STRING's contents come after
      their leading octets, and are led by that of the last. */
  lemma StringIsJoined(t: StringType, id: Byte, form: LenForm, parts: seq<Segment>)
    requires id == Identifier(t) || id == Identifier(OctetString)
    ensures var contents := Contents(parts);
      var c :=
        if t == BitString then
          (if contents == [] || contents[|contents| - 1] == [] then [0] else [contents[|contents| - 1][0]])
          + Joined(parts, 1)
        else Joined(parts, 0);
      Unparse(DerOf(Cons(Segmented(t), form, SegmentNodes(id, parts)))) ==
      [Identifier(t)] + LenBytes(Minimal(|c|), |c|) + c
  {
    hide LenBytes, Joined, Contents, SegmentNodes, Concat, ConcatData, LeavesAll, Minimal;
    var node := Cons(Segmented(t), form, SegmentNodes(id, parts));
    assert IsString(node.tag) && Base(node.tag[0]) == Identifier(t);
    PartsJoin(id, parts);
    var c := StringContent(Base(node.tag[0]), node.kids);
    MinimalIsMinForm(|c|);
    assert DerOf(node) == Prim([Identifier(t)], MinForm(|c|), c);
  }

  // Which segments a string may have.

  /** Every length fits its form, and only parts may have indefinite ones. */
  predicate LengthsFit(id: Byte, parts: seq<Segment>)
    requires id < 0x20
    decreases parts, 1
  {
    parts == [] || (LengthFits(id, parts[0]) && LengthsFit(id, parts[1..]))
  }

  predicate LengthFits(id: Byte, s: Segment)
    requires id < 0x20
    decreases s, 0
  {
    match s
    case Whole(form, content) => !form.Indefinite? && ValidLen(form, |content|)
    case Parts(form, parts) => ValidLen(form, |UnparseAll(SegmentNodes(id, parts))|) && LengthsFit(id, parts)
  }

  /** The contents of a BIT STRING's segments after bits: each has a leading octet of unused bits, at most 7 and none
      without data, and only the last may leave bits unused. */
  predicate BitsFit(bits: Bits, contents: seq<seq<Byte>>) {
    && (contents != [] && bits.seen ==> bits.unused == 0)
    && forall i :: 0 <= i < |contents| ==>
         && contents[i] != [] && contents[i][0] <= 7 && (|contents[i]| == 1 ==> contents[i][0] == 0)
         && (i < |contents| - 1 ==> contents[i][0] == 0)
  }

  function BitsAfter(base: Byte, bits: Bits, contents: seq<seq<Byte>>): Bits {
    if base != 3 || contents == [] || contents[|contents| - 1] == [] then bits
    else Bits(true, contents[|contents| - 1][0])
  }

  /** A segment has the identifier of its string, or that of OCTET STRING in a string that is neither of bits nor of
      octets. */
  predicate IdFits(base: Byte, id: Byte) {
    id == base || (base != 0x03 && base != 0x04 && id == 0x04)
  }

  lemma BitsJoin(bits: Bits, a: seq<seq<Byte>>, b: seq<seq<Byte>>)
    ensures BitsFit(bits, a + b) <==> BitsFit(bits, a) && BitsFit(BitsAfter(3, bits, a), b)
    ensures BitsFit(bits, a + b) ==> BitsAfter(3, BitsAfter(3, bits, a), b) == BitsAfter(3, bits, a + b)
  {
    if a == [] {
      assert a + b == b;
    } else if b == [] {
      assert a + b == a;
    } else {
      var c := a + b;
      assert forall i :: 0 <= i < |a| ==> c[i] == a[i];
      assert forall i :: |a| <= i < |c| ==> c[i] == b[i - |a|];
      if BitsFit(bits, c) {
        assert c[|a| - 1][0] == 0;
        forall i | 0 <= i < |b|
          ensures b[i] == c[|a| + i]
        {
        }
      }
    }
  }

  lemma {:induction false} PartsFit(id: Byte, base: Byte, bits: Bits, parts: seq<Segment>)
    requires 0 < id < 0x1f
    ensures var c := CheckAll(SegmentNodes(id, parts), Seg(base, bits));
      var contents := LeavesAll(SegmentNodes(id, parts));
      && (c.Good? <==>
            (parts == [] || IdFits(base, id)) && LengthsFit(id, parts) && (base == 3 ==> BitsFit(bits, contents)))
      && (c.Good? ==> c.ctx == Seg(base, BitsAfter(base, bits, contents)))
    decreases parts, 1
  {
    if parts != [] {
      hide Check, SegmentNode, LengthFits, BitsFit;
      PartFits(id, base, bits, parts[0]);
      var nodes := SegmentNodes(id, parts);
      assert nodes[0] == SegmentNode(id, parts[0]) && nodes[1..] == SegmentNodes(id, parts[1..]);
      var first := Leaves(nodes[0]);
      PartsFit(id, base, BitsAfter(base, bits, first), parts[1..]);
      BitsJoin(bits, first, LeavesAll(nodes[1..]));
    } else {
      NoBits(bits);
    }
  }

  lemma NoBits(bits: Bits)
    ensures BitsFit(bits, [])
  {
  }

  lemma {:induction false} PartFits(id: Byte, base: Byte, bits: Bits, s: Segment)
    requires 0 < id < 0x1f
    ensures var c := Check(SegmentNode(id, s), Seg(base, bits));
      var contents := Leaves(SegmentNode(id, s));
      && (c.Good? <==> IdFits(base, id) && LengthFits(id, s) && (base == 3 ==> BitsFit(bits, contents)))
      && (c.Good? ==> c.ctx == Seg(base, BitsAfter(base, bits, contents)))
    decreases s, 0
  {
    match s
    case Whole(_, content) =>
      assert [content][0] == content;
    case Parts(_, parts) =>
      PartsFit(id, id, bits, parts);
  }

  /** A string in segments is read exactly when its segments have its own identifier, or that of OCTET STRING in a
      string of characters, every length fits, and those of a BIT STRING leave bits unused only at its end. */
  lemma SegmentsAllowed(t: StringType, id: Byte, form: LenForm, parts: seq<Segment>)
    requires 0 < id < 0x1f
    ensures Check(Cons(Segmented(t), form, SegmentNodes(id, parts)), Top).Good? <==>
      && ValidLen(form, |UnparseAll(SegmentNodes(id, parts))|) && LengthsFit(id, parts)
      && (parts == [] || IdFits(Identifier(t), id))
      && (t == BitString ==> BitsFit(NO_BITS, Contents(parts)))
  {
    assert ValidTag(Segmented(t)) && IsConstructed(Segmented(t)[0]);
    assert IsString(Segmented(t)) && Base(Segmented(t)[0]) == Identifier(t);
    hide UnparseAll, CheckAll, LeavesAll, BitsFit, SegmentNodes, LengthsFit, ValidLen, Contents, IsString, ValidTag;
    hide Identifier, Segmented, Base, IsConstructed;
    PartsFit(id, Identifier(t), NO_BITS, parts);
    PartsJoin(id, parts);
  }

  /** The octets 24 80 04 01 41 04 01 42 00 00, an OCTET STRING in two segments and of indefinite length, are read and
      written as 04 02 41 42. */
  lemma TwoSegments()
    ensures var input: seq<Byte> := [0x24, 0x80, 0x04, 0x01, 0x41, 0x04, 0x01, 0x42, 0x00, 0x00];
      var p := ParseItem(input, 0, |input|, 1, Top);
      p.Ok? && p.value.end == |input| && Unparse(DerOf(p.value.node)) == [0x04, 0x02, 0x41, 0x42]
  {
    var input: seq<Byte> := [0x24, 0x80, 0x04, 0x01, 0x41, 0x04, 0x01, 0x42, 0x00, 0x00];
    var parts := [Whole(Short, [0x41]), Whole(Short, [0x42])];
    var node := Cons(Segmented(OctetString), Indefinite, SegmentNodes(0x04, parts));
    TwoSegmentsNode(parts, node);
    TwoWritten(parts);
    hide *;
    assert input[0..0 + 10] == input;
    ItemComplete(input, 0, 10, 1, Top, node);
  }

  lemma TwoWritten(parts: seq<Segment>)
    requires parts == [Whole(Short, [0x41]), Whole(Short, [0x42])]
    ensures Unparse(DerOf(Cons(Segmented(OctetString), Indefinite, SegmentNodes(0x04, parts)))) ==
      [0x04, 0x02, 0x41, 0x42]
  {
    TwoJoined(parts);
    StringIsJoined(OctetString, 0x04, Indefinite, parts);
    assert LenBytes(Minimal(2), 2) == [0x02];
    hide *;
  }

  lemma TwoJoined(parts: seq<Segment>)
    requires parts == [Whole(Short, [0x41]), Whole(Short, [0x42])]
    ensures Joined(parts, 0) == [0x41, 0x42]
  {
    assert parts[..1] == [parts[0]] && parts[..1][..0] == [];
    assert Joined(parts[..1], 0) == Joined([], 0) + [0x41];
  }

  lemma TwoSegmentsNode(parts: seq<Segment>, node: Node)
    requires parts == [Whole(Short, [0x41]), Whole(Short, [0x42])]
    requires node == Cons([0x24], Indefinite, SegmentNodes(0x04, parts))
    ensures Unparse(node) == [0x24, 0x80, 0x04, 0x01, 0x41, 0x04, 0x01, 0x42, 0x00, 0x00]
    ensures Check(node, Top) == Good(Top) && Depth(node) <= 2
  {
    var a, b := Prim([0x04], Short, [0x41]), Prim([0x04], Short, [0x42]);
    assert parts[1..] == [parts[1]] && [parts[1]][1..] == [];
    assert SegmentNodes(0x04, [parts[1]]) == [b] + SegmentNodes(0x04, []);
    assert node.kids == [a, b] && [a, b][1..] == [b] && [b][1..] == [];
    assert UnparseAll([]) == [] && UnparseAll([b]) == Unparse(b) + [] == [0x04, 0x01, 0x42];
    assert UnparseAll([a, b]) == Unparse(a) + UnparseAll([b]) == [0x04, 0x01, 0x41, 0x04, 0x01, 0x42];
    var ctx := Seg(0x04, NO_BITS);
    assert Base(0x24) == 0x04 && KidCtx([0x24], Top) == ctx;
    assert Check(a, ctx) == Good(ctx) && Check(b, ctx) == Good(ctx);
    assert CheckAll([], ctx) == Good(ctx) && CheckAll([b], ctx) == Good(ctx) && CheckAll([a, b], ctx) == Good(ctx);
    TwoDeep(a, b);
  }

  lemma TwoDeep(a: Node, b: Node)
    requires a.Prim? && b.Prim?
    ensures DepthAll([a, b]) == 1
  {
    assert [a, b][1..] == [b] && [b][1..] == [];
    assert Depth(a) == Depth(b) == 1 && DepthAll([]) == 0;
    assert DepthAll([b]) == 1;
  }
}
