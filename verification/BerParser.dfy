/** The BER decoder as a function from octets to syntax trees, and the proof that it is exact: it accepts
    precisely the encodings the syntax allows, and returns the tree they stand for. */
module BerParser {
  import opened BerSyntax

  datatype BerError =
    | Truncated | UnsupportedTag | UnsupportedLength | IndefinitePrimitive | NoEndOfContents
    | MalformedEndOfContents | TooDeep | SegmentMismatch | MalformedBitString

  datatype Result<T> = Ok(value: T) | Err(error: BerError)

  /** The deepest nesting the decoder follows; the outermost element is at depth 1. */
  const MAX_BER_DEPTH: nat := 64

  /** The octets of a high tag number from p on; i of them were read, with value num. */
  function TagTail(input: seq<Byte>, p: nat, i: nat, num: nat, limit: nat): Result<(nat, nat)>
    requires limit <= |input| && i <= 5
    decreases 5 - i
  {
    if i == 5 then Err(UnsupportedTag)
    else if p >= limit then Err(Truncated)
    else if i == 0 && input[p] == 128 then Err(UnsupportedTag)
    else
      var n := num * 128 + input[p] % 128;
      if input[p] < 128 then Ok((p + 1, n)) else TagTail(input, p + 1, i + 1, n, limit)
  }

  /** The end of the identifier octets at off. */
  function ParseTag(input: seq<Byte>, off: nat, limit: nat): Result<nat>
    requires off < limit <= |input|
  {
    if input[off] % 32 != 31 then Ok(off + 1)
    else match TagTail(input, off + 1, 0, 0, limit)
      case Err(e) => Err(e)
      case Ok(t) => if t.1 < 31 || t.1 > MAX_INT32 then Err(UnsupportedTag) else Ok(t.0)
  }

  datatype Length = Length(form: LenForm, length: nat, end: nat)

  /** The length octets at p; a definite length must fit before limit. */
  function ParseLength(input: seq<Byte>, p: nat, limit: nat, constructed: bool): Result<Length>
    requires limit <= |input|
  {
    if p >= limit then Err(Truncated)
    else
      var l := input[p];
      if l < 128 then
        if l > limit - (p + 1) then Err(Truncated) else Ok(Length(Short, l, p + 1))
      else if l == 128 then
        if !constructed then Err(IndefinitePrimitive) else Ok(Length(Indefinite, 0, p + 1))
      else if l == 255 || l - 128 > 4 then Err(UnsupportedLength)
      else
        var k := l - 128;
        if p + 1 + k > limit then Err(Truncated)
        else
          var v := FromBytes(input[p + 1..p + 1 + k]);
          if v > limit - (p + 1 + k) then Err(Truncated) else Ok(Length(Long(k), v, p + 1 + k))
  }

  /** An element, the offset after it and the context after it. */
  datatype Item = Item(node: Node, end: nat, ctx: Ctx)

  /** The content elements of a constructed element, the offset after the element and the context. */
  datatype Kids = Kids(nodes: seq<Node>, end: nat, ctx: Ctx)

  datatype Header = Header(tagEnd: nat, len: Length)

  function ParseHeader(input: seq<Byte>, off: nat, limit: nat): Result<Header>
    requires limit <= |input|
  {
    if off >= limit then Err(Truncated)
    else match ParseTag(input, off, limit)
      case Err(e) => Err(e)
      case Ok(tagEnd) =>
        match ParseLength(input, tagEnd, limit, IsConstructed(input[off]))
        case Err(e) => Err(e)
        case Ok(len) => Ok(Header(tagEnd, len))
  }

  lemma {:induction false} TagTailEnd(input: seq<Byte>, p: nat, i: nat, num: nat, limit: nat)
    requires limit <= |input| && i <= 5
    ensures var r := TagTail(input, p, i, num, limit); r.Ok? ==> p < r.value.0 <= limit
    decreases 5 - i
  {
    if i < 5 && p < limit && input[p] >= 128 {
      TagTailEnd(input, p + 1, i + 1, num * 128 + input[p] % 128, limit);
    }
  }

  /** A parsed header lies before limit, and so do definite contents. */
  lemma HeaderEnd(input: seq<Byte>, off: nat, limit: nat)
    requires limit <= |input|
    ensures var r := ParseHeader(input, off, limit);
            r.Ok? ==> off < r.value.tagEnd < r.value.len.end && r.value.len.end + r.value.len.length <= limit
  {
    if off < limit && input[off] % 32 == 31 {
      TagTailEnd(input, off + 1, 0, 0, limit);
    }
  }

  /** What is wrong with starting an element at off, before its header is read. */
  predicate StartsBadly(input: seq<Byte>, off: nat, limit: nat, depth: nat, ctx: Ctx)
    requires limit <= |input|
  {
    || depth > MAX_BER_DEPTH
    || (off < limit && if ctx.Top? then input[off] == 0 else !SegmentType(input[off], ctx.base))
  }

  function StartError(input: seq<Byte>, off: nat, limit: nat, depth: nat, ctx: Ctx): BerError
    requires limit <= |input| && StartsBadly(input, off, limit, depth, ctx)
  {
    if ctx.Top? && off < limit && input[off] == 0 then MalformedEndOfContents
    else if depth > MAX_BER_DEPTH then TooDeep
    else SegmentMismatch
  }

  predicate IsHeader(input: seq<Byte>, off: nat, limit: nat, h: Header) {
    off < h.tagEnd < h.len.end && h.len.end + h.len.length <= limit <= |input|
  }

  /** The element at off, which must end by limit. */
  function ParseItem(input: seq<Byte>, off: nat, limit: nat, depth: nat, ctx: Ctx): (r: Result<Item>)
    requires limit <= |input|
    ensures r.Ok? ==> off < r.value.end <= limit
    decreases MAX_BER_DEPTH + 1 - depth, 1, 0
  {
    if StartsBadly(input, off, limit, depth, ctx) then Err(StartError(input, off, limit, depth, ctx))
    else
      HeaderEnd(input, off, limit);
      match ParseHeader(input, off, limit)
      case Err(e) => Err(e)
      case Ok(h) =>
        if IsConstructed(input[off]) then ParseCons(input, off, limit, depth, ctx, h)
        else ParsePrim(input, off, limit, ctx, h)
  }

  function ParsePrim(input: seq<Byte>, off: nat, limit: nat, ctx: Ctx, h: Header): (r: Result<Item>)
    requires IsHeader(input, off, limit, h)
    ensures r.Ok? ==> r.value.end == h.len.end + h.len.length
  {
    var content := input[h.len.end..h.len.end + h.len.length];
    match CheckContent(content, ctx)
    case Bad => Err(MalformedBitString)
    case Good(c) => Ok(Item(Prim(input[off..h.tagEnd], h.len.form, content), h.len.end + h.len.length, c))
  }

  function ParseCons(input: seq<Byte>, off: nat, limit: nat, depth: nat, ctx: Ctx, h: Header): (r: Result<Item>)
    requires IsHeader(input, off, limit, h) && depth <= MAX_BER_DEPTH
    ensures r.Ok? ==> h.len.end <= r.value.end <= limit
    decreases MAX_BER_DEPTH + 1 - depth, 0, 0
  {
    var tag := input[off..h.tagEnd];
    match ParseKids(input, h.len.end, ContentLimit(h, limit), h.len.form.Indefinite?, depth + 1, KidCtx(tag, ctx))
    case Err(e) => Err(e)
    case Ok(k) => Ok(Item(Cons(tag, h.len.form, k.nodes), k.end, AfterKids(ctx, k.ctx)))
  }

  /** Where the contents of a constructed element must end. */
  function ContentLimit(h: Header, limit: nat): nat {
    if h.len.form.Indefinite? then limit else h.len.end + h.len.length
  }

  /** The content elements from p on, to the end of definite contents or to end-of-contents. */
  function ParseKids(input: seq<Byte>, p: nat, limit: nat, indefinite: bool, depth: nat, ctx: Ctx): (r: Result<Kids>)
    requires limit <= |input| && depth <= MAX_BER_DEPTH + 1
    ensures r.Ok? && p <= limit ==> p <= r.value.end <= limit
    decreases MAX_BER_DEPTH + 1 - depth, 2, limit - p
  {
    if p >= limit then
      if indefinite then Err(NoEndOfContents) else Ok(Kids([], p, ctx))
    else if input[p] == 0 then
      if p + 1 >= limit then Err(Truncated)
      else if input[p + 1] != 0 || !indefinite then Err(MalformedEndOfContents)
      else Ok(Kids([], p + 2, ctx))
    else
      match ParseItem(input, p, limit, depth, ctx)
      case Err(e) => Err(e)
      case Ok(item) =>
        match ParseKids(input, item.end, limit, indefinite, depth, item.ctx)
        case Err(e) => Err(e)
        case Ok(k) => Ok(Kids([item.node] + k.nodes, k.end, k.ctx))
  }

  function Depth(node: Node): nat {
    match node
    case Prim(_, _, _) => 1
    case Cons(_, _, kids) => 1 + DepthAll(kids)
  }

  function DepthAll(kids: seq<Node>): nat {
    if kids == [] then 0
    else
      var d, e := Depth(kids[0]), DepthAll(kids[1..]);
      if d < e then e else d
  }

  // Numbers in octets.

  lemma {:induction false} BytesRoundTrip(n: nat, k: nat)
    requires n < Pow256(k)
    ensures FromBytes(BigEndian(n, k)) == n
  {
    if k > 0 {
      BytesRoundTrip(n / 256, k - 1);
      assert BigEndian(n, k)[..k - 1] == BigEndian(n / 256, k - 1);
    }
  }

  lemma {:induction false} NumberRoundTrip(s: seq<Byte>)
    ensures FromBytes(s) < Pow256(|s|)
    ensures BigEndian(FromBytes(s), |s|) == s
  {
    if s != [] {
      NumberRoundTrip(s[..|s| - 1]);
      assert s == s[..|s| - 1] + [s[|s| - 1]];
    }
  }

  // Identifier octets.

  lemma {:induction false} TagTailSound(input: seq<Byte>, start: nat, p: nat, i: nat, num: nat, limit: nat)
    requires start + i == p && p <= limit <= |input| && i <= 5
    requires Continues(input[start..p]) && num == TagNumber(input[start..p]) && (i > 0 ==> input[start] != 128)
    requires TagTail(input, p, i, num, limit).Ok?
    ensures var e := TagTail(input, p, i, num, limit).value.0;
            && p < e <= limit && e - start <= 5
            && input[start] != 128 && Continues(input[start..e - 1]) && input[e - 1] < 128
            && TagTail(input, p, i, num, limit).value.1 == TagNumber(input[start..e])
    decreases 5 - i
  {
    hide TagNumber, Continues;
    assert input[start..p + 1] == input[start..p] + [input[p]];
    TagSnoc(input[start..p], input[p]);
    if input[p] >= 128 {
      TagTailSound(input, start, p + 1, i + 1, num * 128 + input[p] % 128, limit);
    }
  }

  lemma TagSnoc(s: seq<Byte>, b: Byte)
    ensures TagNumber(s + [b]) == TagNumber(s) * 128 + b % 128
    ensures Continues(s + [b]) <==> Continues(s) && b >= 128
  {
    var t := s + [b];
    assert t[..|s|] == s;
    if Continues(t) {
      forall i | 0 <= i < |s|
        ensures s[i] >= 128
      {
        assert t[i] == s[i];
      }
      assert t[|s|] == b;
    }
  }

  lemma SliceOfSlice<T>(s: seq<T>, a: nat, b: nat, i: nat, j: nat)
    requires a <= b <= |s| && i <= j <= b - a
    ensures s[a..b][i..j] == s[a + i..a + j]
  {
    var u := s[a..b];
    forall k | 0 <= k < j - i
      ensures u[i..j][k] == s[a + i..a + j][k]
    {
      assert u[i..j][k] == u[i + k] == s[a + i + k];
    }
  }

  lemma TagSound(input: seq<Byte>, off: nat, limit: nat)
    requires off < limit <= |input| && input[off] != 0 && ParseTag(input, off, limit).Ok?
    ensures var e := ParseTag(input, off, limit).value; off < e <= limit && ValidTag(input[off..e])
  {
    if input[off] % 32 == 31 {
      TagTailSound(input, off + 1, off + 1, 0, 0, limit);
      var e := ParseTag(input, off, limit).value;
      var tag := input[off..e];
      SliceOfSlice(input, off, e, 1, |tag| - 1);
      SliceOfSlice(input, off, e, 1, |tag|);
      assert tag[1..] == tag[1..|tag|];
    }
  }

  lemma {:induction false} TagTailComplete(input: seq<Byte>, start: nat, p: nat, i: nat, num: nat, limit: nat, e: nat)
    requires start + i == p < e <= limit <= |input| && e - start <= 5
    requires input[start] != 128 && Continues(input[start..e - 1]) && input[e - 1] < 128
    requires num == TagNumber(input[start..p])
    ensures TagTail(input, p, i, num, limit) == Ok((e, TagNumber(input[start..e])))
    decreases e - p
  {
    assert input[start..p + 1][..i] == input[start..p];
    if p < e - 1 {
      assert input[start..e - 1][i] == input[p];
      TagTailComplete(input, start, p + 1, i + 1, num * 128 + input[p] % 128, limit, e);
    }
  }

  lemma TagComplete(input: seq<Byte>, off: nat, limit: nat, tag: seq<Byte>)
    requires ValidTag(tag) && off + |tag| <= limit <= |input| && input[off..off + |tag|] == tag
    ensures ParseTag(input, off, limit) == Ok(off + |tag|)
  {
    var e := off + |tag|;
    assert input[off] == tag[0];
    if tag[0] % 32 == 31 {
      SliceOfSlice(input, off, e, 1, |tag| - 1);
      SliceOfSlice(input, off, e, 1, |tag|);
      assert tag[1..] == tag[1..|tag|];
      assert tag[1] == input[off + 1] && tag[|tag| - 1] == input[e - 1];
      assert input[off + 1..off + 1] == [];
      TagTailComplete(input, off + 1, off + 1, 0, 0, limit, e);
    }
  }

  // Length octets.

  lemma LengthSound(input: seq<Byte>, p: nat, limit: nat, constructed: bool)
    requires limit <= |input| && ParseLength(input, p, limit, constructed).Ok?
    ensures var l := ParseLength(input, p, limit, constructed).value;
            && p < l.end && l.end + l.length <= limit && ValidLen(l.form, l.length)
            && input[p..l.end] == LenBytes(l.form, l.length)
            && (l.form.Indefinite? ==> constructed && l.length == 0)
  {
    hide FromBytes, BigEndian, Pow256;
    var l := ParseLength(input, p, limit, constructed).value;
    if l.form.Long? {
      NumberRoundTrip(input[p + 1..l.end]);
      assert input[p..l.end] == [input[p]] + input[p + 1..l.end];
    }
  }

  lemma LengthComplete(input: seq<Byte>, p: nat, limit: nat, constructed: bool, form: LenForm, n: nat)
    requires ValidLen(form, n) && (form.Indefinite? ==> constructed)
    requires p + |LenBytes(form, n)| <= limit <= |input| && input[p..p + |LenBytes(form, n)|] == LenBytes(form, n)
    requires !form.Indefinite? ==> p + |LenBytes(form, n)| + n <= limit
    ensures ParseLength(input, p, limit, constructed)
         == Ok(Length(form, if form.Indefinite? then 0 else n, p + |LenBytes(form, n)|))
  {
    hide FromBytes, BigEndian, Pow256;
    var s := LenBytes(form, n);
    assert input[p] == s[0];
    if form.Long? {
      SliceOfSlice(input, p, p + |s|, 1, |s|);
      assert s[1..|s|] == s[1..] == BigEndian(n, form.octets);
      BytesRoundTrip(n, form.octets);
    }
  }
}
