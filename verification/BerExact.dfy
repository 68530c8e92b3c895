/** The decoder accepts exactly the encodings: what it returns unparses to the octets it read, and every
    allowed encoding is decoded to itself. */
module BerExact {
  import opened BerSyntax
  import opened BerParser

  lemma Joined(input: seq<Byte>, a: nat, b: nat, c: nat)
    requires a <= b <= c <= |input|
    ensures input[a..c] == input[a..b] + input[b..c]
  {
  }

  /** A parsed header is a valid identifier and length octets that encode the length. */
  lemma HeaderSound(input: seq<Byte>, off: nat, limit: nat)
    requires limit <= |input| && ParseHeader(input, off, limit).Ok? && input[off] != 0
    ensures var h := ParseHeader(input, off, limit).value;
            && off < h.tagEnd < h.len.end && h.len.end + h.len.length <= limit
            && ValidTag(input[off..h.tagEnd]) && ValidLen(h.len.form, h.len.length)
            && input[h.tagEnd..h.len.end] == LenBytes(h.len.form, h.len.length)
            && (h.len.form.Indefinite? ==> IsConstructed(input[off]) && h.len.length == 0)
  {
    hide ParseTag, ParseLength, ValidTag, LenBytes;
    HeaderEnd(input, off, limit);
    TagSound(input, off, limit);
    LengthSound(input, ParseTag(input, off, limit).value, limit, IsConstructed(input[off]));
  }

  /** The header of an encoding is parsed as it was written. */
  lemma HeaderComplete(input: seq<Byte>, off: nat, limit: nat, tag: seq<Byte>, form: LenForm, n: nat)
    requires ValidTag(tag) && ValidLen(form, n) && (form.Indefinite? ==> IsConstructed(tag[0]))
    requires var hdr := tag + LenBytes(form, n);
             && off + |hdr| + (if form.Indefinite? then 0 else n) <= limit <= |input|
             && input[off..off + |hdr|] == hdr
    ensures input[off] == tag[0] && input[off..off + |tag|] == tag
    ensures ParseHeader(input, off, limit)
         == Ok(Header(off + |tag|, Length(form, if form.Indefinite? then 0 else n, off + |tag| + |LenBytes(form, n)|)))
  {
    hide ParseTag, ParseLength, ValidTag, LenBytes, IsConstructed;
    NonEmptyTag(tag);
    Halves(input, off, tag, LenBytes(form, n));
    TagComplete(input, off, limit, tag);
    LengthComplete(input, off + |tag|, limit, IsConstructed(tag[0]), form, n);
  }

  lemma Halves<T>(input: seq<T>, off: nat, a: seq<T>, b: seq<T>)
    requires off + |a + b| <= |input| && input[off..off + |a + b|] == a + b
    ensures input[off..off + |a|] == a && input[off + |a|..off + |a| + |b|] == b
    ensures a != [] ==> input[off] == a[0]
  {
    var u := a + b;
    assert u[..|a|] == a && u[|a|..|u|] == b;
    SliceOfSlice(input, off, off + |u|, 0, |a|);
    SliceOfSlice(input, off, off + |u|, |a|, |u|);
    assert a != [] ==> input[off] == input[off..off + |u|][0];
  }

  lemma CheckPrim(tag: seq<Byte>, form: LenForm, content: seq<Byte>, ctx: Ctx)
    requires ValidTag(tag) && FitsCtx(tag, ctx) && !IsConstructed(tag[0]) && !form.Indefinite?
      && ValidLen(form, |content|)
    ensures Check(Prim(tag, form, content), ctx) == CheckContent(content, ctx)
  {
  }

  lemma CheckCons(tag: seq<Byte>, form: LenForm, kids: seq<Node>, ctx: Ctx)
    requires ValidTag(tag) && FitsCtx(tag, ctx) && IsConstructed(tag[0]) && ValidLen(form, |UnparseAll(kids)|)
    requires CheckAll(kids, KidCtx(tag, ctx)).Good?
    ensures Check(Cons(tag, form, kids), ctx) == Good(AfterKids(ctx, CheckAll(kids, KidCtx(tag, ctx)).ctx))
  {
  }

  /** item is an encoding that starts at off. */
  ghost predicate Encodes(input: seq<Byte>, off: nat, depth: nat, ctx: Ctx, item: Item) {
    && off <= item.end <= |input|
    && input[off..item.end] == Unparse(item.node)
    && Check(item.node, ctx) == Good(item.ctx)
    && Depth(item.node) + depth <= MAX_BER_DEPTH + 1
  }

  lemma {:induction false} ItemSound(input: seq<Byte>, off: nat, limit: nat, depth: nat, ctx: Ctx)
    requires limit <= |input| && ParseItem(input, off, limit, depth, ctx).Ok?
    requires off < limit && input[off] != 0
    ensures Encodes(input, off, depth, ctx, ParseItem(input, off, limit, depth, ctx).value)
    decreases MAX_BER_DEPTH + 1 - depth, 1
  {
    hide ParseHeader, SegmentType, Encodes, ParseCons, ParsePrim;
    HeaderEnd(input, off, limit);
    var h := ParseHeader(input, off, limit).value;
    if IsConstructed(input[off]) {
      ConsSound(input, off, limit, depth, ctx);
    } else {
      PrimSound(input, off, limit, depth, ctx);
    }
  }

  /** The element at off starts well and has the header h. */
  ghost predicate HasHeader(input: seq<Byte>, off: nat, limit: nat, depth: nat, ctx: Ctx) {
    && off < limit <= |input| && input[off] != 0 && ParseHeader(input, off, limit).Ok?
    && !StartsBadly(input, off, limit, depth, ctx)
  }

  lemma PrimSound(input: seq<Byte>, off: nat, limit: nat, depth: nat, ctx: Ctx)
    requires HasHeader(input, off, limit, depth, ctx) && !IsConstructed(input[off])
    requires ParseItem(input, off, limit, depth, ctx).Ok?
    ensures Encodes(input, off, depth, ctx, ParseItem(input, off, limit, depth, ctx).value)
  {
    hide ParseHeader, ValidTag, ValidLen, IsString, LenBytes, CheckContent, Check, SegmentType, ParseCons;
    HeaderSound(input, off, limit);
    var h := ParseHeader(input, off, limit).value;
    var tag, start, end := input[off..h.tagEnd], h.len.end, h.len.end + h.len.length;
    Joined(input, off, h.tagEnd, end);
    Joined(input, h.tagEnd, start, end);
    CheckPrim(tag, h.len.form, input[start..end], ctx);
  }

  lemma {:induction false} ConsSound(input: seq<Byte>, off: nat, limit: nat, depth: nat, ctx: Ctx)
    requires HasHeader(input, off, limit, depth, ctx) && IsConstructed(input[off])
    requires ParseItem(input, off, limit, depth, ctx).Ok?
    ensures Encodes(input, off, depth, ctx, ParseItem(input, off, limit, depth, ctx).value)
    decreases MAX_BER_DEPTH + 1 - depth, 0
  {
    hide ParseHeader, ValidTag, ValidLen, IsString, LenBytes, KidCtx, AfterKids, Check, CheckAll, SegmentType,
         ParseKids, ParsePrim,
      Unparse, UnparseAll, Depth, DepthAll;
    HeaderSound(input, off, limit);
    var h := ParseHeader(input, off, limit).value;
    var tag, start, l := input[off..h.tagEnd], h.len.end, ContentLimit(h, limit);
    KidsSound(input, start, l, h.len.form.Indefinite?, depth + 1, KidCtx(tag, ctx));
    var k := ParseKids(input, start, l, h.len.form.Indefinite?, depth + 1, KidCtx(tag, ctx)).value;
    Joined(input, off, h.tagEnd, k.end);
    Joined(input, h.tagEnd, start, k.end);
    IndefiniteLength(h.len.form, h.len.length, |UnparseAll(k.nodes)|);
    CheckCons(tag, h.len.form, k.nodes, ctx);
    ConsUnparses(tag, h.len.form, k.nodes, input[off..k.end], input[h.tagEnd..start], input[start..k.end]);
    ConsDepth(tag, h.len.form, k.nodes, depth);
  }

  lemma ConsUnparses(tag: seq<Byte>, form: LenForm, kids: seq<Node>, whole: seq<Byte>, len: seq<Byte>, body: seq<Byte>)
    requires whole == tag + (len + body) && len == LenBytes(form, |UnparseAll(kids)|)
    requires body == UnparseAll(kids) + EndOfContents(form)
    ensures whole == Unparse(Cons(tag, form, kids))
  {
    hide LenBytes, UnparseAll, EndOfContents;
    var u, e := UnparseAll(kids), EndOfContents(form);
    assert tag + (len + (u + e)) == tag + len + u + e;
  }

  lemma ConsDepth(tag: seq<Byte>, form: LenForm, kids: seq<Node>, depth: nat)
    requires DepthAll(kids) + (depth + 1) <= MAX_BER_DEPTH + 1
    ensures Depth(Cons(tag, form, kids)) + depth <= MAX_BER_DEPTH + 1
  {
  }

  /** The octets of the indefinite form do not depend on the length. */
  lemma IndefiniteLength(form: LenForm, n: nat, m: nat)
    requires ValidLen(form, n) && (n == m || form.Indefinite?)
    ensures LenBytes(form, n) == LenBytes(form, m) && ValidLen(form, m)
  {
  }

  lemma {:induction false} KidsSound(input: seq<Byte>, p: nat, limit: nat, indefinite: bool, depth: nat, ctx: Ctx)
    requires p <= limit <= |input| && depth <= MAX_BER_DEPTH + 1
    requires ParseKids(input, p, limit, indefinite, depth, ctx).Ok?
    ensures var k := ParseKids(input, p, limit, indefinite, depth, ctx).value;
            && input[p..k.end] == UnparseAll(k.nodes) + EndOfContents(if indefinite then Indefinite else Short)
            && CheckAll(k.nodes, ctx) == Good(k.ctx)
            && DepthAll(k.nodes) + depth <= MAX_BER_DEPTH + 1
            && (!indefinite ==> k.end == limit)
    decreases MAX_BER_DEPTH + 1 - depth, 2, limit - p
  {
    hide Unparse, Check, Depth, ParseItem;
    if p < limit && input[p] != 0 {
      ItemSound(input, p, limit, depth, ctx);
      var item := ParseItem(input, p, limit, depth, ctx).value;
      KidsSound(input, item.end, limit, indefinite, depth, item.ctx);
      var k := ParseKids(input, p, limit, indefinite, depth, ctx).value;
      Joined(input, p, item.end, k.end);
      assert k.nodes[1..] == ParseKids(input, item.end, limit, indefinite, depth, item.ctx).value.nodes;
    }
  }

  lemma UnparseStarts(node: Node, ctx: Ctx)
    requires Check(node, ctx).Good?
    ensures |Unparse(node)| >= 2 && Unparse(node)[0] == node.tag[0] != 0
  {
  }

  lemma {:induction false} ItemComplete(input: seq<Byte>, off: nat, limit: nat, depth: nat, ctx: Ctx, node: Node)
    requires Check(node, ctx).Good? && Depth(node) + depth <= MAX_BER_DEPTH + 1
    requires off + |Unparse(node)| <= limit <= |input| && input[off..off + |Unparse(node)|] == Unparse(node)
    ensures ParseItem(input, off, limit, depth, ctx) == Ok(Item(node, off + |Unparse(node)|, Check(node, ctx).ctx))
    decreases node, 1
  {
    if node.Prim? {
      PrimComplete(input, off, limit, depth, ctx, node);
    } else {
      ConsComplete(input, off, limit, depth, ctx, node);
    }
  }

  lemma {:induction false} ConsComplete(input: seq<Byte>, off: nat, limit: nat, depth: nat, ctx: Ctx, node: Node)
    requires node.Cons? && Check(node, ctx).Good? && Depth(node) + depth <= MAX_BER_DEPTH + 1
    requires off + |Unparse(node)| <= limit <= |input| && input[off..off + |Unparse(node)|] == Unparse(node)
    ensures ParseItem(input, off, limit, depth, ctx) == Ok(Item(node, off + |Unparse(node)|, Check(node, ctx).ctx))
    decreases node, 0
  {
    hide ParseHeader, ValidTag, ValidLen, LenBytes, KidCtx, AfterKids, ParseItem, ParseKids, Check, CheckAll, Unparse,
         UnparseAll,
      FitsCtx, EndOfContents, Depth, DepthAll;
    ConsParts(node, ctx);
    NonEmptyTag(node.tag);
    ConsLayout(input, off, limit, ctx, node);
    var tag, form, body := node.tag, node.form, UnparseAll(node.kids);
    var start := off + |tag + LenBytes(form, |body|)|;
    HeaderComplete(input, off, limit, tag, form, |body|);
    var l := if form.Indefinite? then limit else start + |body|;
    KidsComplete(input, start, l, form.Indefinite?, depth + 1, KidCtx(tag, ctx), node.kids);
    HeaderEnd(input, off, limit);
    ConsParses(input, off, limit, depth, ctx, node);
  }

  /** Where the header, the contents and the end of contents of a constructed element lie. */
  lemma ConsLayout(input: seq<Byte>, off: nat, limit: nat, ctx: Ctx, node: Node)
    requires node.Cons? && Check(node, ctx).Good?
    requires off + |Unparse(node)| <= limit <= |input| && input[off..off + |Unparse(node)|] == Unparse(node)
    ensures var body := UnparseAll(node.kids);
      var hdr := node.tag + LenBytes(node.form, |body|);
      var start := off + |hdr|;
      var end := start + |body|;
      && end <= limit && input[off..start] == hdr && input[start..end] == body
      && (node.form.Indefinite? ==> end + 2 <= limit && input[end] == 0 && input[end + 1] == 0)
      && off + |Unparse(node)| == end + (if node.form.Indefinite? then 2 else 0)
  {
    hide Check, Unparse, UnparseAll, LenBytes, KidCtx, CheckAll, AfterKids, ValidTag, ValidLen, FitsCtx;
    ConsParts(node, ctx);
    var body := UnparseAll(node.kids);
    SplitAt(input, off, node.tag + LenBytes(node.form, |body|), body, EndOfContents(node.form));
    if node.form.Indefinite? {
      var end := off + |node.tag + LenBytes(node.form, |body|)| + |body|;
      assert input[end..end + 2] == [0, 0];
    }
  }

  /** What an allowed constructed element consists of. */
  lemma ConsParts(node: Node, ctx: Ctx)
    requires node.Cons? && Check(node, ctx).Good?
    ensures ValidTag(node.tag) && node.tag != [] && FitsCtx(node.tag, ctx) && IsConstructed(node.tag[0])
    ensures ValidLen(node.form, |UnparseAll(node.kids)|)
    ensures var c := CheckAll(node.kids, KidCtx(node.tag, ctx));
      c.Good? && Check(node, ctx) == Good(AfterKids(ctx, c.ctx))
    ensures var body := UnparseAll(node.kids);
      Unparse(node) == node.tag + LenBytes(node.form, |body|) + body + EndOfContents(node.form)
    ensures DepthAll(node.kids) == Depth(node) - 1
  {
    hide ValidTag, ValidLen, IsString, LenBytes, KidCtx, AfterKids, SegmentType, CheckAll, UnparseAll;
    assert ValidTag(node.tag);
    NonEmptyTag(node.tag);
  }

  /** An element whose header and contents parse is parsed. */
  lemma ConsParses(input: seq<Byte>, off: nat, limit: nat, depth: nat, ctx: Ctx, node: Node)
    requires node.Cons? && node.tag != [] && node.tag[0] != 0 && FitsCtx(node.tag, ctx) && IsConstructed(node.tag[0])
    requires off < limit <= |input| && input[off] == node.tag[0] && depth <= MAX_BER_DEPTH
    requires ParseHeader(input, off, limit).Ok?
    requires var h := ParseHeader(input, off, limit).value;
      && IsHeader(input, off, limit, h) && input[off..h.tagEnd] == node.tag && h.len.form == node.form
      && var k := ParseKids(input, h.len.end, ContentLimit(h, limit), h.len.form.Indefinite?, depth + 1,
                            KidCtx(node.tag, ctx));
         k.Ok? && k.value.nodes == node.kids
    ensures var h := ParseHeader(input, off, limit).value;
      var k := ParseKids(input, h.len.end, ContentLimit(h, limit), h.len.form.Indefinite?, depth + 1,
                         KidCtx(node.tag, ctx)).value;
      ParseItem(input, off, limit, depth, ctx) == Ok(Item(node, k.end, AfterKids(ctx, k.ctx)))
  {
    hide ParseHeader, KidCtx, AfterKids, ParseKids, ParsePrim, SegmentType;
  }

  lemma PrimComplete(input: seq<Byte>, off: nat, limit: nat, depth: nat, ctx: Ctx, node: Node)
    requires node.Prim? && Check(node, ctx).Good? && Depth(node) + depth <= MAX_BER_DEPTH + 1
    requires off + |Unparse(node)| <= limit <= |input| && input[off..off + |Unparse(node)|] == Unparse(node)
    ensures ParseItem(input, off, limit, depth, ctx) == Ok(Item(node, off + |Unparse(node)|, Check(node, ctx).ctx))
  {
    hide ParseHeader, ValidTag, ValidLen, IsString, LenBytes, CheckContent, SegmentType, ParseCons;
    NonEmptyTag(node.tag);
    var tag, form, content := node.tag, node.form, node.content;
    var hdr := tag + LenBytes(form, |content|);
    assert Unparse(node) == hdr + content + [];
    SplitAt(input, off, hdr, content, []);
    HeaderComplete(input, off, limit, tag, form, |content|);
  }

  lemma SplitAt<T>(input: seq<T>, off: nat, a: seq<T>, b: seq<T>, c: seq<T>)
    requires off + |a + b + c| <= |input| && input[off..off + |a + b + c|] == a + b + c
    ensures input[off..off + |a|] == a && input[off + |a|..off + |a| + |b|] == b
    ensures input[off + |a| + |b|..off + |a| + |b| + |c|] == c
  {
    var u := a + b + c;
    assert u[..|a|] == a && u[|a|..|a| + |b|] == b && u[|a| + |b|..|u|] == c;
    SliceOfSlice(input, off, off + |u|, 0, |a|);
    SliceOfSlice(input, off, off + |u|, |a|, |a| + |b|);
    SliceOfSlice(input, off, off + |u|, |a| + |b|, |u|);
  }

  lemma {:induction false} KidsComplete(input: seq<Byte>, p: nat, limit: nat, indefinite: bool, depth: nat, ctx: Ctx,
                                        kids: seq<Node>)
    requires CheckAll(kids, ctx).Good? && DepthAll(kids) + depth <= MAX_BER_DEPTH + 1
    requires var q := p + |UnparseAll(kids)|;
             && q <= limit <= |input| && input[p..q] == UnparseAll(kids)
             && if indefinite then q + 2 <= limit && input[q] == 0 && input[q + 1] == 0 else q == limit
    ensures ParseKids(input, p, limit, indefinite, depth, ctx)
         == Ok(Kids(kids, p + |UnparseAll(kids)| + (if indefinite then 2 else 0), CheckAll(kids, ctx).ctx))
    decreases kids, 2
  {
    hide Unparse, Check, Depth, ParseItem, ParseKids;
    if kids != [] {
      var u, rest := Unparse(kids[0]), UnparseAll(kids[1..]);
      assert UnparseAll(kids) == u + rest;
      UnparseStarts(kids[0], ctx);
      assert u + rest == u + rest + [];
      SplitAt(input, p, u, rest, []);
      Halves(input, p, u, rest);
      ItemComplete(input, p, limit, depth, ctx, kids[0]);
      KidsComplete(input, p + |u|, limit, indefinite, depth, Check(kids[0], ctx).ctx, kids[1..]);
      OneKid(input, p, limit, indefinite, depth, ctx);
      assert kids == [kids[0]] + kids[1..];
    } else {
      NoKids(input, p, limit, indefinite, depth, ctx);
    }
  }

  lemma OneKid(input: seq<Byte>, p: nat, limit: nat, indefinite: bool, depth: nat, ctx: Ctx)
    requires p < limit <= |input| && depth <= MAX_BER_DEPTH + 1 && input[p] != 0
    requires ParseItem(input, p, limit, depth, ctx).Ok?
    ensures var item := ParseItem(input, p, limit, depth, ctx).value;
      var more := ParseKids(input, item.end, limit, indefinite, depth, item.ctx);
      more.Ok? ==>
        ParseKids(input, p, limit, indefinite, depth, ctx) ==
        Ok(Kids([item.node] + more.value.nodes, more.value.end, more.value.ctx))
  {
    hide ParseItem;
  }

  lemma NoKids(input: seq<Byte>, p: nat, limit: nat, indefinite: bool, depth: nat, ctx: Ctx)
    requires depth <= MAX_BER_DEPTH + 1 && limit <= |input|
    requires if indefinite then p + 2 <= limit && input[p] == 0 && input[p + 1] == 0 else p == limit
    ensures ParseKids(input, p, limit, indefinite, depth, ctx) == Ok(Kids([], p + (if indefinite then 2 else 0), ctx))
  {
    hide ParseItem;
  }

  /** The decoder accepts input[off..] exactly when a prefix of it within limit is an allowed encoding, and
      then it returns that encoding's tree. */
  lemma DecoderIsExact(input: seq<Byte>, off: nat, limit: nat, node: Node, end: nat)
    requires off < limit <= |input|
    ensures (ParseItem(input, off, limit, 1, Top).Ok? && ParseItem(input, off, limit, 1, Top).value.node == node
             && ParseItem(input, off, limit, 1, Top).value.end == end)
       <==> (off <= end <= limit && input[off..end] == Unparse(node) && Check(node, Top).Good?
             && Depth(node) <= MAX_BER_DEPTH)
  {
    hide Unparse, Check, Depth, ParseItem;
    var r := ParseItem(input, off, limit, 1, Top);
    if r.Ok? {
      TopStarts(input, off, limit);
      ItemSound(input, off, limit, 1, Top);
    }
    if off <= end <= limit && input[off..end] == Unparse(node) && Check(node, Top).Good?
       && Depth(node) <= MAX_BER_DEPTH {
      ItemComplete(input, off, limit, 1, Top, node);
    }
  }

  lemma TopStarts(input: seq<Byte>, off: nat, limit: nat)
    requires limit <= |input| && ParseItem(input, off, limit, 1, Top).Ok?
    ensures off < limit && input[off] != 0
  {
  }
}
