/** The normalizer as the program runs it: one walk that checks, records or emits, depending on the pass,
    and a driver that runs the passes.  The output is proved to be the DER form of the input. */
module BerNormalizer {
  import opened BerSyntax
  import opened BerParser
  import opened BerExact
  import opened BerDer
  import opened BerRecords
  import opened BerOctets

  datatype Pass = CheckPass | RecordPass | EmitPass

  /** The number of octets of the minimal length for n. */
  method BerLenSize(n: nat) returns (size: nat)
    ensures size == |LenBytes(MinForm(n), n)|
  {
    if n < 128 {
      return 1;
    }
    size := 1;
    var m := n;
    while m > 0
      invariant size + Octets(m) == 1 + Octets(n)
    {
      size := size + 1;
      m := m / 256;
    }
  }

  /** n without its i lowest octets. */
  function Shift(n: nat, i: nat): nat {
    if i == 0 then n else Shift(n / 256, i - 1)
  }

  lemma {:induction false} ShiftOnce(n: nat, i: nat)
    ensures Shift(n, i) / 256 == Shift(n, i + 1)
  {
    if i > 0 {
      ShiftOnce(n / 256, i - 1);
    }
  }

  lemma {:induction false} ShiftOut(n: nat)
    ensures Shift(n, Octets(n)) == 0
  {
    if n > 0 {
      ShiftOut(n / 256);
    }
  }

  /** Appends the minimal length octets of n. */
  method AppendBERLength(out: seq<Byte>, n: nat) returns (r: seq<Byte>)
    ensures r == out + LenBytes(MinForm(n), n)
  {
    if n < 128 {
      return out + [n];
    }
    var size := BerLenSize(n);
    var k := size - 1;
    r := out + [(128 + k) % 256];
    var i := k;
    ShiftOut(n);
    while i > 0
      invariant 0 <= i <= k
      invariant r == out + [(128 + k) % 256] + BigEndian(Shift(n, i), k - i)
    {
      i := i - 1;
      ShiftOnce(n, i);
      r := r + [Shift(n, i) % 256];
    }
  }

  /** Where non-zero bytes follow the element: its end, and the distance from there past the last of them. */
  datatype Tail = Tail(offset: nat, count: nat)

  /** tail describes the bytes of input from end on: 0 when all are zero. */
  ghost predicate IsTail(input: seq<Byte>, end: nat, tail: Tail) {
    if forall i :: end <= i < |input| ==> input[i] == 0 then tail == Tail(0, 0)
    else
      && tail.offset == end && 0 < tail.count <= |input| - end && input[end + tail.count - 1] != 0
      && forall i :: end + tail.count <= i < |input| ==> input[i] == 0
  }

  datatype Normalized = Normalized(der: seq<Byte>, isBER: bool, end: nat, tail: Tail)

  /** The state of a pass. */
  datatype Marks = Marks(pass: Pass, ber: bool, lens: seq<nat>, unused: seq<Byte>, nextLen: nat, nextUnused: nat,
                         out: seq<Byte>)

  /** From a to b a pass detects an encoding that is not der, records or consumes l and u, and emits bytes. */
  ghost predicate Moved(a: Marks, b: Marks, der: bool, l: seq<nat>, u: seq<Byte>, bytes: seq<Byte>) {
    && b.pass == a.pass
    && b.ber == (a.ber || !der)
    && b.lens == a.lens + (if a.pass.RecordPass? then l else [])
    && b.unused == a.unused + (if a.pass.RecordPass? then u else [])
    && b.out == a.out + (if a.pass.EmitPass? then bytes else [])
    && b.nextLen == a.nextLen + (if a.pass.EmitPass? then |l| else 0)
    && b.nextUnused == a.nextUnused + (if a.pass.EmitPass? then |u| else 0)
  }

  /** A constructed element: opened from a to b with content length n, its contents from b to c, and from c to d its
      length recorded. */
  lemma GroupMoves(a: Marks, b: Marks, c: Marks, d: Marks, der: bool, n: nat, l: seq<nat>, u: seq<Byte>,
                   head: seq<Byte>, body: seq<Byte>)
    requires b == a.(out := a.out + (if a.pass.EmitPass? then head else []),
                     nextLen := a.nextLen + (if a.pass.EmitPass? then 1 else 0),
                     lens := a.lens + (if a.pass.RecordPass? then [0] else []))
    requires Moved(b, c, der, l, u, body)
    requires d == if a.pass.RecordPass? && |a.lens| < |c.lens| then c.(lens := c.lens[|a.lens| := n]) else c
    ensures Moved(a, d, der, [n] + l, u, head + body)
  {
    assert a.out + head + body == a.out + (head + body);
    assert (a.lens + [0] + l)[|a.lens| := n] == a.lens + ([n] + l);
    assert a.lens + [] == a.lens && a.out + [] == a.out;
  }

  /** A flattened string: opened from a to b with its length n and for a BIT STRING its unused bits x, its segments
      from b to c, and from c to d both recorded. */
  lemma StringMoves(a: Marks, b: Marks, c: Marks, d: Marks, n: nat, bits: bool, x: Byte, head: seq<Byte>,
                    body: seq<Byte>)
    requires b == a.(ber := true, out := a.out + (if a.pass.EmitPass? then head + (if bits then [x] else []) else []),
                     nextLen := a.nextLen + (if a.pass.EmitPass? then 1 else 0),
                     nextUnused := a.nextUnused + (if a.pass.EmitPass? && bits then 1 else 0),
                     lens := a.lens + (if a.pass.RecordPass? then [0] else []),
                     unused := a.unused + (if a.pass.RecordPass? && bits then [0] else []))
    requires c == b.(out := b.out + (if a.pass.EmitPass? then body else []))
    requires d == c.(lens := if a.pass.RecordPass? then a.lens + [n] else c.lens,
                     unused := if a.pass.RecordPass? && bits then a.unused + [x] else c.unused)
    ensures Moved(a, d, false, [n], if bits then [x] else [], head + (if bits then [x] else []) + body)
  {
    var h := head + (if bits then [x] else []);
    assert a.out + h + body == a.out + (h + body);
    assert a.lens + [] == a.lens && a.out + [] == a.out && a.unused + [] == a.unused;
  }

  lemma PrimEmitted(tag: seq<Byte>, form: LenForm, content: seq<Byte>)
    ensures Emitted(Prim(tag, form, content)) == tag + LenBytes(MinForm(|content|), |content|) + content
  {
    hide LenBytes, MinForm;
  }

  class Normalizer {
    const input: seq<Byte>
    var lens: seq<nat>
    var unused: seq<Byte>
    var nextLen: nat
    var nextUnused: nat
    var out: seq<Byte>
    var pass: Pass
    var ber: bool

    constructor (input: seq<Byte>)
      ensures this.input == input && pass == CheckPass && !ber
      ensures lens == [] && unused == [] && nextLen == 0 && nextUnused == 0 && out == []
    {
      this.input := input;
      lens, unused, nextLen, nextUnused, out, pass, ber := [], [], 0, 0, [], CheckPass, false;
    }

    /** Parses the identifier and length octets at off. */
    method ReadHeader(off: nat, limit: nat) returns (r: Result<Header>)
      requires limit <= |input|
      modifies this`ber
      ensures r == ParseHeader(input, off, limit)
      ensures r.Ok? ==> ber == (old(ber) || r.value.len.form != MinForm(r.value.len.length))
    {
      if off >= limit {
        return Err(Truncated);
      }
      var t := ReadTag(off, limit);
      if t.Err? {
        return Err(t.error);
      }
      var l := ReadLength(t.value, limit, IsConstructed(input[off]));
      if l.Err? {
        return Err(l.error);
      }
      r := Ok(Header(t.value, l.value));
    }

    method ReadTag(off: nat, limit: nat) returns (r: Result<nat>)
      requires off < limit <= |input|
      ensures r == ParseTag(input, off, limit)
    {
      var p: nat := off + 1;
      if input[off] % 32 == 31 {
        var num: nat, i: nat := 0, 0;
        while true
          invariant i <= 5
          invariant TagTail(input, off + 1, 0, 0, limit) == TagTail(input, p, i, num, limit)
          decreases 5 - i
        {
          if i == 5 {
            return Err(UnsupportedTag);
          }
          if p >= limit {
            return Err(Truncated);
          }
          var c := input[p];
          if i == 0 && c == 128 {
            return Err(UnsupportedTag);
          }
          p := p + 1;
          num := num * 128 + c % 128;
          if c < 128 {
            break;
          }
          i := i + 1;
        }
        if num < 31 || num > MAX_INT32 {
          return Err(UnsupportedTag);
        }
      }
      r := Ok(p);
    }

    method ReadLength(p: nat, limit: nat, constructed: bool) returns (r: Result<Length>)
      requires limit <= |input|
      modifies this`ber
      ensures r == ParseLength(input, p, limit, constructed)
      ensures r.Ok? ==> ber == (old(ber) || r.value.form != MinForm(r.value.length))
    {
      hide FromBytes, LenBytes, MinForm;
      ShortIsMinimal();
      if p >= limit {
        return Err(Truncated);
      }
      var l := input[p];
      if l < 128 {
        return if l > limit - (p + 1) then Err(Truncated) else Ok(Length(Short, l, p + 1));
      } else if l == 128 {
        if !constructed {
          return Err(IndefinitePrimitive);
        }
        ber := true;
        return Ok(Length(Indefinite, 0, p + 1));
      } else if l == 255 || l - 128 > 4 {
        return Err(UnsupportedLength);
      }
      var k := l - 128;
      if p + 1 + k > limit {
        return Err(Truncated);
      }
      var v := ReadNumber(p + 1, k);
      if v > limit - (p + 1 + k) {
        return Err(Truncated);
      }
      var size := BerLenSize(v);
      if k + 1 != size {
        ber := true;
      }
      r := Ok(Length(Long(k), v, p + 1 + k));
    }

    /** The number in the k octets at p, most significant first. */
    method ReadNumber(p: nat, k: nat) returns (v: nat)
      requires 1 <= k && p + k <= |input|
      ensures v == FromBytes(input[p..p + k])
      ensures MinForm(v) == Long(k) <==> k + 1 == |LenBytes(MinForm(v), v)|
    {
      v := 0;
      for j := 0 to k
        invariant v == FromBytes(input[p..p + j])
      {
        assert input[p..p + j + 1][..j] == input[p..p + j];
        v := v * 256 + input[p + j];
      }
      NumberRoundTrip(input[p..p + k]);
      MinimalOctets(v, k);
    }

    /** What a pass does with an element. */
    twostate predicate DidNode(node: Node)
      reads this
    {
      Did(IsDer(node), Lens(node), Unused(node), Emitted(node))
    }

    /** What a pass does with a list of elements. */
    twostate predicate DidAll(nodes: seq<Node>)
      reads this
    {
      Did(AllDer(nodes), LensAll(nodes), UnusedAll(nodes), EmittedAll(nodes))
    }

    twostate predicate Did(der: bool, l: seq<nat>, u: seq<Byte>, bytes: seq<Byte>)
      reads this
    {
      Moved(old(Now()), Now(), der, l, u, bytes)
    }

    ghost function Now(): Marks
      reads this
    {
      Marks(pass, ber, lens, unused, nextLen, nextUnused, out)
    }

    /** The records an emitting pass consumes next are l and u. */
    ghost predicate Has(l: seq<nat>, u: seq<Byte>)
      reads this
    {
      pass.EmitPass? ==>
        && nextLen + |l| <= |lens| && lens[nextLen..nextLen + |l|] == l
        && nextUnused + |u| <= |unused| && unused[nextUnused..nextUnused + |u|] == u
    }

    /** An emitting pass runs only on an element that parses, and has its records. */
    ghost predicate ReadyItem(r: Result<Item>)
      reads this
    {
      pass.EmitPass? ==> r.Ok? && Has(Lens(r.value.node), Unused(r.value.node))
    }

    ghost predicate ReadyKids(r: Result<Kids>)
      reads this
    {
      pass.EmitPass? ==> r.Ok? && Has(LensAll(r.value.nodes), UnusedAll(r.value.nodes))
    }

    /** Normalizes the element at off, which must end by limit. */
    method Element(off: nat, limit: nat, depth: nat) returns (r: Result<(nat, nat)>)
      requires limit <= |input| && ReadyItem(ParseItem(input, off, limit, depth, Top))
      modifies this
      ensures r.Err? ==> ParseItem(input, off, limit, depth, Top) == Err(r.error)
      ensures r.Ok? ==>
                var p := ParseItem(input, off, limit, depth, Top);
                p.Ok? && DidNode(p.value.node) && r.value == (p.value.end, |Emitted(p.value.node)|)
      decreases MAX_BER_DEPTH + 1 - depth, 3
    {
      if off < limit && input[off] == 0 {
        return Err(MalformedEndOfContents);
      }
      if depth > MAX_BER_DEPTH {
        return Err(TooDeep);
      }
      HeaderEnd(input, off, limit);
      var hr := ReadHeader(off, limit);
      if hr.Err? {
        return Err(hr.error);
      }
      var h := hr.value;
      if IsConstructed(input[off]) {
        ConsLength(input, off, limit, depth, h);
        r := ConstructedElement(off, limit, depth, h);
      } else {
        r := PrimitiveElement(off, limit, depth, h);
      }
    }

    method PrimitiveElement(off: nat, limit: nat, ghost depth: nat, h: Header) returns (r: Result<(nat, nat)>)
      requires IsHeader(input, off, limit, h)
      modifies this
      ensures r.Ok? && ParsePrim(input, off, limit, Top, h).Ok?
      ensures var node := ParsePrim(input, off, limit, Top, h).value.node;
              Did(true, [], [], Emitted(node)) && r.value == (h.len.end + h.len.length, |Emitted(node)|)
    {
      hide Emitted, LenBytes, MinForm;
      var tag, content := input[off..h.tagEnd], input[h.len.end..h.len.end + h.len.length];
      PrimEmitted(tag, h.len.form, content);
      if pass.EmitPass? {
        out := out + tag;
        out := AppendBERLength(out, |content|);
        out := out + content;
      }
      var size := BerLenSize(|content|);
      r := Ok((h.len.end + h.len.length, |tag| + size + |content|));
    }

    method ConstructedElement(off: nat, limit: nat, depth: nat, h: Header) returns (r: Result<(nat, nat)>)
      requires IsHeader(input, off, limit, h) && depth <= MAX_BER_DEPTH
      requires ReadyItem(ParseCons(input, off, limit, depth, Top, h))
      modifies this
      ensures r.Err? ==> ParseCons(input, off, limit, depth, Top, h) == Err(r.error)
      ensures r.Ok? ==>
                var p := ParseCons(input, off, limit, depth, Top, h);
                && p.Ok? && r.value == (p.value.end, |Emitted(p.value.node)|)
                && DidCons(p.value.node)
      decreases MAX_BER_DEPTH + 1 - depth, 2
    {
      hide ParseKids, Emitted, Lens, Unused;
      if IsString(input[off..h.tagEnd]) {
        r := StringElement(off, limit, depth, h);
      } else {
        r := GroupElement(off, limit, depth, h);
      }
    }

    /** What a pass does with a constructed element, apart from detecting its length form. */
    twostate predicate DidCons(node: Node)
      requires node.Cons?
      reads this
    {
      Did(!IsString(node.tag) && AllDer(node.kids), Lens(node), Unused(node), Emitted(node))
    }

    /** A constructed element that stays constructed. */
    method GroupElement(off: nat, limit: nat, depth: nat, h: Header) returns (r: Result<(nat, nat)>)
      requires IsHeader(input, off, limit, h) && depth <= MAX_BER_DEPTH && !IsString(input[off..h.tagEnd])
      requires ReadyItem(ParseCons(input, off, limit, depth, Top, h))
      modifies this
      ensures r.Err? ==> ParseCons(input, off, limit, depth, Top, h) == Err(r.error)
      ensures r.Ok? ==>
                var p := ParseCons(input, off, limit, depth, Top, h);
                && p.Ok? && r.value == (p.value.end, |Emitted(p.value.node)|)
                && DidCons(p.value.node)
      decreases MAX_BER_DEPTH + 1 - depth, 1
    {
      hide ParseCons, ParseKids, IsString, Emitted, EmittedAll, Lens, LensAll, Unused, UnusedAll, AllDer, LenBytes,
           MinForm, KidCtx,
        AfterKids;
      var tag := input[off..h.tagEnd];
      ConsParsed(input, off, limit, depth, Top, h);
      TopContents(tag);
      var l, indefinite := ContentLimit(h, limit), h.len.form.Indefinite?;
      ghost var kids := ParseKids(input, h.len.end, l, indefinite, depth + 1, Top);
      if kids.Ok? {
        GroupRecords(Cons(tag, h.len.form, kids.value.nodes));
        if pass.EmitPass? {
          SliceHead(lens, nextLen, |EmittedAll(kids.value.nodes)|, LensAll(kids.value.nodes));
        }
      }
      var lenIdx := |lens|;
      OpenElement(tag, if kids.Ok? then |EmittedAll(kids.value.nodes)| else 0);
      ghost var begun := Now();
      var content := Elements(h.len.end, l, indefinite, depth + 1);
      if content.Err? {
        return Err(content.error);
      }
      ghost var filled := Now();
      var contentLen := content.value.1;
      if pass.RecordPass? {
        lens := lens[lenIdx := contentLen];
      }
      var size := BerLenSize(contentLen);
      ghost var nodes := kids.value.nodes;
      GroupMoves(old(Now()), begun, filled, Now(), AllDer(nodes), contentLen, LensAll(nodes), UnusedAll(nodes),
                 tag + LenBytes(MinForm(contentLen), contentLen), EmittedAll(nodes));
      r := Ok((content.value.0, |tag| + size + contentLen));
    }

    /** Starts a constructed element whose content has the given normalized length: emits its identifier and
        recorded length, or makes room for the record. */
    method OpenElement(tag: seq<Byte>, ghost contentLen: nat)
      requires pass.EmitPass? ==> nextLen < |lens| && lens[nextLen] == contentLen
      modifies this`out, this`nextLen, this`lens
      ensures out == old(out) + (if pass.EmitPass? then tag + LenBytes(MinForm(contentLen), contentLen) else [])
      ensures nextLen == old(nextLen) + (if pass.EmitPass? then 1 else 0)
      ensures lens == old(lens) + (if pass.RecordPass? then [0] else [])
    {
      hide LenBytes, MinForm;
      match pass {
        case EmitPass =>
          out := out + tag;
          out := AppendBERLength(out, lens[nextLen]);
          nextLen := nextLen + 1;
        case RecordPass =>
          lens := lens + [0];
        case CheckPass =>
      }
    }

    /** Normalizes the elements from p0 to the end of the contents. */
    method Elements(p0: nat, limit: nat, indefinite: bool, depth: nat) returns (r: Result<(nat, nat)>)
      requires p0 <= limit <= |input| && depth <= MAX_BER_DEPTH + 1
      requires ReadyKids(ParseKids(input, p0, limit, indefinite, depth, Top))
      modifies this
      ensures r.Err? ==> ParseKids(input, p0, limit, indefinite, depth, Top) == Err(r.error)
      ensures r.Ok? ==>
                var k := ParseKids(input, p0, limit, indefinite, depth, Top);
                k.Ok? && DidAll(k.value.nodes) && r.value == (k.value.end, |EmittedAll(k.value.nodes)|)
      decreases MAX_BER_DEPTH + 1 - depth, 5
    {
      hide ParseItem, ParseKids, Lens, LensAll, Unused, UnusedAll, Emitted, EmittedAll, IsDer, AllDer, Has;
      var p, contentLen := p0, 0;
      ghost var kids := ParseKids(input, p0, limit, indefinite, depth, Top);
      ghost var done: seq<Node> := [];
      NothingYet(kids);
      while true
        invariant p0 <= p <= limit
        invariant kids == Prepend(done, ParseKids(input, p, limit, indefinite, depth, Top))
        invariant DidAll(done) && contentLen == |EmittedAll(done)|
        invariant ReadyKids(ParseKids(input, p, limit, indefinite, depth, Top))
        decreases limit - p
      {
        KidsStep(input, p, limit, indefinite, depth, Top);
        match StepAt(input, p, limit, indefinite) {
          case Done(end) =>
            assert done + [] == done;
            return Ok((end, contentLen));
          case Wrong(e) =>
            return Err(e);
          case Child =>
            ghost var next := ParseItem(input, p, limit, depth, Top);
            var e := NextElement(p, limit, indefinite, depth);
            if e.Err? {
              return Err(e.error);
            }
            AppendKid(done, next.value.node);
            Assoc(old(lens), LensAll(done), Lens(next.value.node));
            Assoc(old(unused), UnusedAll(done), Unused(next.value.node));
            Assoc(old(out), EmittedAll(done), Emitted(next.value.node));
            PrependPrepend(done, [next.value.node], ParseKids(input, next.value.end, limit, indefinite, depth, Top));
            done := done + [next.value.node];
            contentLen := contentLen + e.value.1;
            p := e.value.0;
        }
      }
    }

    /** Normalizes the element at p of a list whose records come next. */
    method NextElement(p: nat, limit: nat, ghost indefinite: bool, depth: nat) returns (r: Result<(nat, nat)>)
      requires p < limit <= |input| && depth <= MAX_BER_DEPTH + 1
      requires StepAt(input, p, limit, indefinite).Child?
      requires ReadyKids(ParseKids(input, p, limit, indefinite, depth, Top))
      modifies this
      ensures r.Err? ==> ParseItem(input, p, limit, depth, Top) == Err(r.error)
      ensures r.Ok? ==>
                var i := ParseItem(input, p, limit, depth, Top);
                && i.Ok? && i.value.ctx == Top && DidNode(i.value.node)
                && r.value == (i.value.end, |Emitted(i.value.node)|)
                && ReadyKids(ParseKids(input, i.value.end, limit, indefinite, depth, Top))
      decreases MAX_BER_DEPTH + 1 - depth, 4
    {
      hide ParseItem, ParseKids, Lens, LensAll, Unused, UnusedAll, Emitted, EmittedAll, IsDer, AllDer;
      ghost var next := ParseItem(input, p, limit, depth, Top);
      KidsStep(input, p, limit, indefinite, depth, Top);
      if next.Ok? {
        ItemCtx(input, p, limit, depth, Top);
        SplitRecords(next.value.node, ParseKids(input, next.value.end, limit, indefinite, depth, Top));
      }
      r := Element(p, limit, depth);
      if r.Ok? && pass.EmitPass? {
        assert lens == old(lens) && unused == old(unused);
      }
    }

    /** The records of a list of elements are those of the first, then those of the rest. */
    lemma SplitRecords(node: Node, rest: Result<Kids>)
      requires ReadyKids(Prepend([node], rest))
      ensures pass.EmitPass? ==>
                && rest.Ok? && Has(Lens(node), Unused(node))
                && Follows(nextLen + |Lens(node)|, nextUnused + |Unused(node)|, LensAll(rest.value.nodes),
                           UnusedAll(rest.value.nodes))
    {
      hide Lens, Unused;
      if pass.EmitPass? {
        var nodes := [node] + rest.value.nodes;
        assert nodes[1..] == rest.value.nodes;
        SliceSplit(lens, nextLen, Lens(node), LensAll(rest.value.nodes));
        SliceSplit(unused, nextUnused, Unused(node), UnusedAll(rest.value.nodes));
      }
    }

    /** The records from positions i and j on are l and u. */
    ghost predicate Follows(i: nat, j: nat, l: seq<nat>, u: seq<Byte>)
      reads this`lens, this`unused
    {
      && i + |l| <= |lens| && lens[i..i + |l|] == l
      && j + |u| <= |unused| && unused[j..j + |u|] == u
    }

    /** A constructed string becomes one primitive element. */
    method StringElement(off: nat, limit: nat, depth: nat, h: Header) returns (r: Result<(nat, nat)>)
      requires IsHeader(input, off, limit, h) && depth <= MAX_BER_DEPTH && IsString(input[off..h.tagEnd])
      requires ReadyItem(ParseCons(input, off, limit, depth, Top, h))
      modifies this
      ensures r.Err? ==> ParseCons(input, off, limit, depth, Top, h) == Err(r.error)
      ensures r.Ok? ==>
                var p := ParseCons(input, off, limit, depth, Top, h);
                && p.Ok? && r.value == (p.value.end, |Emitted(p.value.node)|)
                && DidCons(p.value.node)
      decreases MAX_BER_DEPTH + 1 - depth, 1
    {
      hide ParseCons, ParseKids, IsString, Emitted, Lens, Unused, AllDer, LenBytes, StringContent, SegBytes, MinForm,
           KidCtx,
        AfterKids, LeavesAll, UnusedBits, Base, Moved;
      var tag := input[off..h.tagEnd];
      ConsParsed(input, off, limit, depth, Top, h);
      TopContents(tag);
      StringTag(tag);
      var base := Base(tag[0]);
      var l, indefinite := ContentLimit(h, limit), h.len.form.Indefinite?;
      ghost var kids := ParseKids(input, h.len.end, l, indefinite, depth + 1, Seg(base, NO_BITS));
      if kids.Ok? {
        StringRecords(input, h.len.end, l, indefinite, depth + 1, Cons(tag, h.len.form, kids.value.nodes));
        StartRecords(Cons(tag, h.len.form, kids.value.nodes));
      }
      var content := StringBody(h.len.end, l, indefinite, depth + 1, base,
                                if kids.Ok? then |StringContent(base, kids.value.nodes)| else 0,
                                if kids.Ok? then UnusedBits(LeavesAll(kids.value.nodes)) else 0);
      if content.Err? {
        return Err(content.error);
      }
      var contentLen := content.value.1;
      var size := BerLenSize(contentLen);
      StringText([base] + LenBytes(MinForm(contentLen), contentLen),
                 if base == 3 then [UnusedBits(LeavesAll(kids.value.nodes))] else [],
                 SegBytes(base, LeavesAll(kids.value.nodes)));
      r := Ok((content.value.0, |tag| + size + contentLen));
    }

    /** The flattened string of type base whose segments lie from p0 on, n octets of content, for a BIT STRING the
        unused bits x first. */
    method StringBody(p0: nat, limit: nat, indefinite: bool, depth: nat, base: Byte, ghost n: nat, ghost x: Byte)
      returns (r: Result<(nat, nat)>)
      requires p0 <= limit <= |input| && depth <= MAX_BER_DEPTH + 1
      requires pass.EmitPass? ==> nextLen < |lens| && lens[nextLen] == n
      requires pass.EmitPass? && base == 3 ==> nextUnused < |unused| && unused[nextUnused] == x
      requires var kids := ParseKids(input, p0, limit, indefinite, depth, Seg(base, NO_BITS));
               && (kids.Ok? ==> n == |SegBytes(base, LeavesAll(kids.value.nodes))| + (if base == 3 then 1 else 0))
               && (kids.Ok? && base == 3 ==> kids.value.ctx.Seg? && kids.value.ctx.bits.unused == x)
      modifies this
      ensures var kids := ParseKids(input, p0, limit, indefinite, depth, Seg(base, NO_BITS));
              && (r.Err? ==> kids == Err(r.error))
              && (r.Ok? ==>
                    && kids.Ok? && r.value == (kids.value.end, n)
                    && Moved(old(Now()), Now(), false, [n], if base == 3 then [x] else [],
                             [base] + LenBytes(MinForm(n), n) + (if base == 3 then [x] else [])
                             + SegBytes(base, LeavesAll(kids.value.nodes))))
      decreases MAX_BER_DEPTH + 1 - depth, 5
    {
      hide ParseKids, LenBytes, MinForm, SegBytes, LeavesAll, Moved;
      ber := true;
      var lenIdx, unusedIdx := |lens|, |unused|;
      OpenString(base, n, x);
      ghost var begun := Now();
      var content, bits := Segments(p0, limit, indefinite, depth, base, NO_BITS);
      if content.Err? {
        return Err(content.error);
      }
      ghost var filled := Now();
      var contentLen := content.value.1 + (if base == 3 then 1 else 0);
      RecordString(lenIdx, unusedIdx, base, contentLen, bits.unused);
      ghost var leaves := LeavesAll(ParseKids(input, p0, limit, indefinite, depth, Seg(base, NO_BITS)).value.nodes);
      StringMoves(old(Now()), begun, filled, Now(), contentLen, base == 3, bits.unused,
                  [base] + LenBytes(MinForm(contentLen), contentLen), SegBytes(base, leaves));
      r := Ok((content.value.0, contentLen));
    }

    lemma StringText(a: seq<Byte>, b: seq<Byte>, c: seq<Byte>)
      ensures (a + b) + c == a + (b + c)
    {
    }

    /** Starts a flattened string: its identifier, its length and, for a BIT STRING, its unused bits. */
    method OpenString(base: Byte, ghost contentLen: nat, ghost bits: Byte)
      requires pass.EmitPass? ==> nextLen < |lens| && lens[nextLen] == contentLen
      requires pass.EmitPass? && base == 3 ==> nextUnused < |unused| && unused[nextUnused] == bits
      modifies this`out, this`nextLen, this`lens, this`nextUnused, this`unused
      ensures out == old(out) +
        if pass.EmitPass? then [base] + LenBytes(MinForm(contentLen), contentLen) + (if base == 3 then [bits] else [])
        else []
      ensures nextLen == old(nextLen) + (if pass.EmitPass? then 1 else 0)
      ensures nextUnused == old(nextUnused) + (if pass.EmitPass? && base == 3 then 1 else 0)
      ensures lens == old(lens) + (if pass.RecordPass? then [0] else [])
      ensures unused == old(unused) + (if pass.RecordPass? && base == 3 then [0] else [])
    {
      hide LenBytes, MinForm;
      OpenElement([base], contentLen);
      if base == 3 {
        OpenBits(bits);
      }
    }

    /** Fills in what is recorded of a flattened string. */
    method RecordString(lenIdx: nat, unusedIdx: nat, base: Byte, contentLen: nat, bits: Byte)
      requires pass.RecordPass? ==> lenIdx + 1 == |lens| && (base == 3 ==> unusedIdx + 1 == |unused|)
      modifies this`lens, this`unused
      ensures lens == if pass.RecordPass? then old(lens)[..lenIdx] + [contentLen] else old(lens)
      ensures unused == if pass.RecordPass? && base == 3 then old(unused)[..unusedIdx] + [bits] else old(unused)
    {
      if pass.RecordPass? {
        lens := lens[lenIdx := contentLen];
        if base == 3 {
          unused := unused[unusedIdx := bits];
        }
      }
    }

    /** The records a flattened string consumes. */
    lemma StartRecords(node: Node)
      requires node.Cons? && IsString(node.tag) && Has(Lens(node), Unused(node))
      ensures pass.EmitPass? ==> nextLen < |lens| && lens[nextLen] == |StringContent(Base(node.tag[0]), node.kids)|
      ensures pass.EmitPass? && Base(node.tag[0]) == 3 ==>
                nextUnused < |unused| && unused[nextUnused] == UnusedBits(LeavesAll(node.kids))
    {
      if pass.EmitPass? {
        SliceHead(lens, nextLen, |StringContent(Base(node.tag[0]), node.kids)|, []);
        if Base(node.tag[0]) == 3 {
          SliceHead(unused, nextUnused, UnusedBits(LeavesAll(node.kids)), []);
        }
      }
    }

    method OpenBits(ghost bits: Byte)
      requires pass.EmitPass? ==> nextUnused < |unused| && unused[nextUnused] == bits
      modifies this`out, this`nextUnused, this`unused
      ensures out == old(out) + (if pass.EmitPass? then [bits] else [])
      ensures nextUnused == old(nextUnused) + (if pass.EmitPass? then 1 else 0)
      ensures unused == old(unused) + (if pass.RecordPass? then [0] else [])
    {
      match pass {
        case EmitPass =>
          out := out + [unused[nextUnused]];
          nextUnused := nextUnused + 1;
        case RecordPass =>
          unused := unused + [0];
        case CheckPass =>
      }
    }

    /** What a pass does inside a flattened string: it emits the segments' content octets. */
    twostate predicate Flattened(bytes: seq<Byte>)
      reads this
    {
      && pass == old(pass) && ber && lens == old(lens) && unused == old(unused)
      && nextLen == old(nextLen) && nextUnused == old(nextUnused)
      && out == old(out) + (if pass.EmitPass? then bytes else [])
    }

    /** Flattens the segments from p0 to the end of the contents of a string of type base. */
    method Segments(p0: nat, limit: nat, indefinite: bool, depth: nat, base: Byte, bits0: Bits)
      returns (r: Result<(nat, nat)>, bits: Bits)
      requires p0 <= limit <= |input| && depth <= MAX_BER_DEPTH + 1 && ber
      modifies this`ber, this`out
      ensures r.Err? ==> ParseKids(input, p0, limit, indefinite, depth, Seg(base, bits0)) == Err(r.error)
      ensures r.Ok? ==>
                var k := ParseKids(input, p0, limit, indefinite, depth, Seg(base, bits0));
                && k.Ok? && k.value.ctx == Seg(base, bits) && Flattened(SegBytes(base, LeavesAll(k.value.nodes)))
                && r.value == (k.value.end, |SegBytes(base, LeavesAll(k.value.nodes))|)
      decreases MAX_BER_DEPTH + 1 - depth, 4
    {
      hide ParseItem, ParseKids, Leaves, LeavesAll, SegBytes;
      var p, contentLen := p0, 0;
      bits := bits0;
      ghost var kids := ParseKids(input, p0, limit, indefinite, depth, Seg(base, bits0));
      ghost var done: seq<Node> := [];
      NoSegments(base, kids);
      while true
        invariant p0 <= p <= limit
        invariant kids == Prepend(done, ParseKids(input, p, limit, indefinite, depth, Seg(base, bits)))
        invariant Flattened(SegBytes(base, LeavesAll(done))) && contentLen == |SegBytes(base, LeavesAll(done))|
        decreases limit - p
      {
        KidsStep(input, p, limit, indefinite, depth, Seg(base, bits));
        match StepAt(input, p, limit, indefinite) {
          case Done(end) =>
            assert done + [] == done;
            return Ok((end, contentLen)), bits;
          case Wrong(e) =>
            return Err(e), bits;
          case Child =>
            ghost var next := ParseItem(input, p, limit, depth, Seg(base, bits));
            var e, bits' := Segment(p, limit, depth, base, bits);
            if e.Err? {
              return Err(e.error), bits;
            }
            AppendLeaves(done, next.value.node);
            AppendSegBytes(base, LeavesAll(done), Leaves(next.value.node));
            PrependPrepend(done, [next.value.node],
                           ParseKids(input, next.value.end, limit, indefinite, depth, Seg(base, bits')));
            done := done + [next.value.node];
            contentLen := contentLen + e.value.1;
            p, bits := e.value.0, bits';
        }
      }
    }

    /** Flattens one segment at off of a constructed string of type base. */
    method Segment(off: nat, limit: nat, depth: nat, base: Byte, bits0: Bits)
      returns (r: Result<(nat, nat)>, bits: Bits)
      requires off < limit <= |input| && input[off] != 0 && ber
      modifies this`ber, this`out
      ensures r.Err? ==> ParseItem(input, off, limit, depth, Seg(base, bits0)) == Err(r.error)
      ensures r.Ok? ==>
                var p := ParseItem(input, off, limit, depth, Seg(base, bits0));
                && p.Ok? && p.value.ctx == Seg(base, bits) && Flattened(SegBytes(base, Leaves(p.value.node)))
                && r.value == (p.value.end, |SegBytes(base, Leaves(p.value.node))|)
      decreases MAX_BER_DEPTH + 1 - depth, 3
    {
      hide ParseHeader, ParseKids, IsString, LeavesAll, SegBytes;
      bits := bits0;
      if depth > MAX_BER_DEPTH {
        return Err(TooDeep), bits;
      }
      if !SegmentType(input[off], base) {
        return Err(SegmentMismatch), bits;
      }
      HeaderEnd(input, off, limit);
      var hr := ReadHeader(off, limit);
      if hr.Err? {
        return Err(hr.error), bits;
      }
      var h := hr.value;
      if !IsConstructed(input[off]) {
        r, bits := PrimitiveSegment(off, limit, base, bits, h);
        return;
      }
      var segBase := Base(input[off]);
      ghost var ctx := Seg(segBase, bits);
      if ParseKids(input, h.len.end, ContentLimit(h, limit), h.len.form.Indefinite?, depth + 1, ctx).Ok? {
        ghost var kids :=
          ParseKids(input, h.len.end, ContentLimit(h, limit), h.len.form.Indefinite?, depth + 1, ctx).value.nodes;
        SameSegBytes(input[off], base, LeavesAll(kids));
      }
      r, bits := Segments(h.len.end, ContentLimit(h, limit), h.len.form.Indefinite?, depth + 1, segBase, bits);
    }

    method PrimitiveSegment(off: nat, limit: nat, base: Byte, bits0: Bits, h: Header)
      returns (r: Result<(nat, nat)>, bits: Bits)
      requires IsHeader(input, off, limit, h) && ber
      modifies this`out
      ensures r.Err? ==> ParsePrim(input, off, limit, Seg(base, bits0), h) == Err(r.error)
      ensures r.Ok? ==>
                var p := ParsePrim(input, off, limit, Seg(base, bits0), h);
                && p.Ok? && p.value.ctx == Seg(base, bits) && Flattened(SegBytes(base, Leaves(p.value.node)))
                && r.value == (p.value.end, |SegBytes(base, Leaves(p.value.node))|)
    {
      bits := bits0;
      var c := input[h.len.end..h.len.end + h.len.length];
      OneLeaf(base, c);
      if base == 3 {
        if |c| == 0 || c[0] > 7 || (|c| == 1 && c[0] != 0) {
          return Err(MalformedBitString), bits;
        }
        if bits.seen && bits.unused != 0 {
          return Err(MalformedBitString), bits;
        }
        bits := Bits(true, c[0]);
        c := c[1..];
      }
      if pass.EmitPass? {
        out := out + c;
      }
      r := Ok((h.len.end + h.len.length, |c|));
    }

    /** Reads one element from the start of the input and re-encodes it.  When the checking pass succeeds the
        recording and emitting passes cannot fail; the emitting pass consumes every record, and what it
        writes has the recorded total length. */
    method Normalize() returns (r: Result<Normalized>)
      requires pass == CheckPass && !ber && lens == [] && unused == [] && nextLen == 0 && nextUnused == 0 && out == []
      modifies this
      ensures r.Err? ==> ParseItem(input, 0, |input|, 1, Top) == Err(r.error)
      ensures r.Ok? ==>
                var p := ParseItem(input, 0, |input|, 1, Top);
                && p.Ok? && r.value.end == p.value.end && IsTail(input, p.value.end, r.value.tail)
                && r.value.der == Emitted(p.value.node)
                && (r.value.isBER <==> !IsDer(p.value.node))
                && (!r.value.isBER ==> r.value.der == input[..p.value.end])
                && (r.value.isBER ==> lens == Lens(p.value.node) && nextLen == |lens|)
                && (r.value.isBER ==> unused == Unused(p.value.node) && nextUnused == |unused|)
      ensures r.Ok? ==>
                var node := ParseItem(input, 0, |input|, 1, Top).value.node;
                && (r.value.isBER <==> HoldsSegmented(node) || !LengthsAreMinimal(node))
                && r.value.der == Unparse(DerOf(node))
                && !HoldsSegmented(DerOf(node)) && LengthsAreMinimal(DerOf(node))
    {
      hide ParseItem, Lens, Unused, IsDer, IsTail, HoldsSegmented, LengthsAreMinimal, Unparse, DerOf;
      ghost var p := ParseItem(input, 0, |input|, 1, Top);
      var checked := Element(0, |input|, 1);
      if checked.Err? {
        return Err(checked.error);
      }
      ParsedIsOctets(input);
      var end := checked.value.0;
      var tail := FindTail(end);
      if !ber {
        DerIsCopy(input);
        return Ok(Normalized(input[..end], false, end, tail));
      }
      pass := RecordPass;
      var recorded := Element(0, |input|, 1);
      var total := recorded.value.1;
      out := [];
      pass := EmitPass;
      assert lens[0..0 + |lens|] == lens && unused[0..0 + |unused|] == unused;
      var emitted := Element(0, |input|, 1);
      assert |out| == total;
      r := Ok(Normalized(out, true, end, tail));
    }

    method FindTail(end: nat) returns (tail: Tail)
      requires end <= |input|
      ensures IsTail(input, end, tail)
    {
      tail := Tail(0, 0);
      var i := |input| - 1;
      while i >= end
        invariant end - 1 <= i < |input|
        invariant tail == Tail(0, 0) && forall k :: i < k < |input| ==> input[k] == 0
      {
        if input[i] != 0 {
          return Tail(end, i - end + 1);
        }
        i := i - 1;
      }
    }
  }

  lemma ParsedIsOctets(input: seq<Byte>)
    requires ParseItem(input, 0, |input|, 1, Top).Ok?
    ensures var node := ParseItem(input, 0, |input|, 1, Top).value.node;
      && (IsDer(node) <==> !HoldsSegmented(node) && LengthsAreMinimal(node))
      && !HoldsSegmented(DerOf(node)) && LengthsAreMinimal(DerOf(node))
  {
    hide ParseItem, IsDer, HoldsSegmented, LengthsAreMinimal, DerOf, Check, Unparse;
    TopStarts(input, 0, |input|);
    ItemSound(input, 0, |input|, 1, Top);
    WrittenIsOctets(ParseItem(input, 0, |input|, 1, Top).value.node, Top);
  }

  lemma OneLeaf(base: Byte, c: seq<Byte>)
    ensures SegBytes(base, [c]) == if base == 3 then Data(c) else c
  {
    assert [c][1..] == [] && Data(c) + [] == Data(c) && c + [] == c;
    assert ConcatData([c]) == Data(c) + ConcatData([]) && Concat([c]) == c + Concat([]);
  }

  lemma Assoc<T>(a: seq<T>, b: seq<T>, c: seq<T>)
    ensures (a + b) + c == a + (b + c)
  {
  }

  lemma NothingYet(kids: Result<Kids>)
    ensures Prepend([], kids) == kids
    ensures LensAll([]) == [] && UnusedAll([]) == [] && EmittedAll([]) == [] && AllDer([])
  {
    if kids.Ok? {
      assert [] + kids.value.nodes == kids.value.nodes;
    }
  }

  lemma NoSegments(base: Byte, kids: Result<Kids>)
    ensures Prepend([], kids) == kids && SegBytes(base, LeavesAll([])) == []
  {
    if kids.Ok? {
      assert [] + kids.value.nodes == kids.value.nodes;
    }
  }

  lemma SliceSplit<T>(s: seq<T>, i: nat, a: seq<T>, b: seq<T>)
    requires i + |a + b| <= |s| && s[i..i + |a + b|] == a + b
    ensures s[i..i + |a|] == a && s[i + |a|..i + |a| + |b|] == b
  {
    var w := s[i..i + |a + b|];
    assert w[..|a|] == s[i..i + |a|] && w[|a|..] == s[i + |a|..i + |a| + |b|];
    assert (a + b)[..|a|] == a && (a + b)[|a|..] == b;
  }

  /** What is recorded and emitted for a flattened string. */
  lemma StringRecords(input: seq<Byte>, p: nat, limit: nat, indefinite: bool, depth: nat, node: Node)
    requires node.Cons? && IsString(node.tag) && p <= limit <= |input| && depth <= MAX_BER_DEPTH + 1
    requires var k := ParseKids(input, p, limit, indefinite, depth, Seg(Base(node.tag[0]), NO_BITS));
             k.Ok? && k.value.nodes == node.kids
    ensures var base := Base(node.tag[0]);
            var c := StringContent(base, node.kids);
            && Emitted(node) == [base] + LenBytes(MinForm(|c|), |c|) + c
            && Lens(node) == [|c|]
            && Unused(node) == (if base == 3 then [UnusedBits(LeavesAll(node.kids))] else [])
            && c == (if base == 3 then [UnusedBits(LeavesAll(node.kids))] else [])
                    + SegBytes(base, LeavesAll(node.kids))
    ensures var k := ParseKids(input, p, limit, indefinite, depth, Seg(Base(node.tag[0]), NO_BITS));
            k.value.ctx.Seg? && (Base(node.tag[0]) == 3 ==> k.value.ctx.bits.unused == UnusedBits(LeavesAll(node.kids)))
  {
    var ctx := Seg(Base(node.tag[0]), NO_BITS);
    KidsSound(input, p, limit, indefinite, depth, ctx);
    CheckAllTracksBits(node.kids, ctx);
  }

  lemma SliceHead<T>(s: seq<T>, i: nat, head: T, tail: seq<T>)
    requires i + 1 + |tail| <= |s| && s[i..i + 1 + |tail|] == [head] + tail
    ensures s[i] == head && s[i + 1..i + 1 + |tail|] == tail
  {
    var w := s[i..i + 1 + |tail|];
    assert w[0] == s[i] && w[1..] == s[i + 1..i + 1 + |tail|];
    assert ([head] + tail)[1..] == tail;
  }

  lemma GroupRecords(node: Node)
    requires node.Cons? && !IsString(node.tag)
    ensures var c := |EmittedAll(node.kids)|;
            && Emitted(node) == node.tag + LenBytes(MinForm(c), c) + EmittedAll(node.kids)
            && Lens(node) == [c] + LensAll(node.kids)
            && Unused(node) == UnusedAll(node.kids)
  {
    OctetsAreDefinite(|EmittedAll(node.kids)|);
  }

  lemma OctetsAreDefinite(n: nat)
    ensures EndOfContents(MinForm(n)) == []
  {
  }

  /** A constructed element is its header and its content elements. */
  lemma ConsParsed(input: seq<Byte>, off: nat, limit: nat, depth: nat, ctx: Ctx, h: Header)
    requires IsHeader(input, off, limit, h) && depth <= MAX_BER_DEPTH
    ensures var tag := input[off..h.tagEnd];
      var k := ParseKids(input, h.len.end, ContentLimit(h, limit), h.len.form.Indefinite?, depth + 1, KidCtx(tag, ctx));
      ParseCons(input, off, limit, depth, ctx, h) ==
        match k {
          case Err(e) => Err(e)
          case Ok(v) => Ok(Item(Cons(tag, h.len.form, v.nodes), v.end, AfterKids(ctx, v.ctx)))
        }
  {
    hide ParseKids, KidCtx, AfterKids;
  }

  lemma TopContents(tag: seq<Byte>)
    requires tag != []
    ensures !IsString(tag) ==> KidCtx(tag, Top) == Top
    ensures IsString(tag) ==> KidCtx(tag, Top) == Seg(Base(tag[0]), NO_BITS)
    ensures forall c :: AfterKids(Top, c) == Top
  {
  }

  /** A definite length is the length of the contents. */
  lemma ConsLength(input: seq<Byte>, off: nat, limit: nat, depth: nat, h: Header)
    requires IsHeader(input, off, limit, h) && depth <= MAX_BER_DEPTH && ParseHeader(input, off, limit) == Ok(h)
    ensures var p := ParseCons(input, off, limit, depth, Top, h);
            p.Ok? ==>
              && p.value.node.Cons? && p.value.node.form == h.len.form
              && (IsDer(p.value.node) <==>
                    !IsString(p.value.node.tag) && AllDer(p.value.node.kids) && h.len.form == MinForm(h.len.length))
  {
    hide ParseHeader, ParseCons, ParseKids, IsString, AllDer, MinForm, KidCtx, UnparseAll, CheckAll, DepthAll;
    ConsParsed(input, off, limit, depth, Top, h);
    var p := ParseCons(input, off, limit, depth, Top, h);
    MinIsDefinite(h.len.length);
    if p.Ok? {
      MinIsDefinite(|UnparseAll(p.value.node.kids)|);
      if !h.len.form.Indefinite? {
        KidsSound(input, h.len.end, ContentLimit(h, limit), false, depth + 1, KidCtx(input[off..h.tagEnd], Top));
      }
    }
  }

  lemma MinIsDefinite(n: nat)
    ensures !MinForm(n).Indefinite?
  {
  }

  lemma ShortIsMinimal()
    ensures forall n: nat :: MinForm(n) == Short <==> n < 128
    ensures forall n: nat :: MinForm(n) != Indefinite
  {
  }

  lemma MinimalOctets(v: nat, k: nat)
    requires 1 <= k && v < Pow256(k)
    ensures MinForm(v) == Long(k) <==> k == |LenBytes(MinForm(v), v)| - 1
  {
  }

  /** What is emitted for an element already in DER form is its own octets. */
  lemma DerIsCopy(input: seq<Byte>)
    ensures var p := ParseItem(input, 0, |input|, 1, Top);
            p.Ok? ==> (IsDer(p.value.node) ==> Emitted(p.value.node) == input[..p.value.end])
  {
    hide ParseItem, IsDer, Unparse;
    if ParseItem(input, 0, |input|, 1, Top).Ok? {
      TopStarts(input, 0, |input|);
      ItemSound(input, 0, |input|, 1, Top);
      var node := ParseItem(input, 0, |input|, 1, Top).value.node;
      if IsDer(node) {
        DerIsFixed(node);
      }
    }
  }

  /** The output of a normalization whose length is below 2^32: it decodes, to the end, to a tree in DER form
      that means the same as the input, so normalizing it again returns it unchanged; it exceeds the input
      element by at most four octets per constructed element; and it equals the input element exactly when
      that was in DER form. */
  lemma NormalizationIsSound(input: seq<Byte>)
    requires ParseItem(input, 0, |input|, 1, Top).Ok?
    requires |Emitted(ParseItem(input, 0, |input|, 1, Top).value.node)| < LENGTH_LIMIT
    ensures var p := ParseItem(input, 0, |input|, 1, Top).value;
            var der := Emitted(p.node);
            var q := ParseItem(der, 0, |der|, 1, Top);
            && input[..p.end] == Unparse(p.node)
            && q == Ok(Item(DerOf(p.node), |der|, Top))
            && ValueOf(q.value.node) == ValueOf(p.node)
            && IsDer(q.value.node) && Emitted(q.value.node) == der
            && |der| <= p.end + 4 * Constructed(p.node)
            && (IsDer(p.node) <==> der == input[..p.end])
            && !HoldsSegmented(q.value.node) && LengthsAreMinimal(q.value.node)
            && (der == input[..p.end] <==> !HoldsSegmented(p.node) && LengthsAreMinimal(p.node))
  {
    hide ParseItem, IsDer, Unparse, DerOf, ValueOf, Constructed, Check, HoldsSegmented, LengthsAreMinimal;
    ParsedIsOctets(input);
    TopStarts(input, 0, |input|);
    ItemSound(input, 0, |input|, 1, Top);
    ItemCtx(input, 0, |input|, 1, Top);
    var p := ParseItem(input, 0, |input|, 1, Top).value;
    var node, der := p.node, Emitted(p.node);
    DerChecks(node);
    DerDepth(node);
    assert der[0..0 + |der|] == der;
    ItemComplete(der, 0, |der|, 1, Top, DerOf(node));
    DerKeepsValue(node);
    DerOfIsDer(node);
    DerIsFixed(DerOf(node));
    DerSize(node, Top);
    DerIsCopy(input);
    if der == input[..p.end] {
      assert input[0..0 + |Unparse(node)|] == Unparse(node);
      ItemComplete(der, 0, |der|, 1, Top, node);
    }
  }
}
