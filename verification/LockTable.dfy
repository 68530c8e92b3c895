/** Which locks every kind of call takes. */
module LockTable {
  import opened Locks

  /** The locks that a program takes, builds included. */
  function Taken(p: Program): set<Lock>
    decreases p
  {
    if p == [] then {} else TakenBy(p[0]) + Taken(p[1..])
  }

  function TakenBy(a: Action): set<Lock>
    decreases a
  {
    match a
    case Acquire(l) => {l}
    case Get(l, build, _) => {l} + Taken(build)
    case _ => {}
  }

  lemma {:induction false} TakenJoins(p: Program, q: Program)
    ensures Taken(p + q) == Taken(p) + Taken(q)
    decreases |p|
  {
    if p == [] {
      assert p + q == q;
    } else {
      assert (p + q)[1..] == p[1..] + q;
      TakenJoins(p[1..], q);
    }
  }

  lemma TakenOne(a: Action)
    ensures Taken([a]) == TakenBy(a)
  {
    assert [a][1..] == [];
  }

  lemma {:induction false} TakenTimes(n: nat, p: Program)
    ensures Taken(Times(n, p)) == if n == 0 then {} else Taken(p)
  {
    if n > 0 {
      TakenTimes(n - 1, p);
      TakenJoins(Times(n - 1, p), p);
    }
  }

  lemma LockedTakes(doc: nat, inner: Program)
    ensures Taken(Locked(doc, inner)) == {Pdf(doc)} + Taken(inner)
  {
    TakenOne(Acquire(Pdf(doc)));
    TakenOne(Release(Pdf(doc)));
    TakenJoins([Acquire(Pdf(doc))] + inner, [Release(Pdf(doc))]);
    TakenJoins([Acquire(Pdf(doc))], inner);
  }

  lemma SectionsTake(doc: nat)
    ensures Taken(GET_DOCUMENT) == {Registry} && Taken(PageTree(doc)) == {PageCache(doc)}
    ensures Taken(StreamSection(doc)) == {StreamMu(doc)} && Taken([]) == {}
  {
    TakenOne(Acquire(Registry));
    TakenOne(Release(Registry));
    TakenJoins([Acquire(Registry)], [Release(Registry)]);
    TakenOne(Get(PageCache(doc), [], true));
    TakenOne(Acquire(StreamMu(doc)));
    TakenOne(Release(StreamMu(doc)));
    TakenJoins([Acquire(StreamMu(doc))], [Release(StreamMu(doc))]);
  }

  lemma DiffTakes(l: nat, r: nat)
    ensures Taken(DiffBody(l, r)) == {DiffOrder, Pdf(l), Pdf(r)}
  {
    var a := if r != l then [Acquire(Pdf(r))] else [];
    var b := if r != l then [Release(Pdf(r))] else [];
    var first := [Acquire(DiffOrder), Acquire(Pdf(l))];
    TakenJoins(first + a + [Release(DiffOrder)] + b, [Release(Pdf(l))]);
    TakenJoins(first + a + [Release(DiffOrder)], b);
    TakenJoins(first + a, [Release(DiffOrder)]);
    TakenJoins(first, a);
    assert first == [Acquire(DiffOrder)] + [Acquire(Pdf(l))];
    TakenJoins([Acquire(DiffOrder)], [Acquire(Pdf(l))]);
    TakenOne(Acquire(DiffOrder));
    TakenOne(Acquire(Pdf(l)));
    TakenOne(Acquire(Pdf(r)));
    TakenOne(Release(Pdf(r)));
    TakenOne(Release(Pdf(l)));
    TakenOne(Release(DiffOrder));
  }

  /** Every call looks its document up in the registry, and takes no lock but these. */
  lemma CallsTake(c: Call)
    ensures Taken(Script(c)) == {Registry} +
      match c
      case Registering => {}
      case Reading(d) => {Pdf(d)}
      case Diff(l, r) => {DiffOrder, Pdf(l), Pdf(r)}
      case ImageIndex(d, _, _) => {ImageCache(d), Pdf(d), PageCache(d)}
      case ReverseRefs(d) => {ReverseOnce(d), Pdf(d)}
      case PageIndex(d) => {Pdf(d), PageCache(d)}
      case ObjectIndex(d, _) => {Pdf(d), ObjectCache(d)}
      case XRefTable(d, _) => {Pdf(d), XRefCache(d)}
      case ContentStream(d) => {Pdf(d), StreamMu(d)}
      case PageContents(d, n) => {Pdf(d), PageCache(d)} + (if n == 0 then {} else {StreamMu(d)})
      case Structure(d, n) => {Pdf(d), PageCache(d)} + (if n == 0 then {} else {StreamMu(d)})
      case PlainTextOf(d, _) => {PlainText(d)}
  {
    hide Taken, Locked, Times, DiffBody, ImageBuild;
    TakenJoins(GET_DOCUMENT, Body(c));
    SectionsTake(0);
    match c
    case Registering =>
    case Reading(d) => LockedTakes(d, []);
    case Diff(l, r) => DiffTakes(l, r);
    case ImageIndex(d, n, ok) => ImageTakes(d, n, ok);
    case ReverseRefs(d) =>
      LockedTakes(d, []);
      TakenOne(Get(ReverseOnce(d), Locked(d, []), true));
      TakenJoins([Get(ReverseOnce(d), Locked(d, []), true)], Locked(d, []));
    case PageIndex(d) =>
      SectionsTake(d);
      LockedTakes(d, PageTree(d));
    case ObjectIndex(d, ok) =>
      TakenOne(Get(ObjectCache(d), [], ok));
      LockedTakes(d, [Get(ObjectCache(d), [], ok)]);
    case XRefTable(d, ok) =>
      TakenOne(Get(XRefCache(d), [], ok));
      LockedTakes(d, [Get(XRefCache(d), [], ok)]);
    case ContentStream(d) =>
      SectionsTake(d);
      LockedTakes(d, StreamSection(d));
    case PageContents(d, n) => ContentsTake(d, n);
    case Structure(d, n) => ContentsTake(d, n);
    case PlainTextOf(d, ok) => TakenOne(Get(PlainText(d), [], ok));
  }

  lemma ImageTakes(d: nat, n: nat, ok: bool)
    ensures Taken([Get(ImageCache(d), ImageBuild(d, n), ok)]) == {ImageCache(d), Pdf(d), PageCache(d)}
  {
    SectionsTake(d);
    TakenOne(Get(ImageCache(d), ImageBuild(d, n), ok));
    LockedTakes(d, PageTree(d));
    LockedTakes(d, []);
    TakenTimes(n, Locked(d, []));
    TakenJoins(Locked(d, PageTree(d)), Times(n, Locked(d, [])));
  }

  lemma ContentsTake(d: nat, n: nat)
    ensures Taken(GET_DOCUMENT + Body(PageContents(d, n))) ==
      {Registry, Pdf(d), PageCache(d)} + (if n == 0 then {} else {StreamMu(d)})
    ensures Taken(GET_DOCUMENT + Body(Structure(d, n))) ==
      {Registry, Pdf(d), PageCache(d)} + (if n == 0 then {} else {StreamMu(d)})
  {
    hide Taken, Locked, Times;
    SectionsTake(d);
    LockedTakes(d, PageTree(d));
    LockedTakes(d, StreamSection(d));
    TakenJoins(GET_DOCUMENT, Locked(d, StreamSection(d)));
    TakenTimes(n, GET_DOCUMENT + Locked(d, StreamSection(d)));
    TakenTimes(n, Locked(d, StreamSection(d)));
    TakenJoins(Locked(d, PageTree(d)), Times(n, GET_DOCUMENT + Locked(d, StreamSection(d))));
    TakenJoins(Locked(d, PageTree(d)), Times(n, Locked(d, StreamSection(d))));
    TakenJoins(GET_DOCUMENT, Body(PageContents(d, n)));
    TakenJoins(GET_DOCUMENT, Body(Structure(d, n)));
  }
}
