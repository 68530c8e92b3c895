/** The inspector's locks: every call as the program of lock operations it runs, and calls interleaved step by
    step. */
module Locks {

  /** The registry's mutex, the mutex that orders diffs, and per document pdfMu, the lazy caches' mutexes, the
      reverse-reference Once, streamMu, xrefTableMu and plainTextMu. */
  datatype Lock =
    | Registry
    | DiffOrder
    | ImageCache(doc: nat)
    | ReverseOnce(doc: nat)
    | Pdf(doc: nat)
    | PageCache(doc: nat)
    | ObjectCache(doc: nat)
    | XRefCache(doc: nat)
    | StreamMu(doc: nat)
    | PlainText(doc: nat)

  /** One step of a call.  Get reads a cache under its mutex, and when nothing is cached first runs the build and,
      if that succeeds, stores its value. */
  datatype Action =
    | Acquire(lock: Lock)
    | Release(lock: Lock)
    | Get(lock: Lock, build: seq<Action>, ok: bool)
    | Store(lock: Lock)

  type Program = seq<Action>

  datatype Call =
    | Registering
    | Reading(doc: nat)
    | Diff(left: nat, right: nat)
    | ImageIndex(doc: nat, pages: nat, ok: bool)
    | ReverseRefs(doc: nat)
    | PageIndex(doc: nat)
    | ObjectIndex(doc: nat, ok: bool)
    | XRefTable(doc: nat, ok: bool)
    | ContentStream(doc: nat)
    | PageContents(doc: nat, streams: nat)
    | Structure(doc: nat, pages: nat)
    | PlainTextOf(doc: nat, ok: bool)

  /** The inner program while holding the document's pdfMu. */
  function Locked(doc: nat, inner: Program): Program {
    [Acquire(Pdf(doc))] + inner + [Release(Pdf(doc))]
  }

  function Times(n: nat, p: Program): Program {
    if n == 0 then [] else Times(n - 1, p) + p
  }

  const GET_DOCUMENT: Program := [Acquire(Registry), Release(Registry)]

  function PageTree(doc: nat): Program {
    [Get(PageCache(doc), [], true)]
  }

  function StreamSection(doc: nat): Program {
    [Acquire(StreamMu(doc)), Release(StreamMu(doc))]
  }

  /** The image walk takes pdfMu to fetch the page tree, then for one page at a time. */
  function ImageBuild(doc: nat, pages: nat): Program {
    Locked(doc, PageTree(doc)) + Times(pages, Locked(doc, []))
  }

  /** A diff takes both documents' pdfMu under the ordering mutex, once when they are the same document. */
  function DiffBody(left: nat, right: nat): Program {
    [Acquire(DiffOrder), Acquire(Pdf(left))]
    + (if right != left then [Acquire(Pdf(right))] else [])
    + [Release(DiffOrder)]
    + (if right != left then [Release(Pdf(right))] else [])
    + [Release(Pdf(left))]
  }

  function Body(c: Call): Program {
    match c
    case Registering => []
    case Reading(d) => Locked(d, [])
    case Diff(l, r) => DiffBody(l, r)
    case ImageIndex(d, n, ok) => [Get(ImageCache(d), ImageBuild(d, n), ok)]
    case ReverseRefs(d) => [Get(ReverseOnce(d), Locked(d, []), true)] + Locked(d, [])
    case PageIndex(d) => Locked(d, PageTree(d))
    case ObjectIndex(d, ok) => Locked(d, [Get(ObjectCache(d), [], ok)])
    case XRefTable(d, ok) => Locked(d, [Get(XRefCache(d), [], ok)])
    case ContentStream(d) => Locked(d, StreamSection(d))
    case PageContents(d, n) => Locked(d, PageTree(d)) + Times(n, GET_DOCUMENT + Locked(d, StreamSection(d)))
    case Structure(d, n) => Locked(d, PageTree(d)) + Times(n, Locked(d, StreamSection(d)))
    case PlainTextOf(d, ok) => [Get(PlainText(d), [], ok)]
  }

  function Script(c: Call): Program {
    GET_DOCUMENT + Body(c)
  }

  /** Every call's remaining program, who holds which lock, which call stored which cache's value, and which values
      calls have been given. */
  datatype State = State(progs: seq<Program>, holder: map<Lock, nat>, stored: map<Lock, nat>, given: seq<(Lock, nat)>)

  datatype Option<T> = None | Some(value: T)

  datatype Event = Begin(call: Call) | Run(thread: nat)

  function Init(): State {
    State([], map[], map[], [])
  }

  /** The next step of thread i: waiting for a lock that is held, or being at its end, is having none. */
  function StepThread(s: State, i: nat): Option<State>
    requires i < |s.progs|
  {
    if s.progs[i] == [] then None
    else
      var rest := s.progs[i][1..];
      match s.progs[i][0]
      case Acquire(l) =>
        if l in s.holder then None
        else Some(s.(progs := s.progs[i := rest], holder := s.holder[l := i]))
      case Release(l) =>
        Some(s.(progs := s.progs[i := rest], holder := s.holder - {l}))
      case Get(l, build, ok) =>
        if l in s.holder then None
        else if l in s.stored then
          Some(s.(progs := s.progs[i := [Release(l)] + rest], holder := s.holder[l := i],
                  given := s.given + [(l, s.stored[l])]))
        else
          Some(s.(progs := s.progs[i := build + (if ok then [Store(l)] else []) + [Release(l)] + rest],
                  holder := s.holder[l := i]))
      case Store(l) =>
        Some(s.(progs := s.progs[i := rest], stored := s.stored[l := i], given := s.given + [(l, i)]))
  }

  function Step(s: State, e: Event): Option<State> {
    match e
    case Begin(c) => Some(s.(progs := s.progs + [Script(c)]))
    case Run(i) => if i < |s.progs| then StepThread(s, i) else None
  }

  function Execute(s: State, run: seq<Event>): Option<State> {
    if run == [] then Some(s)
    else
      match Execute(s, run[..|run| - 1])
      case None => None
      case Some(m) => Step(m, run[|run| - 1])
  }
}
