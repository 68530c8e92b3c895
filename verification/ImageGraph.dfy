/** The graph of resource dictionaries, images and Form XObjects that the image walk explores, and the
    plain walk of it: a depth-first walk with a path stack and a nesting cap but with no memo tables
    and no budgets.  The plain walk is the reference that the memoised walker is proved to agree with. */
module ImageGraph {

  /** The number of nested forms a walk enters. */
  const MAX_FORM_WALK_DEPTH: nat := 32

  /** One entry of an /XObject dictionary: a reference, or a direct value (which is never an image). */
  datatype Entry = Direct(key: string) | Ref(key: string, num: nat, gen: nat)

  /** What a /Resources value resolves to: a failed lookup, or the /XObject entries in sorted key
      order (none when the dictionary is missing, null or of another type). */
  datatype Resources = Unreadable | XObjects(entries: seq<Entry>)

  /** What an XObject reference resolves to.  Other stands for anything that is not an image or a form,
      a dangling reference included. */
  datatype XObject = Failing | Other | Image | Form(resources: Resources)

  type Store = map<nat, XObject>

  function Lookup(s: Store, num: nat): XObject {
    if num in s then s[num] else Other
  }

  function EntriesOf(r: Resources): seq<Entry> {
    match r
    case Unreadable => []
    case XObjects(es) => es
  }

  function FormEntries(s: Store, f: nat): seq<Entry> {
    match Lookup(s, f)
    case Form(r) => EntriesOf(r)
    case _ => []
  }

  predicate FormRef(s: Store, e: Entry) {
    e.Ref? && Lookup(s, e.num).Form?
  }

  predicate ImageRef(s: Store, e: Entry) {
    e.Ref? && Lookup(s, e.num).Image?
  }

  /** es names form g */
  ghost predicate Names(s: Store, es: seq<Entry>, g: nat) {
    exists j :: 0 <= j < |es| && FormRef(s, es[j]) && es[j].num == g
  }

  /** The resources of form f name form g. */
  ghost predicate Kid(s: Store, f: nat, g: nat) {
    Names(s, FormEntries(s, f), g)
  }

  ghost predicate Closed(s: Store, c: set<nat>) {
    forall f, g :: f in c && Kid(s, f, g) ==> g in c
  }

  /** Form y is reachable from form x: it is in every closed set that holds x. */
  ghost predicate Reaches(s: Store, x: nat, y: nat) {
    forall c: set<nat> :: Closed(s, c) && x in c ==> y in c
  }

  lemma ReachesTransitive(s: Store, x: nat, y: nat, z: nat)
    requires Reaches(s, x, y) && Reaches(s, y, z)
    ensures Reaches(s, x, z)
  {
  }

  lemma KidReaches(s: Store, x: nat, y: nat)
    requires Kid(s, x, y)
    ensures Reaches(s, x, y)
  {
  }

  ghost predicate Distinct(st: seq<nat>) {
    forall i, j :: 0 <= i < j < |st| ==> st[i] != st[j]
  }

  /** st is a chain of forms, each named by the one before it, that starts in roots. */
  ghost predicate Chain(s: Store, roots: set<nat>, st: seq<nat>) {
    && (st != [] ==> st[0] in roots)
    && (forall i :: 0 <= i < |st| - 1 ==> Kid(s, st[i], st[i + 1]))
  }

  /** No chain of distinct forms below roots is longer than the nesting cap. */
  ghost predicate NoDeepChain(s: Store, roots: set<nat>) {
    forall st: seq<nat> :: Chain(s, roots, st) && Distinct(st) ==> |st| <= MAX_FORM_WALK_DEPTH
  }

  lemma {:induction false} ChainReaches(s: Store, roots: set<nat>, st: seq<nat>, k: nat, g: nat)
    requires Chain(s, roots, st) && k < |st| && Kid(s, st[|st| - 1], g)
    ensures Reaches(s, st[k], g)
    decreases |st| - k
  {
    KidReaches(s, st[|st| - 1], g);
    if k + 1 < |st| {
      ChainReaches(s, roots, st, k + 1, g);
      KidReaches(s, st[k], st[k + 1]);
    }
  }

  /** One image use: the image and the resource-name path that first reached it. */
  datatype Use = Use(num: nat, gen: nat, path: seq<string>)

  /** A plain walk in progress: the images found so far, the object numbers already reached, and
      whether something could not be walked. */
  datatype Plain = Plain(images: seq<Use>, seen: set<nat>, incomplete: bool)

  /** The first n images of a form's walk merged into acc under the resource name key. */
  function Merge(key: string, images: seq<Use>, n: nat, acc: Plain): Plain
    requires n <= |images|
  {
    if n == 0 then acc
    else
      var a := Merge(key, images, n - 1, acc);
      var u := images[n - 1];
      if u.num in a.seen then a
      else Plain(a.images + [Use(u.num, u.gen, [key] + u.path)], a.seen + {u.num}, a.incomplete)
  }

  lemma {:induction false} MergeKeepsFlag(key: string, images: seq<Use>, n: nat, acc: Plain, flag: bool)
    requires n <= |images|
    ensures Merge(key, images, n, acc.(incomplete := flag)) == Merge(key, images, n, acc).(incomplete := flag)
  {
    if n > 0 {
      MergeKeepsFlag(key, images, n - 1, acc, flag);
    }
  }

  lemma {:induction false} MergeFlag(key: string, images: seq<Use>, n: nat, acc: Plain)
    requires n <= |images|
    ensures Merge(key, images, n, acc).incomplete == acc.incomplete
  {
    if n > 0 {
      MergeFlag(key, images, n - 1, acc);
    }
  }

  /** The plain walk of the first n entries of es, with the forms st being walked above them. */
  function PlainWalk(s: Store, es: seq<Entry>, n: nat, st: seq<nat>): Plain
    requires n <= |es| && |st| <= MAX_FORM_WALK_DEPTH
    decreases MAX_FORM_WALK_DEPTH - |st|, n
  {
    if n == 0 then Plain([], {}, false)
    else PlainEntry(s, es[n - 1], st, PlainWalk(s, es, n - 1, st))
  }

  /** The plain walk of one entry e after acc. */
  function PlainEntry(s: Store, e: Entry, st: seq<nat>, acc: Plain): Plain
    requires |st| <= MAX_FORM_WALK_DEPTH
    decreases MAX_FORM_WALK_DEPTH - |st|, 0
  {
    if e.Direct? || e.num in acc.seen || e.num in st then acc
    else match Lookup(s, e.num)
      case Failing => acc.(incomplete := true)
      case Other => acc
      case Image => Plain(acc.images + [Use(e.num, e.gen, [e.key])], acc.seen + {e.num}, acc.incomplete)
      case Form(r) =>
        if |st| >= MAX_FORM_WALK_DEPTH then acc.(incomplete := true)
        else
          var child := PlainForm(s, r, e.num, st);
          Merge(e.key, child.images, |child.images|,
                Plain(acc.images, acc.seen + {e.num}, acc.incomplete || child.incomplete))
  }

  /** The plain walk of form num, whose resources are r, below st. */
  function PlainForm(s: Store, r: Resources, num: nat, st: seq<nat>): Plain
    requires |st| < MAX_FORM_WALK_DEPTH
    decreases MAX_FORM_WALK_DEPTH - |st| - 1, |EntriesOf(r)| + 1
  {
    match r
    case Unreadable => Plain([], {}, true)
    case XObjects(es) => PlainWalk(s, es, |es|, st + [num])
  }

  /** The plain walk of a page's resources. */
  function PlainPage(s: Store, r: Resources): Plain {
    match r
    case Unreadable => Plain([], {}, true)
    case XObjects(es) => PlainWalk(s, es, |es|, [])
  }
}
