/** The memoised walk as a function of the finished form walks it starts with: what it finds, what it leaves
    stored, how many entries it examines and how many uses it retains.  The walker computes it, until a
    budget runs out. */
module ImageMemoWalk {
  import opened ImageGraph
  import opened ImageTrace
  import opened ImageMemo
  import opened ImageIndex

  /** What the walk of one resources dictionary is kept as, with its issues counted. */
  datatype Found = Found(images: seq<Use>, incomplete: bool, issues: nat, height: nat, capped: bool, guard: seq<nat>)

  /** A finished form walk and the number of forms above it. */
  datatype Stored = Stored(found: Found, depth: nat)

  /** A walk in progress: what it found, the object numbers reached, the lowest cycle, the form walks stored by
      now, the entries examined and the uses retained. */
  datatype Walked = Walked(found: Found, seen: set<nat>, low: nat, forms: map<nat, Stored>, steps: nat, uses: nat)

  /** A form's walk as its caller uses it: up is what the caller adds to its own guard. */
  datatype FormWalked = FormWalked(found: Found, up: seq<nat>, low: nat, forms: map<nat, Stored>, steps: nat, uses: nat)

  const NOTHING := Found([], false, 0, 0, false, [])
  const UNREAD := Found([], true, 1, 0, false, [])

  function FoundOf(rw: ResWalk): Found {
    Found(rw.images, rw.incomplete, |rw.issues|, rw.height, rw.capped, rw.guard)
  }

  function FormsOf(memo: map<nat, FormWalk>): map<nat, Stored> {
    map f | f in memo :: Stored(FoundOf(memo[f].rw), memo[f].depth)
  }

  function Position(st: seq<nat>, x: nat): (k: nat)
    requires x in st
    ensures k < |st| && st[k] == x
  {
    if st[0] == x then 0 else
      var k := Position(st[1..], x);
      k + 1
  }

  /** The walk of the first n entries of es below st. */
  function MemoWalk(s: Store, es: seq<Entry>, n: nat, st: seq<nat>, forms: map<nat, Stored>): Walked
    requires n <= |es| && |st| <= MAX_FORM_WALK_DEPTH
    decreases MAX_FORM_WALK_DEPTH - |st|, n
  {
    if n == 0 then Walked(NOTHING, {}, NO_CYCLE, forms, 0, 0)
    else
      var w := MemoWalk(s, es, n - 1, st, forms);
      MemoEntry(s, es[n - 1], st, w.(steps := w.steps + 1))
  }

  function MemoEntry(s: Store, e: Entry, st: seq<nat>, w: Walked): Walked
    requires |st| <= MAX_FORM_WALK_DEPTH
    decreases MAX_FORM_WALK_DEPTH - |st|, 0
  {
    if e.Direct? || e.num in w.seen then w
    else if e.num in st then w.(low := Min(w.low, Position(st, e.num)))
    else match Lookup(s, e.num)
      case Failing => w.(found := w.found.(incomplete := true, issues := w.found.issues + 1))
      case Other => w
      case Image =>
        w.(found := w.found.(images := w.found.images + [Use(e.num, e.gen, [e.key])]), seen := w.seen + {e.num})
      case Form(r) =>
        if |st| >= MAX_FORM_WALK_DEPTH then
          w.(found := w.found.(incomplete := true, capped := true, issues := w.found.issues + 1))
        else
          MergeWalk(e.key, MemoForm(s, r, e.num, st, w.forms), w.(seen := w.seen + {e.num}))
  }

  /** A form's walk merged into the walk w of the entries before it: each guarded form, issue and image it adds is
      one more use. */
  function MergeWalk(key: string, c: FormWalked, w: Walked): Walked {
    var m := MergeAll(key, c.found.images, w.found.images, w.seen);
    Walked(Found(m.images, w.found.incomplete || c.found.incomplete, w.found.issues + c.found.issues,
                 Max(w.found.height, c.found.height + 1), w.found.capped || c.found.capped, w.found.guard + c.up),
           m.seen, Min(w.low, c.low), c.forms, w.steps + c.steps,
           w.uses + c.uses + |c.up| + c.found.issues + (|m.images| - |w.found.images|))
  }

  function MergeAll(key: string, more: seq<Use>, images: seq<Use>, seen: set<nat>): (m: Plain)
    ensures |m.images| >= |images|
  {
    MergeGrows(key, more, 0, |more|, Plain(images, seen, false));
    Merge(key, more, |more|, Plain(images, seen, false))
  }

  lemma {:induction false} MergeGrows(key: string, images: seq<Use>, k: nat, n: nat, acc: Plain)
    requires k <= n <= |images|
    ensures |Merge(key, images, k, acc).images| <= |Merge(key, images, n, acc).images|
  {
    if k < n {
      MergeGrows(key, images, k, n - 1, acc);
    }
  }

  predicate CanReuse(m: Stored, st: seq<nat>) {
    && (forall f :: f in m.found.guard ==> f !in st)
    && if m.found.capped then m.depth == |st| else |st| + m.found.height < MAX_FORM_WALK_DEPTH
  }

  /** The walk of form num, whose resources are r, below st: stored or afresh. */
  function MemoForm(s: Store, r: Resources, num: nat, st: seq<nat>, forms: map<nat, Stored>): FormWalked
    requires |st| < MAX_FORM_WALK_DEPTH
    decreases MAX_FORM_WALK_DEPTH - |st| - 1, |EntriesOf(r)| + 2
  {
    if num in forms && CanReuse(forms[num], st) then
      var m := forms[num].found;
      FormWalked(m, if m.capped then [num] + m.guard else [], NO_CYCLE, forms, 0, 0)
    else
      Finish(num, |st|, MemoOwn(s, r, num, st, forms))
  }

  /** The walk of form num's own resources. */
  function MemoOwn(s: Store, r: Resources, num: nat, st: seq<nat>, forms: map<nat, Stored>): Walked
    requires |st| < MAX_FORM_WALK_DEPTH
    decreases MAX_FORM_WALK_DEPTH - |st| - 1, |EntriesOf(r)| + 1
  {
    match r
    case Unreadable => Walked(UNREAD, {}, NO_CYCLE, forms, 0, 0)
    case XObjects(es) => MemoWalk(s, es, |es|, st + [num], forms)
  }

  /** A fresh walk w of form num: stored, unless it depends on a form above or one nearer the page is. */
  function Finish(num: nat, depth: nat, w: Walked): FormWalked {
    var up := if w.low < depth || w.found.capped then w.found.guard + [num] else [];
    if w.low < depth then FormWalked(w.found, up, w.low, w.forms, w.steps, w.uses)
    else
      FormWalked(w.found, up, NO_CYCLE,
                 if num in w.forms && w.forms[num].depth < depth then w.forms
                 else w.forms[num := Stored(w.found, depth)],
                 w.steps, w.uses)
  }

  /** The costs of an entry add to those of the entries before it. */
  lemma EntryAdds(s: Store, e: Entry, st: seq<nat>, w: Walked)
    requires |st| <= MAX_FORM_WALK_DEPTH
    ensures var z := MemoEntry(s, e, st, w.(steps := 0, uses := 0));
      MemoEntry(s, e, st, w) == z.(steps := z.steps + w.steps, uses := z.uses + w.uses)
  {
  }

  /** More entries cost no less. */
  lemma {:induction false} CostGrows(s: Store, es: seq<Entry>, k: nat, n: nat, st: seq<nat>, forms: map<nat, Stored>)
    requires k <= n <= |es| && |st| <= MAX_FORM_WALK_DEPTH
    ensures var a, b := MemoWalk(s, es, k, st, forms), MemoWalk(s, es, n, st, forms);
      a.steps <= b.steps && a.uses <= b.uses
    decreases n
  {
    if k < n {
      CostGrows(s, es, k, n - 1, st, forms);
      var w := MemoWalk(s, es, n - 1, st, forms);
      EntryAdds(s, es[n - 1], st, w.(steps := w.steps + 1));
    }
  }

  /** One more entry, its costs apart. */
  lemma NextEntry(s: Store, es: seq<Entry>, i: nat, st: seq<nat>, forms: map<nat, Stored>)
    requires i < |es| && |st| <= MAX_FORM_WALK_DEPTH
    ensures var w := MemoWalk(s, es, i, st, forms);
      var z := MemoEntry(s, es[i], st, w.(steps := 0, uses := 0));
      MemoWalk(s, es, i + 1, st, forms) == z.(steps := z.steps + w.steps + 1, uses := z.uses + w.uses)
  {
    var w := MemoWalk(s, es, i, st, forms);
    EntryAdds(s, es[i], st, w.(steps := w.steps + 1));
  }

  lemma CanReuseStored(memo: map<nat, FormWalk>, num: nat, st: seq<nat>)
    requires num in memo
    ensures CanReuse(FormsOf(memo)[num], st) <==>
      && (forall f :: f in memo[num].rw.guard ==> f !in st)
      && if memo[num].rw.capped then memo[num].depth == |st| else |st| + memo[num].rw.height < MAX_FORM_WALK_DEPTH
  {
  }

  lemma FormsStored(memo: map<nat, FormWalk>, num: nat, fw: FormWalk)
    ensures FormsOf(memo[num := fw]) == FormsOf(memo)[num := Stored(FoundOf(fw.rw), fw.depth)]
  {
  }

  // Pages.

  /** The identity of a page's /XObject dictionary: its object number, or the address of a direct one. */
  datatype ResKey = Indirect(num: nat) | DirectDict(id: nat)

  /** A page's resources: its own, or those an /XObject dictionary shared under key gives. */
  datatype PageResources = Private(r: Resources) | Shared(key: ResKey)

  datatype Option<T> = None | Some(value: T)

  /** A numbered page: whether it failed to read, the /Resources entry on its way that failed to resolve,
      and the resources it has. */
  datatype Leaf = Leaf(failed: bool, unread: Option<ResKey>, resources: PageResources)

  function SharedResourcesOf(shared: map<ResKey, Resources>, k: ResKey): Resources {
    if k in shared then shared[k] else XObjects([])
  }

  function ResourcesOf(shared: map<ResKey, Resources>, pr: PageResources): Resources {
    match pr
    case Private(r) => r
    case Shared(k) => SharedResourcesOf(shared, k)
  }

  function PagesOf(memo: map<ResKey, ResWalk>): map<ResKey, Found> {
    map k | k in memo :: FoundOf(memo[k])
  }

  lemma PagesStored(memo: map<ResKey, ResWalk>, k: ResKey, rw: ResWalk)
    ensures PagesOf(memo[k := rw]) == PagesOf(memo)[k := FoundOf(rw)]
  {
  }

  /** One page's walk, and the form and page walks stored after it. */
  datatype PageWalked = PageWalked(found: Found, forms: map<nat, Stored>, pages: map<ResKey, Found>, steps: nat,
                                   uses: nat)

  /** The walk of a page's resources, which no form is above. */
  function MemoPage(s: Store, r: Resources, forms: map<nat, Stored>): Walked {
    match r
    case Unreadable => Walked(UNREAD, {}, NO_CYCLE, forms, 0, 0)
    case XObjects(es) => MemoWalk(s, es, |es|, [], forms)
  }

  /** The walk of a page's resources, or that of resources an earlier page shares. */
  function MemoShared(s: Store, shared: map<ResKey, Resources>, pr: PageResources, forms: map<nat, Stored>,
                      pages: map<ResKey, Found>): PageWalked
  {
    if pr.Shared? && pr.key in pages then PageWalked(pages[pr.key], forms, pages, 0, 0)
    else
      var w := MemoPage(s, ResourcesOf(shared, pr), forms);
      PageWalked(w.found, w.forms, if pr.Shared? then pages[pr.key := w.found] else pages, w.steps, w.uses)
  }

  /** The walks of all pages so far: their groups, what is stored, the entries examined and a bound on the uses. */
  datatype Paged = Paged(groups: seq<Group>, forms: map<nat, Stored>, pages: map<ResKey, Found>, steps: nat, uses: nat)

  /** The group of one page, after the pages w. */
  function MemoLeaf(s: Store, shared: map<ResKey, Resources>, leaf: Leaf, w: Paged): Paged {
    var p := MemoShared(s, shared, leaf.resources, w.forms, w.pages);
    var g := Group(|w.groups| + 1, p.found.images, leaf.failed || leaf.unread.Some? || p.found.incomplete);
    Paged(w.groups + [g], p.forms, p.pages, w.steps + p.steps,
          w.uses + p.uses + |p.found.images| + p.found.issues + if leaf.unread.Some? then 1 else 0)
  }

  function MemoPages(s: Store, shared: map<ResKey, Resources>, leaves: seq<Leaf>, n: nat): (w: Paged)
    requires n <= |leaves|
    ensures |w.groups| == n
  {
    if n == 0 then Paged([], map[], map[], 0, 0)
    else MemoLeaf(s, shared, leaves[n - 1], MemoPages(s, shared, leaves, n - 1))
  }

  lemma {:induction false} PagesCostGrows(s: Store, shared: map<ResKey, Resources>, leaves: seq<Leaf>, k: nat, n: nat)
    requires k <= n <= |leaves|
    ensures var a, b := MemoPages(s, shared, leaves, k), MemoPages(s, shared, leaves, n);
      a.steps <= b.steps && a.uses <= b.uses && a.groups <= b.groups
    decreases n
  {
    if k < n {
      PagesCostGrows(s, shared, leaves, k, n - 1);
    }
  }
}
