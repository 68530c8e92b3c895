/** The per-page groups and per-image page lists of one image walk, as values, and how one more page
    extends them. */
module ImageIndex {
  import opened ImageGraph
  import opened ImageMemo
  import opened ImageSteps
  import opened ImageReach

  /** The images of one page and whether its walk was cut short. */
  datatype Group = Group(page: nat, images: seq<Use>, incomplete: bool)

  /** The groups in page order and the pages of each image. */
  datatype Tree = Tree(groups: seq<Group>, pages: map<nat, seq<nat>>)

  /** The group of page p; a page left out had no image and was walked to the end. */
  function GroupAt(groups: seq<Group>, p: nat): Group {
    if groups == [] then Group(p, [], false)
    else if groups[|groups| - 1].page == p then groups[|groups| - 1]
    else GroupAt(groups[..|groups| - 1], p)
  }

  function ImageCount(groups: seq<Group>): nat {
    if groups == [] then 0
    else ImageCount(groups[..|groups| - 1]) + |groups[|groups| - 1].images|
  }

  ghost predicate Increasing(s: seq<nat>) {
    forall i, j :: 0 <= i < j < |s| ==> s[i] < s[j]
  }

  ghost predicate InOrder(groups: seq<Group>) {
    forall i, j :: 0 <= i < j < |groups| ==> groups[i].page < groups[j].page
  }

  /** Some group of page p lists image x. */
  ghost predicate GroupLists(groups: seq<Group>, p: nat, x: nat) {
    exists k :: 0 <= k < |groups| && groups[k].page == p && Lists(groups[k].images, x)
  }

  /** The page lists and the groups are inverse relations. */
  ghost predicate Inverse(groups: seq<Group>, pages: map<nat, seq<nat>>) {
    forall x, p :: (x in pages && p in pages[x]) <==> GroupLists(groups, p, x)
  }

  /** Groups and page lists after n pages: in page order, each page once, and inverse to each other. */
  ghost predicate Indexed(groups: seq<Group>, pages: map<nat, seq<nat>>, n: nat) {
    && InOrder(groups) && (forall k :: 0 <= k < |groups| ==> 1 <= groups[k].page <= n)
    && (forall x :: x in pages ==> Increasing(pages[x]) && forall i :: 0 <= i < |pages[x]| ==> pages[x][i] <= n)
    && Inverse(groups, pages)
  }

  /** b is a with page added to the list of every image in images. */
  ghost predicate PageAdded(a: map<nat, seq<nat>>, b: map<nat, seq<nat>>, images: seq<Use>, page: nat) {
    && (forall x :: x in a ==> x in b)
    && (forall x :: Lists(images, x) ==> x in b)
    && (forall x :: x in b ==> b[x] == (if x in a then a[x] else []) + (if Lists(images, x) then [page] else []))
  }

  lemma NoneListed()
    ensures forall x :: !Lists([], x)
  {
  }

  lemma AddPage(groups: seq<Group>, a: map<nat, seq<nat>>, n: nat, g: Group, b: map<nat, seq<nat>>, groups': seq<Group>)
    requires Indexed(groups, a, n) && g.page == n + 1 && PageAdded(a, b, g.images, n + 1)
    requires groups' == groups + [g] || (groups' == groups && g.images == [])
    ensures Indexed(groups', b, n + 1)
  {
    AddPageInverse(groups, a, n, g, b, groups');
  }

  lemma AddPageInverse(groups: seq<Group>, a: map<nat, seq<nat>>, n: nat, g: Group, b: map<nat, seq<nat>>,
                       groups': seq<Group>)
    requires Inverse(groups, a) && g.page == n + 1 && PageAdded(a, b, g.images, n + 1)
    requires groups' == groups + [g] || (groups' == groups && g.images == [])
    ensures Inverse(groups', b)
  {
    hide Lists;
    assert g.images == [] ==> forall x :: !Lists(g.images, x) by { NoneListed(); }
    forall x, p
      ensures (x in b && p in b[x]) <==> GroupLists(groups', p, x)
    {
      if x in b && p in b[x] {
        if x in a && p in a[x] {
          assert GroupLists(groups, p, x);
          var k :| 0 <= k < |groups| && groups[k].page == p && Lists(groups[k].images, x);
          assert groups'[k] == groups[k];
        } else {
          assert groups'[|groups|] == g;
        }
      }
      if GroupLists(groups', p, x) {
        var k :| 0 <= k < |groups'| && groups'[k].page == p && Lists(groups'[k].images, x);
        if k < |groups| {
          assert GroupLists(groups, p, x);
          assert x in a && p in a[x];
        }
      }
    }
  }

  lemma {:induction false} NoGroupAt(groups: seq<Group>, p: nat)
    requires forall k :: 0 <= k < |groups| ==> groups[k].page != p
    ensures GroupAt(groups, p) == Group(p, [], false)
  {
    if groups != [] {
      NoGroupAt(groups[..|groups| - 1], p);
    }
  }

  lemma NothingIndexed()
    ensures Indexed([], map[], 0) && ImageCount([]) == 0
  {
  }

  lemma IndexedPages(groups: seq<Group>, pages: map<nat, seq<nat>>, n: nat)
    requires Indexed(groups, pages, n)
    ensures InOrder(groups) && forall k :: 0 <= k < |groups| ==> 1 <= groups[k].page <= n
  {
  }

  lemma {:induction false} GroupOf(groups: seq<Group>, k: nat)
    requires k < |groups| && InOrder(groups)
    ensures GroupAt(groups, groups[k].page) == groups[k]
  {
    if k < |groups| - 1 {
      GroupOf(groups[..|groups| - 1], k);
    }
  }

  /** What GroupAt and ImageCount become when the group g of page n + 1 is appended, or left out because
      it says nothing. */
  lemma AddGroup(groups: seq<Group>, n: nat, g: Group, groups': seq<Group>)
    requires forall k :: 0 <= k < |groups| ==> groups[k].page <= n
    requires g.page == n + 1 && (groups' == groups + [g] || groups' == groups)
    ensures forall p: nat :: p <= n ==> GroupAt(groups', p) == GroupAt(groups, p)
    ensures GroupAt(groups', n + 1) == if groups' == groups then Group(n + 1, [], false) else g
    ensures ImageCount(groups') <= ImageCount(groups) + |g.images|
  {
    if groups' != groups {
      assert groups'[..|groups'| - 1] == groups;
    } else {
      NoGroupAt(groups, n + 1);
    }
  }

  /** An image without pages is not in the index. */
  lemma DropUnused(groups: seq<Group>, a: map<nat, seq<nat>>, n: nat)
    requires Indexed(groups, a, n)
    ensures Indexed(groups, map x | x in a && a[x] != [] :: a[x], n)
  {
    var b := map x | x in a && a[x] != [] :: a[x];
    forall x, p
      ensures (x in b && p in b[x]) <==> GroupLists(groups, p, x)
    {
      assert (x in a && p in a[x]) <==> GroupLists(groups, p, x);
    }
  }

  /** images are exactly the images reachable from r through forms, each once, with paths that lead there. */
  ghost predicate ExactlyReachable(s: Store, r: Resources, images: seq<Use>) {
    && r.XObjects? && EachOnce(images) && PathsLead(s, r.entries, images)
    && forall x :: Lists(images, x) <==> ReachableImage(s, r.entries, x)
  }

  /** The group g of a page whose resources are r, given whether the page or one of its /Resources entries
      could not be read: its images are the plain walk's, it is incomplete when the plain walk is, and
      only then when no chain of forms passes the nesting cap. */
  ghost predicate GroupSound(s: Store, roots: set<nat>, r: Resources, unread: bool, g: Group) {
    var w := PlainPage(s, r);
    && g.images == w.images
    && (w.incomplete || unread ==> g.incomplete)
    && (NoDeepChain(s, roots) ==> g.incomplete == (w.incomplete || unread))
  }

  lemma CompleteGroupIsExact(s: Store, roots: set<nat>, r: Resources, unread: bool, g: Group)
    requires GroupSound(s, roots, r, unread, g) && !g.incomplete
    ensures ExactlyReachable(s, r, g.images)
  {
    CompletePageIsExact(s, r);
  }
}
