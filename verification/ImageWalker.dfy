/** The memoised image walk: it reuses finished form and page walks, and stops at its budgets. */
module ImageWalker {
  import opened ImageGraph
  import opened ImageTrace
  import opened ImageMemo
  import opened ImageSteps
  import opened ImageIndex
  import opened ImageMemoWalk
  import opened ImageOrder

  /** The failing object behind a walk issue. */
  datatype IssueKey =
    | SharedIssue(key: ResKey)
    | PageIssue(page: nat)
    | XObjectIssue(num: nat)
    | DepthIssue(num: nat)
    | EntryIssue(key: ResKey)

  /** The pages a walk issue cut short, as inclusive ranges. */
  datatype WalkIssue = WalkIssue(firstPage: nat, ranges: seq<(nat, nat)>)

  /** The records gained only images with no page yet. */
  ghost predicate RecordsGrow(a: map<nat, seq<nat>>, b: map<nat, seq<nat>>) {
    && (forall x :: x in a ==> x in b && b[x] == a[x])
    && (forall x :: x in b && x !in a ==> b[x] == [])
  }

  /** Every image of rw is listed once and has a record, every issue of rw exists, and a walk with an
      issue is incomplete. */
  ghost predicate Recorded(rw: ResWalk, records: map<nat, seq<nat>>, issues: nat) {
    && EachOnce(rw.images)
    && (rw.issues != [] ==> rw.incomplete)
    && (forall i :: 0 <= i < |rw.images| ==> rw.images[i].num in records)
    && (forall i :: 0 <= i < |rw.issues| ==> rw.issues[i] < issues)
  }

  /** stack maps each form of path to its position. */
  ghost predicate StackHolds(stack: map<nat, nat>, path: seq<nat>) {
    && |stack| == |path|
    && (forall k :: 0 <= k < |path| ==> path[k] in stack && stack[path[k]] == k)
    && (forall x :: x in stack ==> x in path)
  }

  lemma OneIssueRecorded(id: nat, records: map<nat, seq<nat>>, issues: nat)
    requires id < issues
    ensures Recorded(ResWalk([], true, [id], 0, false, []), records, issues)
  {
    EmptyEachOnce();
  }

  lemma StartWalked(s: Store, es: seq<Entry>, st: seq<nat>, forms: map<nat, Stored>)
    requires |st| <= MAX_FORM_WALK_DEPTH
    ensures MemoWalk(s, es, 0, st, forms) == Walked(FoundOf(EMPTY_WALK), {}, NO_CYCLE, forms, 0, 0)
  {
  }

  lemma MoreSeen(images: seq<Use>, seen: set<nat>, x: nat)
    requires AllSeen(images, seen)
    ensures AllSeen(images, seen + {x})
  {
  }

  lemma PopRestores(stack: map<nat, nat>, num: nat, pos: nat)
    requires num !in stack
    ensures stack[num := pos] - {num} == stack
  {
  }

  class Walker {
    const store: Store
    const shared: map<ResKey, Resources>
    const budget: nat
    const useLimit: nat
    /** The forms that pages name directly. */
    ghost const roots: set<nat>

    var examined: nat
    var uses: nat
    var stopped: bool
    var stopPage: nat
    var stack: map<nat, nat>
    var records: map<nat, seq<nat>>
    var issues: seq<WalkIssue>
    var issueIDs: map<IssueKey, nat>
    var formMemo: map<nat, FormWalk>
    var pageMemo: map<ResKey, ResWalk>
    /** The stack each stored form walk was made under. */
    ghost var memoStack: map<nat, seq<nat>>

    constructor (store: Store, shared: map<ResKey, Resources>, budget: nat, useLimit: nat, ghost roots: set<nat>)
      ensures Valid() && this.store == store && this.shared == shared && this.roots == roots
      ensures this.budget == budget && this.useLimit == useLimit
      ensures !stopped && stack == map[] && records == map[] && issues == []
      ensures uses == 0 && examined == 0 && formMemo == map[] && pageMemo == map[] && PagesSound()
    {
      this.store, this.shared, this.budget, this.useLimit, this.roots := store, shared, budget, useLimit, roots;
      examined, uses, stopped, stopPage := 0, 0, false, 0;
      stack, records, issues, issueIDs, formMemo, memoStack, pageMemo := map[], map[], [], map[], map[], map[], map[];
    }

    /** Every issue id names an issue, and every stored form walk is sound. */
    ghost predicate TablesSound()
      reads this`issues, this`issueIDs, this`records, this`formMemo, this`memoStack
    {
      && (forall k :: k in issueIDs ==> issueIDs[k] < |issues|)
      && memoStack.Keys == formMemo.Keys
      && (forall f :: f in formMemo ==> MemoSound(store, roots, f, formMemo[f], memoStack[f]))
      && (forall f :: f in formMemo ==> Recorded(formMemo[f].rw, records, |issues|))
    }

    /** Both budgets hold and the tables are sound. */
    ghost predicate Valid()
      reads this`examined, this`uses, this`issues, this`issueIDs, this`records, this`formMemo, this`memoStack
    {
      examined <= budget && uses <= useLimit && TablesSound()
    }

    /** A walk of page that stops does so at page, and a stopped walk stays as it is. */
    twostate predicate Stops(page: nat)
      reads this`stopped, this`stopPage
    {
      && (old(stopped) ==> stopped && stopPage == old(stopPage))
      && (stopped && !old(stopped) ==> stopPage == page)
    }

    /** What walking does to the state: it leaves the stack as it was, and adds only images without pages
        and issues without ranges. */
    twostate predicate Advances(page: nat)
      reads this
    {
      && stack == old(stack) && old(uses) <= uses
      && RecordsGrow(old(records), records)
      && |old(issues)| <= |issues| && issues[..|old(issues)|] == old(issues)
      && (forall i :: |old(issues)| <= i < |issues| ==> issues[i] == WalkIssue(page, []))
      && Stops(page)
    }

    twostate predicate Grows(page: nat)
      reads this
    {
      pageMemo == old(pageMemo) && Advances(page)
    }

    /** Unless it takes more than the budgets leave, a walk leaves the form walks stored and takes just the steps and
        uses given. */
    twostate predicate Took(forms: map<nat, Stored>, steps: nat, cost: nat)
      reads this`stopped, this`formMemo, this`examined, this`uses
    {
      if stopped then old(examined) + steps > budget || old(uses) + cost > useLimit
      else FormsOf(formMemo) == forms && examined == old(examined) + steps && uses == old(uses) + cost
    }

    method Stop(page: nat)
      modifies this`stopped, this`stopPage
      ensures stopped && stopPage == page
    {
      stopped, stopPage := true, page;
    }

    /** Counts n more retained uses, or stops the walk when they do not fit. */
    method ChargeUses(n: nat, page: nat) returns (ok: bool)
      modifies this`uses, this`stopped, this`stopPage
      ensures ok == (old(uses) + n <= useLimit)
      ensures uses == if ok then old(uses) + n else old(uses)
      ensures stopped == (old(stopped) || !ok)
      ensures stopPage == if !ok && !old(stopped) then page else old(stopPage)
    {
      if uses + n > useLimit {
        if !stopped {
          Stop(page);
        }
        return false;
      }
      uses := uses + n;
      return true;
    }

    /** The id of the issue for k, added when k is new. */
    method Issue(k: IssueKey, page: nat) returns (id: nat)
      requires Valid()
      modifies this`issues, this`issueIDs
      ensures Valid() && Grows(page) && id < |issues| && k in issueIDs && issueIDs[k] == id
      ensures k in old(issueIDs) ==> issues == old(issues) && issueIDs == old(issueIDs)
      ensures k !in old(issueIDs) ==>
                issues == old(issues) + [WalkIssue(page, [])] && issueIDs == old(issueIDs)[k := id]
    {
      if k in issueIDs {
        return issueIDs[k];
      }
      id := |issues|;
      issues := issues + [WalkIssue(page, [])];
      issueIDs := issueIDs[k := id];
    }

    method RecordImage(num: nat)
      requires TablesSound()
      modifies this`records
      ensures TablesSound() && RecordsGrow(old(records), records)
      ensures records == if num in old(records) then old(records) else old(records)[num := []]
    {
      if num !in records {
        records := records[num := []];
      }
    }

    /** Walks the entries of one resources dictionary below path.  Unless the walk stops, the result is
        sound: it has the images of the plain walk. */
    method WalkResources(res: Resources, page: nat, depth: nat, ghost path: seq<nat>)
      returns (rw: ResWalk, low: nat, ok: bool)
      requires Valid() && !stopped && StackHolds(stack, path)
      requires depth == |path| <= MAX_FORM_WALK_DEPTH && Below(store, roots, EntriesOf(res), path)
      modifies this
      ensures Valid() && Grows(page) && Recorded(rw, records, |issues|)
      ensures ok == res.XObjects?
      ensures !ok ==> rw == EMPTY_WALK && low == NO_CYCLE && !stopped
      ensures stopped ==> rw.incomplete
      ensures ok && !stopped ==> Sound(store, roots, res.entries, |res.entries|, path, rw, low)
      ensures !ok ==> Took(FormsOf(old(formMemo)), 0, 0)
      ensures ok ==>
                var w := MemoWalk(store, res.entries, |res.entries|, path, FormsOf(old(formMemo)));
                Took(w.forms, w.steps, w.uses) && (!stopped ==> FoundOf(rw) == w.found && low == w.low)
      decreases MAX_FORM_WALK_DEPTH - |path|, 7
    {
      hide Sound, PlainWalk, Below, TablesSound, StackHolds, MemoWalk, MemoEntry;
      rw, low := EMPTY_WALK, NO_CYCLE;
      if res.Unreadable? {
        return rw, low, false;
      }
      ok := true;
      var es := res.entries;
      var seen: set<nat> := {};
      ghost var forms := FormsOf(formMemo);
      StartIsSound(store, roots, es, path);
      StartWalked(store, es, path, forms);
      var i := 0;
      while i < |es|
        invariant 0 <= i <= |es|
        invariant Valid() && Grows(page) && Recorded(rw, records, |issues|) && (stopped ==> rw.incomplete)
        invariant !stopped ==> Sound(store, roots, es, i, path, rw, low) && seen == PlainWalk(store, es, i, path).seen
        invariant var w := MemoWalk(store, es, i, path, forms);
                  && Took(w.forms, w.steps, w.uses)
                  && (!stopped ==> FoundOf(rw) == w.found && seen == w.seen && low == w.low)
      {
        CostGrows(store, es, i, |es|, path, forms);
        if stopped {
          return;
        }
        NextEntry(store, es, i, path, forms);
        CostGrows(store, es, i + 1, |es|, path, forms);
        if examined >= budget {
          rw := rw.(incomplete := true);
          Stop(page);
          return;
        }
        examined := examined + 1;
        rw, seen, low := WalkEntry(es, i, page, depth, path, rw, seen, low);
        i := i + 1;
      }
    }

    /** Walks entry n of es, after the sound walk rw0 of the entries before it. */
    method WalkEntry(es: seq<Entry>, n: nat, page: nat, depth: nat, ghost path: seq<nat>,
                     rw0: ResWalk, seen0: set<nat>, low0: nat)
      returns (rw: ResWalk, seen: set<nat>, low: nat)
      requires Valid() && !stopped && StackHolds(stack, path)
      requires depth == |path| <= MAX_FORM_WALK_DEPTH && n < |es| && Below(store, roots, es, path)
      requires Sound(store, roots, es, n, path, rw0, low0) && seen0 == PlainWalk(store, es, n, path).seen
      requires Recorded(rw0, records, |issues|)
      modifies this
      ensures Valid() && Grows(page) && Recorded(rw, records, |issues|)
      ensures stopped ==> rw.incomplete
      ensures !stopped ==>
                Sound(store, roots, es, n + 1, path, rw, low) && seen == PlainWalk(store, es, n + 1, path).seen
      ensures var w := MemoEntry(store, es[n], path,
                                 Walked(FoundOf(rw0), seen0, low0, FormsOf(old(formMemo)), 0, 0));
              Took(w.forms, w.steps, w.uses) && (!stopped ==> FoundOf(rw) == w.found && seen == w.seen && low == w.low)
      decreases MAX_FORM_WALK_DEPTH - |path|, 6
    {
      hide Sound, PlainWalk, Below, TablesSound, MemoForm, MergeWalk;
      rw, seen, low := rw0, seen0, low0;
      var e := es[n];
      if e.Direct? {
        StepNothing(store, roots, es, n, path, rw, low);
      } else if e.num in seen {
        StepSeen(store, roots, es, n, path, rw, low);
      } else if e.num in stack {
        StepCycle(store, roots, es, n, path, rw, low, stack[e.num]);
        low := Min(low, stack[e.num]);
      } else {
        var resolved;
        rw, seen, low, resolved := VisitXObject(es, n, page, depth, path, rw, seen, low);
        if !resolved {
          var id := Issue(XObjectIssue(e.num), page);
          rw := rw.(incomplete := true, issues := rw.issues + [id]);
          StepFailing(store, roots, es, n, path, rw0, low, rw);
        }
      }
    }

    /** Classifies entry n of es and adds what it reaches to rw0; resolved is false when its object fails
        to resolve, and then nothing changes. */
    method VisitXObject(es: seq<Entry>, n: nat, page: nat, depth: nat, ghost path: seq<nat>,
                        rw0: ResWalk, seen0: set<nat>, low0: nat)
      returns (rw: ResWalk, seen: set<nat>, low: nat, resolved: bool)
      requires Valid() && !stopped && StackHolds(stack, path)
      requires depth == |path| <= MAX_FORM_WALK_DEPTH && n < |es| && Below(store, roots, es, path)
      requires Sound(store, roots, es, n, path, rw0, low0) && seen0 == PlainWalk(store, es, n, path).seen
      requires Recorded(rw0, records, |issues|)
      requires es[n].Ref? && es[n].num !in seen0 && es[n].num !in path
      modifies this
      ensures Valid() && Grows(page) && Recorded(rw, records, |issues|)
      ensures resolved == !Lookup(store, es[n].num).Failing?
      ensures !resolved ==> rw == rw0 && seen == seen0 && low == low0 && !stopped
      ensures !resolved ==> issues == old(issues) && records == old(records)
      ensures stopped ==> rw.incomplete
      ensures resolved && !stopped ==>
                Sound(store, roots, es, n + 1, path, rw, low) && seen == PlainWalk(store, es, n + 1, path).seen
      ensures !resolved ==> Took(FormsOf(old(formMemo)), 0, 0)
      ensures resolved ==>
                var w := MemoEntry(store, es[n], path,
                                   Walked(FoundOf(rw0), seen0, low0, FormsOf(old(formMemo)), 0, 0));
                && Took(w.forms, w.steps, w.uses)
                && (!stopped ==> FoundOf(rw) == w.found && seen == w.seen && low == w.low)
      decreases MAX_FORM_WALK_DEPTH - |path|, 5
    {
      hide Sound, PlainWalk, Below, TablesSound, StackHolds, MemoForm, MergeWalk;
      rw, seen, low, resolved := rw0, seen0, low0, true;
      var e := es[n];
      match Lookup(store, e.num)
      case Failing =>
        resolved := false;
      case Other =>
        StepNothing(store, roots, es, n, path, rw0, low0);
      case Image =>
        SoundListsOnce(store, roots, es, n, path, rw0, low0);
        seen := seen + {e.num};
        rw := rw.(images := rw.images + [Use(e.num, e.gen, [e.key])]);
        StepImage(store, roots, es, n, path, rw0, low0, rw);
        RecordImage(e.num);
      case Form(r) =>
        if depth >= MAX_FORM_WALK_DEPTH {
          var id := Issue(DepthIssue(e.num), page);
          rw := rw.(incomplete := true, capped := true, issues := rw.issues + [id]);
          StepCapped(store, roots, es, n, path, rw0, low0, rw);
        } else {
          rw, seen, low := VisitForm(es, n, r, page, depth, path, rw0, seen0, low0);
        }
    }

    /** Walks the form that entry n of es names, and merges its walk. */
    method VisitForm(es: seq<Entry>, n: nat, r: Resources, page: nat, depth: nat, ghost path: seq<nat>,
                     rw0: ResWalk, seen0: set<nat>, low0: nat)
      returns (rw: ResWalk, seen: set<nat>, low: nat)
      requires Valid() && !stopped && StackHolds(stack, path)
      requires depth == |path| < MAX_FORM_WALK_DEPTH && n < |es| && Below(store, roots, es, path)
      requires Sound(store, roots, es, n, path, rw0, low0) && seen0 == PlainWalk(store, es, n, path).seen
      requires Recorded(rw0, records, |issues|)
      requires es[n].Ref? && Lookup(store, es[n].num) == Form(r) && es[n].num !in seen0 && es[n].num !in path
      modifies this
      ensures Valid() && Grows(page) && Recorded(rw, records, |issues|)
      ensures stopped ==> rw.incomplete
      ensures !stopped ==>
                Sound(store, roots, es, n + 1, path, rw, low) && seen == PlainWalk(store, es, n + 1, path).seen
      ensures var w := MemoEntry(store, es[n], path,
                                 Walked(FoundOf(rw0), seen0, low0, FormsOf(old(formMemo)), 0, 0));
              Took(w.forms, w.steps, w.uses) && (!stopped ==> FoundOf(rw) == w.found && seen == w.seen && low == w.low)
      decreases MAX_FORM_WALK_DEPTH - |path|, 4
    {
      hide Sound, SoundForm, PlainWalk, Below, TablesSound, StackHolds, AllForms, MemoForm, Merge, EachOnce, AllSeen;
      rw, seen, low := rw0, seen0, low0;
      var e := es[n];
      SoundListsOnce(store, roots, es, n, path, rw0, low0);
      MoreSeen(rw.images, seen, e.num);
      seen := seen + {e.num};
      BelowKid(store, roots, es, path, n);
      var child, up, childLow := WalkForm(e.num, r, page, depth, path);
      low := Min(low, childLow);
      rw, seen := MergeForm(e.key, child, up, page, rw, seen);
      if !stopped {
        StepForm(store, roots, es, n, path, rw0, low0, child, up, childLow, rw);
      }
    }

    /** Merges a form's walk into rw0, charging each guard, issue and image it adds; a charge that does
        not fit stops the walk. */
    method MergeForm(key: string, child: ResWalk, up: seq<nat>, page: nat, rw0: ResWalk, seen0: set<nat>)
      returns (rw: ResWalk, seen: set<nat>)
      requires uses <= useLimit && (stopped ==> child.incomplete)
      requires EachOnce(rw0.images) && AllSeen(rw0.images, seen0)
      modifies this`uses, this`stopped, this`stopPage
      ensures old(uses) <= uses <= useLimit && Stops(page) && (stopped ==> rw.incomplete)
      ensures Recorded(rw0, records, |issues|) && Recorded(child, records, |issues|) ==> Recorded(rw, records, |issues|)
      ensures !stopped ==>
                var m := Merge(key, child.images, |child.images|, Plain(rw0.images, seen0, false));
                && seen == m.seen
                && rw == ResWalk(m.images, rw0.incomplete || child.incomplete, rw0.issues + child.issues,
                                 Max(rw0.height, child.height + 1), rw0.capped || child.capped, rw0.guard + up)
      ensures !old(stopped) ==>
                var merged := MergeAll(key, child.images, rw0.images, seen0).images;
                var cost := |up| + |child.issues| + |merged| - |rw0.images|;
                if stopped then old(uses) + cost > useLimit else uses == old(uses) + cost
    {
      hide Merge, EachOnce, AllSeen;
      rw := rw0.(incomplete := rw0.incomplete || child.incomplete,
                 capped := rw0.capped || child.capped,
                 height := Max(rw0.height, child.height + 1));
      seen := seen0;
      if |up| > 0 {
        var fits := ChargeUses(|up|, page);
        if !fits {
          rw := rw.(incomplete := true);
          return;
        }
        rw := rw.(guard := rw.guard + up);
      }
      var issues1, fits := MergeIssues(child.issues, page, rw.issues);
      rw := rw.(issues := issues1);
      if !fits {
        rw := rw.(incomplete := true);
        return;
      }
      var images1;
      images1, seen, fits := MergeImages(key, child.images, page, rw.images, seen);
      rw := rw.(images := images1);
      if !fits {
        rw := rw.(incomplete := true);
      }
    }

    method MergeIssues(more: seq<nat>, page: nat, ids0: seq<nat>) returns (ids: seq<nat>, fits: bool)
      requires uses <= useLimit
      modifies this`uses, this`stopped, this`stopPage
      ensures old(uses) <= uses <= useLimit && Stops(page) && stopped == (old(stopped) || !fits)
      ensures forall i :: 0 <= i < |ids| ==> ids[i] in ids0 || ids[i] in more
      ensures fits ==> ids == ids0 + more
      ensures if fits then uses == old(uses) + |more| else old(uses) + |more| > useLimit
    {
      ids, fits := ids0, true;
      var j := 0;
      while j < |more|
        invariant 0 <= j <= |more| && old(uses) <= uses <= useLimit
        invariant stopped == old(stopped) && stopPage == old(stopPage) && uses == old(uses) + j
        invariant ids == ids0 + more[..j]
      {
        fits := ChargeUses(1, page);
        if !fits {
          return;
        }
        ids := ids + [more[j]];
        j := j + 1;
      }
      assert more[..|more|] == more;
    }

    method MergeImages(key: string, more: seq<Use>, page: nat, images0: seq<Use>, seen0: set<nat>)
      returns (images: seq<Use>, seen: set<nat>, fits: bool)
      requires uses <= useLimit && EachOnce(images0) && AllSeen(images0, seen0)
      modifies this`uses, this`stopped, this`stopPage
      ensures old(uses) <= uses <= useLimit && Stops(page) && stopped == (old(stopped) || !fits)
      ensures EachOnce(images)
      ensures forall i :: 0 <= i < |images| ==> Lists(images0, images[i].num) || Lists(more, images[i].num)
      ensures fits ==> var m := Merge(key, more, |more|, Plain(images0, seen0, false));
                       images == m.images && seen == m.seen
      ensures var cost := |MergeAll(key, more, images0, seen0).images| - |images0|;
              if fits then uses == old(uses) + cost else old(uses) + cost > useLimit
    {
      images, seen, fits := images0, seen0, true;
      ghost var plain := Plain(images0, seen0, false);
      var i := 0;
      while i < |more|
        invariant 0 <= i <= |more| && old(uses) <= uses <= useLimit
        invariant stopped == old(stopped) && stopPage == old(stopPage)
        invariant images == Merge(key, more, i, plain).images && seen == Merge(key, more, i, plain).seen
        invariant uses == old(uses) + |images| - |images0|
        invariant EachOnce(images) && AllSeen(images, seen)
        invariant forall k :: 0 <= k < |images| ==> Lists(images0, images[k].num) || Lists(more, images[k].num)
      {
        var u := more[i];
        if u.num !in seen {
          fits := ChargeUses(1, page);
          MergeGrows(key, more, i + 1, |more|, plain);
          if !fits {
            return;
          }
          seen := seen + {u.num};
          images := images + [Use(u.num, u.gen, [key] + u.path)];
        }
        i := i + 1;
      }
    }

    /** Walks form num, or reuses its stored walk.  up is what the caller adds to its own guard and low
        the lowest position above the form that its cycles close at. */
    method WalkForm(num: nat, r: Resources, page: nat, depth: nat, ghost path: seq<nat>)
      returns (rw: ResWalk, up: seq<nat>, low: nat)
      requires Valid() && !stopped && StackHolds(stack, path)
      requires depth == |path| < MAX_FORM_WALK_DEPTH && num !in path && Lookup(store, num) == Form(r)
      requires Below(store, roots, FormEntries(store, num), path + [num]) && AllForms(store, path)
      requires forall k :: 0 <= k < |path| ==> Reaches(store, path[k], num)
      modifies this
      ensures Valid() && Grows(page) && Recorded(rw, records, |issues|)
      ensures stopped ==> rw.incomplete
      ensures !stopped ==> SoundForm(store, roots, num, path, rw, up, low)
      ensures var c := MemoForm(store, r, num, path, FormsOf(old(formMemo)));
              Took(c.forms, c.steps, c.uses) && (!stopped ==> FoundOf(rw) == c.found && up == c.up && low == c.low)
      decreases MAX_FORM_WALK_DEPTH - |path|, 3
    {
      hide MemoSound, Sound, SoundForm, PlainWalk, Below, AllForms, MemoOwn, Finish, CanReuse;
      if num in formMemo {
        CanReuseStored(formMemo, num, path);
      }
      if num in formMemo && Reusable(formMemo[num], depth) {
        var memo := formMemo[num];
        rw, low := memo.rw, NO_CYCLE;
        up := if rw.capped then [num] + rw.guard else [];
        ReuseIsSound(store, roots, num, memo, memoStack[num], path, up);
        return;
      }
      rw, up, low := WalkFormAfresh(num, r, page, depth, path);
    }

    /** No form the stored walk guards is being walked above, and the cap falls in the same place. */
    predicate Reusable(memo: FormWalk, depth: nat)
      reads this`stack
    {
      && (forall f :: f in memo.rw.guard ==> f !in stack)
      && ((memo.rw.capped && memo.depth == depth) ||
          (!memo.rw.capped && depth + memo.rw.height < MAX_FORM_WALK_DEPTH))
    }

    /** Walks form num and stores the walk when it depends on no form above num. */
    method WalkFormAfresh(num: nat, r: Resources, page: nat, depth: nat, ghost path: seq<nat>)
      returns (rw: ResWalk, up: seq<nat>, low: nat)
      requires Valid() && !stopped && StackHolds(stack, path)
      requires depth == |path| < MAX_FORM_WALK_DEPTH && num !in path && Lookup(store, num) == Form(r)
      requires Below(store, roots, FormEntries(store, num), path + [num]) && AllForms(store, path)
      modifies this
      ensures Valid() && Grows(page) && Recorded(rw, records, |issues|)
      ensures stopped ==> rw.incomplete
      ensures !stopped ==> SoundForm(store, roots, num, path, rw, up, low)
      ensures var c := Finish(num, depth, MemoOwn(store, r, num, path, FormsOf(old(formMemo))));
              Took(c.forms, c.steps, c.uses) && (!stopped ==> FoundOf(rw) == c.found && up == c.up && low == c.low)
      decreases MAX_FORM_WALK_DEPTH - |path|, 2
    {
      hide MemoSound, Sound, SoundForm, PlainWalk, Below, AllForms, TablesSound, StackHolds, MemoOwn;
      var childLow;
      rw, childLow := WalkOwnResources(num, r, page, depth, path);
      var pos := depth;
      up := if childLow < pos || rw.capped then rw.guard + [num] else [];
      low := if childLow < pos then childLow else NO_CYCLE;
      if !stopped {
        if r.XObjects? {
          FreshIsSound(store, roots, num, path, rw, childLow, up);
        } else {
          StoreUnreadable(store, roots, num, path, rw);
        }
        if pos <= childLow {
          FormsStored(formMemo, num, FormWalk(rw, depth));
          Store(num, FormWalk(rw, depth), path, childLow);
        }
      }
    }

    /** Walks form num's own resources with num on the stack; resources that cannot be read are an issue. */
    method WalkOwnResources(num: nat, r: Resources, page: nat, depth: nat, ghost path: seq<nat>)
      returns (rw: ResWalk, childLow: nat)
      requires Valid() && !stopped && StackHolds(stack, path)
      requires depth == |path| < MAX_FORM_WALK_DEPTH && num !in path && Lookup(store, num) == Form(r)
      requires Below(store, roots, FormEntries(store, num), path + [num])
      modifies this
      ensures Valid() && Grows(page) && Recorded(rw, records, |issues|)
      ensures stopped ==> rw.incomplete
      ensures !stopped && r.XObjects? ==>
                Sound(store, roots, FormEntries(store, num), |FormEntries(store, num)|, path + [num], rw, childLow)
      ensures r.Unreadable? ==>
                !stopped && childLow == NO_CYCLE && rw == ResWalk([], true, rw.issues, 0, false, []) && rw.issues != []
      ensures var w := MemoOwn(store, r, num, path, FormsOf(old(formMemo)));
              Took(w.forms, w.steps, w.uses) && (!stopped ==> FoundOf(rw) == w.found && childLow == w.low)
      decreases MAX_FORM_WALK_DEPTH - |path|, 1
    {
      hide Sound, Below, TablesSound, StackHolds, EachOnce, Recorded, MemoWalk, RecordsGrow, FormsOf, Valid;
      var ok;
      rw, childLow, ok := WalkBelow(num, r, page, depth, path);
      if !ok {
        var id := Issue(XObjectIssue(num), page);
        rw := ResWalk([], true, [id], 0, false, []);
        OneIssueRecorded(id, records, |issues|);
      }
    }

    /** Walks the resources r with form num on the stack. */
    method WalkBelow(num: nat, r: Resources, page: nat, depth: nat, ghost path: seq<nat>)
      returns (rw: ResWalk, low: nat, ok: bool)
      requires Valid() && !stopped && StackHolds(stack, path)
      requires depth == |path| < MAX_FORM_WALK_DEPTH && num !in path
      requires Below(store, roots, EntriesOf(r), path + [num])
      modifies this
      ensures Valid() && Grows(page) && Recorded(rw, records, |issues|)
      ensures ok == r.XObjects?
      ensures !ok ==> low == NO_CYCLE && !stopped && Took(FormsOf(old(formMemo)), 0, 0)
      ensures stopped ==> rw.incomplete
      ensures ok && !stopped ==> Sound(store, roots, r.entries, |r.entries|, path + [num], rw, low)
      ensures ok ==>
                var w := MemoWalk(store, r.entries, |r.entries|, path + [num], FormsOf(old(formMemo)));
                Took(w.forms, w.steps, w.uses) && (!stopped ==> FoundOf(rw) == w.found && low == w.low)
      decreases MAX_FORM_WALK_DEPTH - |path|, 0
    {
      hide Sound, Below, TablesSound, StackHolds, EachOnce, Recorded, MemoWalk, RecordsGrow, FormsOf, Valid;
      Push(num, path);
      rw, low, ok := WalkResources(r, page, depth + 1, path + [num]);
      PopRestores(old(stack), num, |path|);
      stack := stack - {num};
    }

    method Push(num: nat, ghost path: seq<nat>)
      requires StackHolds(stack, path) && num !in path
      modifies this`stack
      ensures stack == old(stack)[num := |path|] && StackHolds(stack, path + [num])
      ensures num !in old(stack) && |old(stack)| == |path|
    {
      stack := stack[num := |stack|];
    }

    /** Stores a finished form walk, unless one made nearer the page is stored already. */
    method Store(num: nat, fw: FormWalk, ghost path: seq<nat>, ghost childLow: nat)
      requires Valid() && Recorded(fw.rw, records, |issues|)
      requires Lookup(store, num).Form? && fw.depth == |path| < MAX_FORM_WALK_DEPTH && num !in path
        && AllForms(store, path)
      requires if Lookup(store, num).resources.XObjects?
               then |path| <= childLow &&
                    Sound(store, roots, FormEntries(store, num), |FormEntries(store, num)|, path + [num], fw.rw,
                          childLow)
               else fw.rw.images == [] && fw.rw.incomplete && fw.rw.issues != [] && !fw.rw.capped
      modifies this`formMemo, this`memoStack
      ensures Valid()
      ensures formMemo == if num in old(formMemo) && old(formMemo)[num].depth < fw.depth then old(formMemo)
                          else old(formMemo)[num := fw]
    {
      if num !in formMemo || fw.depth <= formMemo[num].depth {
        if Lookup(store, num).resources.XObjects? {
          StoreIsSound(store, roots, num, path, fw.rw, childLow);
        } else {
          StoreUnreadable(store, roots, num, path, fw.rw);
        }
        formMemo := formMemo[num := fw];
        memoStack := memoStack[num := path];
      }
    }

    /** Every stored page walk is sound. */
    ghost predicate PagesSound()
      reads this`pageMemo, this`records, this`issues
    {
      forall k :: k in pageMemo ==>
        PageSound(store, roots, SharedResourcesOf(shared, k), pageMemo[k]) && Recorded(pageMemo[k], records, |issues|)
    }

    /** Walks the resources of page, or reuses the walk of resources an earlier page shares. */
    method WalkPage(pr: PageResources, page: nat) returns (rw: ResWalk)
      requires Valid() && PagesSound() && !stopped && stack == map[]
      requires Below(store, roots, EntriesOf(ResourcesOf(shared, pr)), [])
      modifies this
      ensures Valid() && PagesSound() && Advances(page) && Recorded(rw, records, |issues|)
      ensures stopped ==> rw.incomplete
      ensures !stopped ==> PageSound(store, roots, ResourcesOf(shared, pr), rw)
      ensures var w := MemoShared(store, shared, pr, FormsOf(old(formMemo)), PagesOf(old(pageMemo)));
              Took(w.forms, w.steps, w.uses) && (!stopped ==> FoundOf(rw) == w.found && PagesOf(pageMemo) == w.pages)
    {
      hide Below, TablesSound, PageSound, EachOnce, MemoPage;
      if pr.Shared? && pr.key in pageMemo {
        return pageMemo[pr.key];
      }
      var k := match pr { case Private(_) => PageIssue(page) case Shared(key) => SharedIssue(key) };
      rw := WalkPageAfresh(ResourcesOf(shared, pr), k, page);
      if pr.Shared? && !stopped {
        PagesStored(pageMemo, pr.key, rw);
        pageMemo := pageMemo[pr.key := rw];
      }
    }

    /** Walks the resources res of page; resources that cannot be read are the issue k. */
    method WalkPageAfresh(res: Resources, k: IssueKey, page: nat) returns (rw: ResWalk)
      requires Valid() && !stopped && stack == map[] && Below(store, roots, EntriesOf(res), [])
      modifies this
      ensures Valid() && Grows(page) && Recorded(rw, records, |issues|)
      ensures stopped ==> rw.incomplete
      ensures !stopped ==> PageSound(store, roots, res, rw)
      ensures var w := MemoPage(store, res, FormsOf(old(formMemo)));
              Took(w.forms, w.steps, w.uses) && (!stopped ==> FoundOf(rw) == w.found)
    {
      hide Sound, Below, TablesSound, PageSound, FlagsAgree, EachOnce, MemoWalk;
      EmptyEachOnce();
      var low, ok;
      rw, low, ok := WalkResources(res, page, 0, []);
      if !ok {
        var id := Issue(k, page);
        rw := ResWalk([], true, [id], 0, false, []);
        UnreadablePage(store, roots, rw);
      } else if !stopped {
        SoundPage(store, roots, res.entries, rw, low);
      }
    }

    /** Adds page to the pages issue id cut short: a page next to the last range extends it, and a new
        range is charged as one use. */
    method NoteIssuePage(id: nat, page: nat)
      requires Valid() && PagesSound() && id < |issues|
      modifies this`issues, this`uses, this`stopped, this`stopPage
      ensures Valid() && PagesSound() && |issues| == |old(issues)| && old(uses) <= uses && Stops(page)
      ensures forall i :: 0 <= i < |issues| && i != id ==> issues[i] == old(issues)[i]
      ensures AllBy(old(issues)[id].ranges, page) ==> NotedOn(old(issues)[id], issues[id], page, true, !stopped)
      ensures uses <= old(uses) + 1 && (stopped && !old(stopped) ==> old(uses) + 1 > useLimit)
    {
      hide MemoSound, PageSound, EachOnce;
      var issue := issues[id];
      var n := |issue.ranges|;
      if n > 0 && page <= issue.ranges[n - 1].1 + 1 {
        var r := issue.ranges[n - 1];
        ghost var ranges0 := issue.ranges;
        issue := issue.(ranges := issue.ranges[n - 1 := (r.0, Max(r.1, page))]);
        ExtendLast(ranges0, page);
        issues := issues[id := issue];
        return;
      }
      var fits := ChargeUses(1, page);
      if fits {
        AppendRange(issue.ranges, page);
        issues := issues[id := issue.(ranges := issue.ranges + [(page, page)])];
      }
    }

    /** Adds page to the page list of every image in images. */
    method RecordPages(images: seq<Use>, page: nat)
      requires EachOnce(images) && forall i :: 0 <= i < |images| ==> images[i].num in records
      requires TablesSound() && PagesSound()
      modifies this`records
      ensures PageAdded(old(records), records, images, page) && records.Keys == old(records).Keys
      ensures TablesSound() && PagesSound()
    {
      hide MemoSound, PageSound, EachOnce;
      var i := 0;
      while i < |images|
        invariant 0 <= i <= |images| && records.Keys == old(records).Keys
        invariant forall x :: x in records ==>
                    records[x] == old(records)[x] + (if Lists(images[..i], x) then [page] else [])
      {
        ListsNext(images, i);
        records := records[images[i].num := records[images[i].num] + [page]];
        i := i + 1;
      }
      assert images[..|images|] == images;
      KeepTables();
    }

    /** The tables depend on which images have records, not on their pages. */
    twostate lemma KeepTables()
      requires old(TablesSound()) && old(PagesSound()) && records.Keys == old(records).Keys
      requires unchanged(this`issues, this`issueIDs, this`formMemo, this`memoStack, this`pageMemo)
      ensures TablesSound() && PagesSound()
    {
      hide MemoSound, PageSound, EachOnce;
    }

    /** Adds page to the pages of each issue in ids, and to no others. */
    method NoteIssuePages(ids: seq<nat>, page: nat)
      requires Valid() && PagesSound() && forall i :: 0 <= i < |ids| ==> ids[i] < |issues|
      modifies this`issues, this`uses, this`stopped, this`stopPage
      ensures Valid() && PagesSound() && |issues| == |old(issues)| && old(uses) <= uses && Stops(page)
      ensures ids == [] ==> stopped == old(stopped)
      ensures AllBefore(old(issues), page) ==>
                forall k :: 0 <= k < |issues| ==> NotedOn(old(issues)[k], issues[k], page, k in ids, !stopped)
      ensures uses <= old(uses) + |ids| && (stopped && !old(stopped) ==> old(uses) + |ids| > useLimit)
    {
      hide TablesSound, PagesSound, AllBy, InRanges;
      var i := 0;
      while i < |ids|
        invariant 0 <= i <= |ids|
        invariant Valid() && PagesSound() && |issues| == |old(issues)| && old(uses) <= uses && Stops(page)
        invariant ids == [] ==> stopped == old(stopped)
        invariant uses <= old(uses) + i && (stopped && !old(stopped) ==> old(uses) + i > useLimit)
        invariant AllBefore(old(issues), page) ==>
                    forall k :: 0 <= k < |issues| ==> NotedOn(old(issues)[k], issues[k], page, k in ids[..i], !stopped)
      {
        assert ids[..i + 1] == ids[..i] + [ids[i]];
        NoteIssuePage(ids[i], page);
        i := i + 1;
      }
      assert ids[..|ids|] == ids;
    }

    /** Unless the budgets do not allow what w takes, the walk so far stored what w stores and took no more. */
    ghost predicate Did(w: Paged)
      reads this`stopped, this`formMemo, this`pageMemo, this`examined, this`uses
    {
      if stopped then w.steps > budget || w.uses > useLimit
      else FormsOf(formMemo) == w.forms && PagesOf(pageMemo) == w.pages && examined == w.steps && uses <= w.uses
    }

    /** What a page's walk, and listing it, take. */
    lemma LeafDid(leaf: Leaf, w: Paged, p: PageWalked)
      requires p == MemoShared(store, shared, leaf.resources, w.forms, w.pages)
      requires var cost := w.uses + p.uses + |p.found.images| + p.found.issues + if leaf.unread.Some? then 1 else 0;
        if stopped then w.steps + p.steps > budget || cost > useLimit
        else
          && FormsOf(formMemo) == p.forms && PagesOf(pageMemo) == p.pages
          && examined == w.steps + p.steps && uses <= cost
      ensures Did(MemoLeaf(store, shared, leaf, w))
      ensures MemoLeaf(store, shared, leaf, w).groups[|w.groups|] ==
        Group(|w.groups| + 1, p.found.images, leaf.failed || leaf.unread.Some? || p.found.incomplete)
    {
    }

    /** Walks one numbered page, unless the walk has stopped, and returns its group.  A page walked to its
        end is incomplete exactly when it failed to read or some issue names it. */
    method WalkLeaf(leaf: Leaf, page: nat, ghost w: Paged) returns (g: Group)
      requires Valid() && PagesSound() && stack == map[] && Did(w) && page == |w.groups| + 1
      requires Below(store, roots, EntriesOf(ResourcesOf(shared, leaf.resources)), [])
      modifies this
      ensures Valid() && PagesSound() && stack == map[] && Stops(page)
      ensures g.page == page && EachOnce(g.images) && PageAdded(old(records), records, g.images, page)
      ensures old(uses) + |g.images| <= uses
      ensures old(stopped) ==> g == Group(page, [], leaf.failed)
      ensures stopped && !old(stopped) ==> g.incomplete
      ensures !stopped ==>
                GroupSound(store, roots, ResourcesOf(shared, leaf.resources), leaf.failed || leaf.unread.Some?, g)
      ensures page > 0 && AllBefore(old(issues), page - 1) ==>
                && NamedAfter(old(issues), issues, page, true, false)
                && (!stopped ==> (g.incomplete <==> leaf.failed || Named(issues, page)))
      ensures Did(MemoLeaf(store, shared, leaf, w))
      ensures !stopped ==> g == MemoLeaf(store, shared, leaf, w).groups[|w.groups|]
    {
      hide Below, TablesSound, PagesSound, EachOnce, AllBefore, NamedAfter, NotedOn, Named;
      hide MemoShared, MemoLeaf, FormsOf, PagesOf;
      EmptyEachOnce();
      ghost var p := MemoShared(store, shared, leaf.resources, w.forms, w.pages);
      g := Group(page, [], leaf.failed);
      ghost var issues0 := issues;
      NothingNoted(issues, page);
      if stopped {
        LeafNames(issues0, issues, issues, page, false, true, false, true);
        LeafDid(leaf, w, p);
        return;
      }
      if leaf.unread.Some? {
        g := g.(incomplete := true);
        NoteEntry(leaf.unread.value, page);
        if stopped {
          NothingNoted(issues, page);
          LeafNames(issues0, issues, issues, page, true, false, false, true);
          LeafDid(leaf, w, p);
          return;
        }
      }
      ghost var issues1 := issues;
      ghost var named;
      g, named := WalkAndList(g, leaf.resources, page);
      LeafNames(issues0, issues1, issues, page, leaf.unread.Some?, true, named, !stopped);
      LeafDid(leaf, w, p);
    }

    /** Walks the resources of page, and lists their images in its group; named is whether some issue then names the
        page for what was walked. */
    method WalkAndList(g0: Group, pr: PageResources, page: nat) returns (g: Group, ghost named: bool)
      requires Valid() && PagesSound() && stack == map[] && !stopped && g0.images == [] && g0.page == page
      requires Below(store, roots, EntriesOf(ResourcesOf(shared, pr)), [])
      modifies this
      ensures Valid() && PagesSound() && stack == map[] && Stops(page)
      ensures g.page == page && EachOnce(g.images) && PageAdded(old(records), records, g.images, page)
      ensures old(uses) + |g.images| <= uses && (stopped ==> g.incomplete)
      ensures !stopped ==> GroupSound(store, roots, ResourcesOf(shared, pr), g0.incomplete, g)
      ensures AllBefore(old(issues), page) ==> NamedAfter(old(issues), issues, page, named, !stopped)
      ensures !stopped ==> g.incomplete == (g0.incomplete || named)
      ensures var p := MemoShared(store, shared, pr, FormsOf(old(formMemo)), PagesOf(old(pageMemo)));
              var cost := p.uses + |p.found.images| + p.found.issues;
              if stopped then old(examined) + p.steps > budget || old(uses) + cost > useLimit
              else
                && FormsOf(formMemo) == p.forms && PagesOf(pageMemo) == p.pages
                && examined == old(examined) + p.steps && uses <= old(uses) + cost
                && g == Group(page, p.found.images, g0.incomplete || p.found.incomplete)
    {
      hide Below, TablesSound, PagesSound, EachOnce, AllBefore, NamedAfter, NotedOn, Named, MemoShared, FormsOf,
           PagesOf;
      var rw := WalkPage(pr, page);
      ghost var issues1 := issues;
      PageNames(old(issues), issues, page);
      g := ListPage(g0, rw, page);
      named := rw.issues != [];
      if AllBefore(old(issues), page) {
        NamedAreBefore(old(issues), issues1, page);
        NamedTwice(old(issues), issues1, issues, page, false, true, named, !stopped);
      }
    }

    /** Notes page on the issue of a /Resources entry that failed to resolve. */
    method NoteEntry(key: ResKey, page: nat)
      requires Valid() && PagesSound() && !stopped
      modifies this
      ensures Valid() && PagesSound() && stack == old(stack) && old(uses) <= uses && Stops(page)
      ensures RecordsGrow(old(records), records)
      ensures AllBefore(old(issues), page) ==> NamedAfter(old(issues), issues, page, true, !stopped)
      ensures formMemo == old(formMemo) && pageMemo == old(pageMemo) && examined == old(examined)
      ensures uses <= old(uses) + 1 && (stopped ==> old(uses) + 1 > useLimit)
    {
      hide TablesSound, EachOnce, AllBefore, NamedAfter, NotedOn;
      ghost var issues0 := issues;
      var id := Issue(EntryIssue(key), page);
      ghost var issues1 := issues;
      NoteIssuePages([id], page);
      if AllBefore(issues0, page) {
        NewNameNothing(issues0, issues1, page, true);
        assert AllBefore(issues1, page) by { NamedAreBefore(issues0, issues1, page); }
        NotedAreNamed(issues1, issues, page, [id], !stopped);
        NamedTwice(issues0, issues1, issues, page, false, true, true, !stopped);
      }
    }

    /** Lists the images of the page walk rw in the page's group, unless they do not fit under the use
        limit. */
    method ListPage(g0: Group, rw: ResWalk, page: nat) returns (g: Group)
      requires Valid() && PagesSound() && Recorded(rw, records, |issues|) && (stopped ==> rw.incomplete)
      requires g0.images == []
      modifies this`records, this`issues, this`uses, this`stopped, this`stopPage
      ensures Valid() && PagesSound() && Stops(page) && old(uses) + |g.images| <= uses
      ensures g.page == g0.page && EachOnce(g.images) && PageAdded(old(records), records, g.images, page)
      ensures stopped ==> g.incomplete
      ensures !stopped ==> g.images == rw.images && g.incomplete == (g0.incomplete || rw.incomplete)
      ensures AllBefore(old(issues), page) ==> NamedAfter(old(issues), issues, page, rw.issues != [], !stopped)
      ensures var cost := |rw.images| + |rw.issues|;
              uses <= old(uses) + cost && (stopped && !old(stopped) ==> old(uses) + cost > useLimit)
    {
      hide TablesSound, EachOnce, AllBefore, NamedAfter, NotedOn;
      EmptyEachOnce();
      g := g0.(incomplete := g0.incomplete || rw.incomplete);
      var fits := ChargeUses(|rw.images|, page);
      if !fits {
        g := g.(incomplete := true);
        NothingNoted(issues, page);
        return;
      }
      g := g.(images := rw.images);
      RecordPages(rw.images, page);
      NoteIssuePages(rw.issues, page);
      if AllBefore(old(issues), page) {
        NotedAreNamed(old(issues), issues, page, rw.issues, !stopped);
      }
    }

    /** Every form a page names directly is in roots. */
    ghost predicate RootsCover(pages: seq<Leaf>) {
      forall i :: 0 <= i < |pages| ==> Below(store, roots, EntriesOf(ResourcesOf(shared, pages[i].resources)), [])
    }

    /** Every page up to n that the walk finished has the group of its plain walk. */
    ghost predicate PagesDone(pages: seq<Leaf>, n: nat, groups: seq<Group>)
      reads this`stopped, this`stopPage
      requires n <= |pages|
    {
      forall p :: 1 <= p <= n && (stopped ==> p < stopPage) ==>
        GroupSound(store, roots, ResourcesOf(shared, pages[p - 1].resources),
                   pages[p - 1].failed || pages[p - 1].unread.Some?, GroupAt(groups, p))
    }

    /** The issues name exactly the pages up to n that are incomplete, but for pages that failed to read. */
    ghost predicate IssuesName(pages: seq<Leaf>, n: nat, groups: seq<Group>)
      reads this`stopped, this`stopPage, this`issues
      requires n <= |pages|
    {
      forall p :: 1 <= p <= n && (stopped ==> p < stopPage) ==>
        (GroupAt(groups, p).incomplete <==> pages[p - 1].failed || Named(issues, p))
    }

    /** A stopped walk marks the page it stopped at, and has no group after it. */
    ghost predicate StopMarked(n: nat, groups: seq<Group>)
      reads this`stopped, this`stopPage
    {
      stopped ==>
        && 1 <= stopPage <= n && GroupAt(groups, stopPage).incomplete
        && forall k :: 0 <= k < |groups| ==> groups[k].page <= stopPage
    }

    lemma NoPages(pages: seq<Leaf>)
      requires !stopped && formMemo == map[] && pageMemo == map[] && examined == uses == 0
      ensures Did(MemoPages(store, shared, pages, 0)) && MemoPages(store, shared, pages, 0).groups == []
    {
    }

    lemma NextPage(pages: seq<Leaf>, i: nat)
      requires i < |pages|
      ensures var w := MemoPages(store, shared, pages, i);
              var next := MemoLeaf(store, shared, pages[i], w);
              MemoPages(store, shared, pages, i + 1) == next && next.groups == w.groups + [next.groups[i]]
    {
    }

    /** Walks every numbered page.  The groups and page lists are inverse; the group of every page before
        the stop is its plain walk; the issues name exactly the pages cut short; and a group that is not
        incomplete lists exactly what is reachable. */
    method Build(pages: seq<Leaf>) returns (t: Tree)
      requires Valid() && PagesSound() && stack == map[] && !stopped && records == map[] && uses == 0 && issues == []
      requires formMemo == map[] && pageMemo == map[] && examined == 0
      requires RootsCover(pages)
      modifies this
      ensures Indexed(t.groups, t.pages, |pages|)
      ensures examined <= budget && ImageCount(t.groups) <= uses <= useLimit
      ensures PagesDone(pages, |pages|, t.groups) && StopMarked(|pages|, t.groups)
      ensures PagesInOrder(pages, t.groups)
      ensures IssuesName(pages, |pages|, t.groups)
      ensures forall k :: 0 <= k < |t.groups| && !t.groups[k].incomplete ==>
                ExactlyReachable(store, ResourcesOf(shared, pages[t.groups[k].page - 1].resources), t.groups[k].images)
      ensures var w := MemoPages(store, shared, pages, |pages|);
              Did(w) && (!stopped ==> GroupsAre(t.groups, w.groups))
    {
      hide Below, TablesSound, PagesSound, GroupSound, Indexed, ExactlyReachable, EachOnce, PageAdded, NamedAfter;
      hide AllBefore, Named, GroupAt, ImageCount, InRanges, AllBy, Lists, GroupsAre, MemoLeaf, MemoPages, Did;
      hide PagesInOrder;
      NoneBefore();
      NoGroups();
      NoPages(pages);
      var groups: seq<Group> := [];
      NothingIndexed();
      var i := 0;
      while i < |pages|
        invariant 0 <= i <= |pages|
        invariant Valid() && PagesSound() && stack == map[]
        invariant Indexed(groups, records, i) && ImageCount(groups) <= uses
        invariant PagesDone(pages, i, groups) && StopMarked(i, groups)
        invariant AllBefore(issues, i) && IssuesName(pages, i, groups)
        invariant Did(MemoPages(store, shared, pages, i))
        invariant !stopped ==> GroupsAre(groups, MemoPages(store, shared, pages, i).groups)
      {
        var done := groups;
        IndexedPages(done, records, i);
        ghost var records0, issues0 := records, issues;
        ghost var w := MemoPages(store, shared, pages, i);
        var g := WalkLeaf(pages[i], i + 1, w);
        NextPage(pages, i);
        NamesBefore(issues0, issues, i + 1);
        if !(stopped && g.page > stopPage) && (|g.images| > 0 || g.incomplete) {
          groups := groups + [g];
        }
        AddPage(done, records0, i, g, records, groups);
        AddGroup(done, i, g, groups);
        if !stopped {
          GroupsGrow(done, w.groups, groups, g);
        }
        i := i + 1;
      }
      t := Tree(groups, map x | x in records && records[x] != [] :: records[x]);
      DropUnused(groups, records, |pages|);
      IndexedPages(groups, t.pages, |pages|);
      CompleteGroupsAreExact(pages, groups);
      GroupsInOrder(pages, groups);
    }

    /** Every page that the walk finished lists its images in walk order. */
    ghost predicate PagesInOrder(pages: seq<Leaf>, groups: seq<Group>)
      reads this`stopped, this`stopPage
    {
      forall p :: 1 <= p <= |pages| && (stopped ==> p < stopPage) ==>
        WalkOrder(store, ResourcesOf(shared, pages[p - 1].resources), GroupAt(groups, p).images)
    }

    lemma GroupsInOrder(pages: seq<Leaf>, groups: seq<Group>)
      requires PagesDone(pages, |pages|, groups)
      ensures PagesInOrder(pages, groups)
    {
      hide WalkOrder, GroupAt;
      forall p | 1 <= p <= |pages| && (stopped ==> p < stopPage)
        ensures WalkOrder(store, ResourcesOf(shared, pages[p - 1].resources), GroupAt(groups, p).images)
      {
        PageInOrder(store, ResourcesOf(shared, pages[p - 1].resources));
      }
    }

    lemma CompleteGroupsAreExact(pages: seq<Leaf>, groups: seq<Group>)
      requires InOrder(groups) && forall k :: 0 <= k < |groups| ==> 1 <= groups[k].page <= |pages|
      requires PagesDone(pages, |pages|, groups) && StopMarked(|pages|, groups)
      ensures forall k :: 0 <= k < |groups| && !groups[k].incomplete ==>
                ExactlyReachable(store, ResourcesOf(shared, pages[groups[k].page - 1].resources), groups[k].images)
    {
      hide GroupSound, ExactlyReachable;
      forall k | 0 <= k < |groups| && !groups[k].incomplete
        ensures ExactlyReachable(store, ResourcesOf(shared, pages[groups[k].page - 1].resources), groups[k].images)
      {
        var p := groups[k].page;
        GroupOf(groups, k);
        CompleteGroupIsExact(store, roots, ResourcesOf(shared, pages[p - 1].resources),
                             pages[p - 1].failed || pages[p - 1].unread.Some?, groups[k]);
      }
    }
  }

  /** The groups, those left out included, are the groups all. */
  ghost predicate GroupsAre(groups: seq<Group>, all: seq<Group>) {
    forall p :: 1 <= p <= |all| ==> GroupAt(groups, p) == all[p - 1]
  }

  lemma GroupsGrow(done: seq<Group>, all: seq<Group>, groups: seq<Group>, g: Group)
    requires GroupsAre(done, all) && forall p: nat :: p <= |all| ==> GroupAt(groups, p) == GroupAt(done, p)
    requires GroupAt(groups, |all| + 1) == g
    ensures GroupsAre(groups, all + [g])
  {
    hide GroupAt;
  }

  lemma NoGroups()
    ensures GroupsAre([], []) && FormsOf(map[]) == map[] && PagesOf(map[]) == map[]
  {
  }

  lemma ListsNext(images: seq<Use>, i: nat)
    requires i < |images| && EachOnce(images)
    ensures !Lists(images[..i], images[i].num)
    ensures forall x :: Lists(images[..i + 1], x) <==> Lists(images[..i], x) || x == images[i].num
  {
    forall x
      ensures Lists(images[..i + 1], x) <==> Lists(images[..i], x) || x == images[i].num
    {
      if Lists(images[..i], x) {
        var k :| 0 <= k < i && images[..i][k].num == x;
        assert images[..i + 1][k].num == x;
      }
      if Lists(images[..i + 1], x) {
        var k :| 0 <= k < i + 1 && images[..i + 1][k].num == x;
        assert k < i ==> images[..i][k].num == x;
      }
      assert images[..i + 1][i] == images[i];
    }
  }

  /** rw is the plain walk of a page's resources r. */
  ghost predicate PageSound(s: Store, roots: set<nat>, r: Resources, rw: ResWalk) {
    rw.images == PlainPage(s, r).images && FlagsAgree(s, roots, rw, PlainPage(s, r).incomplete)
  }

  lemma SoundPage(s: Store, roots: set<nat>, es: seq<Entry>, rw: ResWalk, low: nat)
    requires Sound(s, roots, es, |es|, [], rw, low)
    ensures PageSound(s, roots, XObjects(es), rw)
  {
  }

  lemma UnreadablePage(s: Store, roots: set<nat>, rw: ResWalk)
    requires rw.images == [] && rw.incomplete && rw.issues != [] && !rw.capped
    ensures PageSound(s, roots, Unreadable, rw)
  {
  }

  lemma EmptyEachOnce()
    ensures EachOnce([])
  {
  }

  ghost predicate InRanges(ranges: seq<(nat, nat)>, p: nat) {
    exists i :: 0 <= i < |ranges| && ranges[i].0 <= p <= ranges[i].1
  }

  /** Every range is proper and ends by page. */
  ghost predicate AllBy(ranges: seq<(nat, nat)>, page: nat) {
    forall i :: 0 <= i < |ranges| ==> ranges[i].0 <= ranges[i].1 <= page
  }

  /** The pages of an issue once page was, or was not, noted on it; unless done, noting may have stopped. */
  ghost predicate NotedOn(a: WalkIssue, b: WalkIssue, page: nat, noted: bool, done: bool) {
    && AllBy(b.ranges, page)
    && (forall p :: p != page ==> (InRanges(b.ranges, p) <==> InRanges(a.ranges, p)))
    && (done ==> (InRanges(b.ranges, page) <==> InRanges(a.ranges, page) || noted))
  }

  ghost predicate AllBefore(issues: seq<WalkIssue>, page: nat) {
    forall k :: 0 <= k < |issues| ==> AllBy(issues[k].ranges, page)
  }

  /** Some issue names page p. */
  ghost predicate Named(issues: seq<WalkIssue>, p: nat) {
    exists k :: 0 <= k < |issues| && InRanges(issues[k].ranges, p)
  }

  /** The pages named before and after work on page. */
  ghost predicate NamedAfter(a: seq<WalkIssue>, b: seq<WalkIssue>, page: nat, noted: bool, done: bool) {
    && AllBefore(b, page)
    && (forall p :: p != page ==> (Named(b, p) <==> Named(a, p)))
    && (done ==> (Named(b, page) <==> Named(a, page) || noted))
  }

  /** Issues noted one by one. */
  lemma NotedAreNamed(a: seq<WalkIssue>, b: seq<WalkIssue>, page: nat, ids: seq<nat>, done: bool)
    requires |a| == |b| && forall k :: 0 <= k < |b| ==> NotedOn(a[k], b[k], page, k in ids, done)
    requires forall i :: 0 <= i < |ids| ==> ids[i] < |a|
    ensures NamedAfter(a, b, page, ids != [], done)
  {
    hide InRanges, AllBy;
    forall p | p != page
      ensures Named(b, p) <==> Named(a, p)
    {
      forall k | 0 <= k < |b|
        ensures InRanges(b[k].ranges, p) <==> InRanges(a[k].ranges, p)
      {
      }
    }
    if done {
      if Named(a, page) {
        var k :| 0 <= k < |a| && InRanges(a[k].ranges, page);
        assert NotedOn(a[k], b[k], page, k in ids, done);
        assert InRanges(b[k].ranges, page);
      }
      if ids != [] {
        assert NotedOn(a[ids[0]], b[ids[0]], page, ids[0] in ids, done);
        assert InRanges(b[ids[0]].ranges, page);
      }
      if Named(b, page) && ids == [] {
        var k :| 0 <= k < |b| && InRanges(b[k].ranges, page);
        assert NotedOn(a[k], b[k], page, k in ids, done);
        assert InRanges(a[k].ranges, page);
      }
    }
  }

  /** New issues name no page yet. */
  lemma NewNameNothing(a: seq<WalkIssue>, b: seq<WalkIssue>, page: nat, done: bool)
    requires AllBefore(a, page) && |a| <= |b| && b[..|a|] == a
    requires forall i :: |a| <= i < |b| ==> b[i].ranges == []
    ensures NamedAfter(a, b, page, false, done)
  {
    hide AllBy;
    forall k | 0 <= k < |a|
      ensures b[k] == a[k]
    {
      assert b[..|a|][k] == a[k];
    }
    forall p
      ensures Named(b, p) <==> Named(a, p)
    {
      if Named(a, p) {
        var k :| 0 <= k < |a| && InRanges(a[k].ranges, p);
        assert InRanges(b[k].ranges, p);
      }
      if Named(b, p) {
        var k :| 0 <= k < |b| && InRanges(b[k].ranges, p);
        assert k < |a|;
      }
    }
    forall k | 0 <= k < |b|
      ensures AllBy(b[k].ranges, page)
    {
      if k >= |a| {
        NoRanges(page);
      }
    }
  }

  lemma NothingNoted(issues: seq<WalkIssue>, page: nat)
    ensures AllBefore(issues, page) ==> NamedAfter(issues, issues, page, true, false)
    ensures AllBefore(issues, page) ==> NamedAfter(issues, issues, page, false, false)
    ensures AllBefore(issues, page) ==> NamedAfter(issues, issues, page, false, true)
  {
  }

  lemma NamedAreBefore(a: seq<WalkIssue>, b: seq<WalkIssue>, page: nat)
    requires NamedAfter(a, b, page, false, true)
    ensures AllBefore(b, page)
  {
  }

  lemma NoneBefore()
    ensures AllBefore([], 0)
  {
  }

  lemma NamesBefore(a: seq<WalkIssue>, b: seq<WalkIssue>, page: nat)
    requires NamedAfter(a, b, page, true, false)
    ensures AllBefore(b, page) && forall p: nat :: p < page ==> (Named(b, p) <==> Named(a, p))
  {
  }

  lemma NoRanges(page: nat)
    ensures AllBy([], page)
  {
  }

  lemma NamedTwice(a: seq<WalkIssue>, b: seq<WalkIssue>, c: seq<WalkIssue>, page: nat, n1: bool, d1: bool, n2: bool,
                   d2: bool)
    requires NamedAfter(a, b, page, n1, d1) && NamedAfter(b, c, page, n2, d2)
    ensures NamedAfter(a, c, page, n1 || n2, d1 && d2)
  {
    hide Named, AllBefore;
  }

  /** What a page's walk adds to the issues names nothing. */
  lemma PageNames(a: seq<WalkIssue>, b: seq<WalkIssue>, page: nat)
    requires |a| <= |b| && b[..|a|] == a
    requires forall i :: |a| <= i < |b| ==> b[i] == WalkIssue(page, [])
    ensures AllBefore(a, page) ==> NamedAfter(a, b, page, false, true)
  {
    hide NamedAfter, AllBefore;
    if AllBefore(a, page) {
      NewNameNothing(a, b, page, true);
    }
  }

  /** The issues of one page: at its start, once its /Resources entry was noted, and at its end. */
  lemma LeafNames(a: seq<WalkIssue>, b: seq<WalkIssue>, c: seq<WalkIssue>, page: nat,
                  entry: bool, noted: bool, walk: bool, listed: bool)
    requires AllBefore(a, page) ==> NamedAfter(a, b, page, entry, noted)
    requires AllBefore(b, page) ==> NamedAfter(b, c, page, walk, listed)
    ensures page > 0 && AllBefore(a, page - 1) ==>
              && NamedAfter(a, c, page, true, false)
              && (noted && listed ==> (Named(c, page) <==> entry || walk))
  {
    hide Named, AllBefore;
    if page > 0 && AllBefore(a, page - 1) {
      NotNamedYet(a, page);
    }
  }

  /** A page after all the ranges is not named. */
  lemma NotNamedYet(issues: seq<WalkIssue>, page: nat)
    requires page > 0 && AllBefore(issues, page - 1)
    ensures !Named(issues, page) && AllBefore(issues, page)
  {
  }

  lemma ExtendLast(ranges: seq<(nat, nat)>, page: nat)
    requires |ranges| > 0 && page <= ranges[|ranges| - 1].1 + 1
    ensures var n := |ranges|;
            var r := ranges[n - 1 := (ranges[n - 1].0, Max(ranges[n - 1].1, page))];
            AllBy(ranges, page) ==>
              AllBy(r, page) && forall p :: InRanges(r, p) <==> InRanges(ranges, p) || p == page
  {
    var n := |ranges|;
    var r := ranges[n - 1 := (ranges[n - 1].0, Max(ranges[n - 1].1, page))];
    if AllBy(ranges, page) {
      forall p
        ensures InRanges(r, p) <==> InRanges(ranges, p) || p == page
      {
        if InRanges(r, p) {
          var i :| 0 <= i < n && r[i].0 <= p <= r[i].1;
          assert p != page ==> ranges[i].0 <= p <= ranges[i].1;
        }
        if InRanges(ranges, p) {
          var i :| 0 <= i < n && ranges[i].0 <= p <= ranges[i].1;
          assert r[i].0 <= p <= r[i].1;
        }
        if p == page {
          assert r[n - 1].0 <= p <= r[n - 1].1;
        }
      }
    }
  }

  lemma AppendRange(ranges: seq<(nat, nat)>, page: nat)
    ensures forall p :: InRanges(ranges + [(page, page)], p) <==> InRanges(ranges, p) || p == page
  {
    var r := ranges + [(page, page)];
    forall p
      ensures InRanges(r, p) <==> InRanges(ranges, p) || p == page
    {
      if InRanges(ranges, p) {
        var i :| 0 <= i < |ranges| && ranges[i].0 <= p <= ranges[i].1;
        assert r[i].0 <= p <= r[i].1;
      }
      if p == page {
        assert r[|ranges|].0 <= p <= r[|ranges|].1;
      }
    }
  }
}
