/** What the disk watcher's calls and results do to one tab, told by the events of a run and not by what its tab has
    kept. */
module WatcherLaws {
  import opened Watcher

  /** The tab has seen nothing that counts, or there is none. */
  predicate IsFresh(s: State, id: TabId) {
    id in s.tabs ==> s.tabs[id].stateStreak == 0
  }

  predicate Sees(e: Event, id: TabId) {
    e.Result? && e.tab == id && e.outcome.Saw?
  }

  function Sightings(run: seq<Event>, id: TabId): nat {
    if run == [] then 0 else Sightings(run[..|run| - 1], id) + (if Sees(run[|run| - 1], id) then 1 else 0)
  }

  /** The events sent since s are not about the tab. */
  ghost predicate NoneSent(s: State, t: State, id: TabId) {
    && s.emitted <= t.emitted
    && forall i :: |s.emitted| <= i < |t.emitted| ==> t.emitted[i].tab != id
  }

  lemma PendingIsFresh(s: State, live: set<TabId>, id: TabId)
    ensures IsFresh(s, id) || id in s.records ==> IsFresh(ApplyPending(s, live), id)
    ensures ApplyPending(s, live).emitted == s.emitted && ApplyPending(s, live).records == map[]
  {
  }

  lemma CheckIsFresh(s: State, live: set<TabId>, id: TabId)
    ensures CheckAll(s, live).emitted == s.emitted && (IsFresh(s, id) ==> IsFresh(CheckAll(s, live), id))
  {
  }

  lemma TakeSends(s: State, tab: TabId, check: nat, outcome: Outcome, id: TabId)
    ensures var t := TakeResult(s, tab, check, outcome);
      && (tab != id || !outcome.Saw? ==> NoneSent(s, t, id) && (IsFresh(s, id) ==> IsFresh(t, id)))
      && (IsFresh(s, id) ==> NoneSent(s, t, id))
      && (tab == id && !outcome.Saw? ==> IsFresh(t, id) && (outcome.Gone? ==> id !in t.tabs))
  {
  }

  /** A step sends nothing about a tab unless an observation of it comes in, and nothing then either when the tab is
      fresh; it stays fresh until then. */
  lemma StepSends(s: State, e: Event, id: TabId)
    requires Step(s, e).Some?
    ensures var t := Step(s, e).value;
      && (!Sees(e, id) ==> NoneSent(s, t, id) && (IsFresh(s, id) ==> IsFresh(t, id)))
      && (IsFresh(s, id) ==> NoneSent(s, t, id))
  {
    hide ApplyPending, CheckAll, TakeResult, IsFresh;
    match e
    case Wake(live) =>
      SameTab(s, s.(woken := false), id);
      PendingIsFresh(s.(woken := false), live, id);
    case Tick(live, liveAgain) =>
      PendingIsFresh(s, live, id);
      CheckIsFresh(ApplyPending(s, live), liveAgain, id);
    case Result(tab, check, outcome, live) =>
      var m := ApplyPending(s, live);
      PendingIsFresh(s, live, id);
      SameTab(m, m.(underWay := m.underWay - {(tab, check)}), id);
      TakeSends(m.(underWay := m.underWay - {(tab, check)}), tab, check, outcome, id);
    case _ => SameTab(s, Step(s, e).value, id);
  }

  lemma SameTab(s: State, t: State, id: TabId)
    requires s.tabs == t.tabs
    ensures IsFresh(s, id) <==> IsFresh(t, id)
  {
  }

  /** From a fresh tab on, a run with one observation of it at most sends nothing about it. */
  lemma {:induction false} OneSightingSendsNothing(s: State, run: seq<Event>, id: TabId)
    requires IsFresh(s, id) && Execute(s, run).Some? && Sightings(run, id) <= 1
    ensures NoneSent(s, Execute(s, run).value, id)
    ensures Sightings(run, id) == 0 ==> IsFresh(Execute(s, run).value, id)
  {
    hide IsFresh, Step, Sees;
    if run != [] {
      var n := |run| - 1;
      OneSightingSendsNothing(s, run[..n], id);
      var m := Execute(s, run[..n]).value;
      StepSends(m, run[n], id);
    }
  }

  /** A failed stat, a closed document and a recorded status each make the tab fresh, whatever was seen before. */
  lemma ResetsAreFresh(s: State, e: Event, id: TabId)
    requires Step(s, e).Some?
    requires (e.Result? && e.tab == id && !e.outcome.Saw?) || (id in s.records && (e.Wake? || e.Tick?))
    ensures IsFresh(Step(s, e).value, id)
    ensures e.Result? && e.outcome.Gone? ==> id !in Step(s, e).value.tabs
  {
    hide ApplyPending, CheckAll, TakeResult, IsFresh;
    match e
    case Wake(live) => PendingIsFresh(s.(woken := false), live, id);
    case Tick(live, liveAgain) =>
      PendingIsFresh(s, live, id);
      CheckIsFresh(ApplyPending(s, live), liveAgain, id);
    case Result(tab, check, outcome, live) =>
      var m := ApplyPending(s, live);
      TakeSends(m.(underWay := m.underWay - {(tab, check)}), tab, check, outcome, id);
  }

  // Recorded statuses.

  /** The tab as it stands just after a status was recorded for it. */
  predicate IsRecorded(s: State, id: TabId, st: Status) {
    && id in s.tabs && s.tabs[id].lastReported == st && s.tabs[id].resync && s.tabs[id].stateStreak == 0
    && id !in s.records
  }

  lemma RecordIsApplied(s: State, live: set<TabId>, id: TabId)
    requires id in s.records && (s.focusGained ==> id in live)
    ensures IsRecorded(ApplyPending(s, live), id, s.records[id])
  {
    var s1 := ApplyRecords(s);
    assert id in s1.tabs && s1.tabs[id] == Recorded(s, id);
  }

  lemma RecordedStays(s: State, live: set<TabId>, id: TabId)
    requires id in s.tabs && id !in s.records && (s.focusGained ==> id in live)
    ensures var t := ApplyPending(s, live);
      id in t.tabs && t.tabs[id].(inFlight := s.tabs[id].inFlight) == s.tabs[id] && t.records == map[]
  {
  }

  /** Two observations in a row of one state after a status was recorded send the second, even when it repeats the
      recorded status. */
  lemma RecordIsAnswered(s: State, id: TabId, c1: nat, c2: nat, a: Status, b: Status, live1: set<TabId>,
                         live2: set<TabId>)
    requires id in s.records && (s.focusGained ==> id in live1) && a.state == b.state
    requires Step(s, Result(id, c1, Saw(a), live1)).Some?
    requires var t := Step(s, Result(id, c1, Saw(a), live1)).value;
      Step(t, Result(id, c2, Saw(b), live2)).Some?
    ensures var t := Step(s, Result(id, c1, Saw(a), live1)).value;
      var u := Step(t, Result(id, c2, Saw(b), live2)).value;
      && t.emitted == s.emitted
      && |u.emitted| == |t.emitted| + 1 && u.emitted[..|t.emitted|] == t.emitted
      && u.emitted[|t.emitted|].tab == id && u.emitted[|t.emitted|].status == b
      && id in u.tabs && u.tabs[id].lastReported == b && !u.tabs[id].resync
  {
    hide ApplyPending;
    RecordIsApplied(s, live1, id);
    PendingIsFresh(s, live1, id);
    var t := Step(s, Result(id, c1, Saw(a), live1)).value;
    NothingGained(s, live1);
    RecordedStays(t, live2, id);
    PendingIsFresh(t, live2, id);
  }

  lemma NothingGained(s: State, live: set<TabId>)
    ensures !ApplyPending(s, live).focusGained
  {
  }

  // Checks.

  /** A tick drops the tabs that are gone, adds the new ones as unchanged since they were opened, and starts one stat
      for each tab that has none under way. */
  lemma TickStarts(s: State, live: set<TabId>, liveAgain: set<TabId>)
    requires s.records == map[] && !s.focusDirty && !s.focusGained
    ensures var t := Step(s, Tick(live, liveAgain)).value;
      && t.tabs.Keys == liveAgain && t.emitted == s.emitted && t.checks == s.checks + 1
      && (forall id :: id in liveAgain ==> t.tabs[id].inFlight)
      && (forall id :: id in liveAgain && id in s.tabs ==> t.tabs[id] == s.tabs[id].(inFlight := true))
      && (forall id :: id in liveAgain && id !in s.tabs ==>
            t.tabs[id].lastReported == Status(Current, 0, 0, 0) && !t.tabs[id].resync && t.tabs[id].stateStreak == 0)
      && (forall x :: x in t.underWay <==>
            (x in s.underWay || (x.1 == s.checks && x.0 in liveAgain && (x.0 in s.tabs ==> !s.tabs[x.0].inFlight))))
  {
    assert ApplyRecords(s).tabs == s.tabs;
    assert ApplyPending(s, live) == s;
  }
}
