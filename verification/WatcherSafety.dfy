/** What every run of the disk watcher keeps, and how it converges. */
module WatcherSafety {
  import opened Watcher

  // Streaks are runs at the end of what was seen.

  /** How many observations at the end share the last one's state. */
  function StateRun(seen: seq<Observation>): nat {
    var n := |seen|;
    if n == 0 then 0
    else if n > 1 && seen[n - 2].status.state == seen[n - 1].status.state then StateRun(seen[..n - 1]) + 1
    else 1
  }

  /** How many observations at the end are the same as the last in every field. */
  function SameRun(seen: seq<Observation>): nat {
    var n := |seen|;
    if n == 0 then 0
    else if n > 1 && seen[n - 2].status == seen[n - 1].status then SameRun(seen[..n - 1]) + 1
    else 1
  }

  ghost predicate TabHolds(s: State, id: TabId, t: Tab) {
    && t.stateStreak == StateRun(t.seen)
    && t.sameStreak == SameRun(t.seen)
    && (t.seen != [] ==> t.candidate == t.seen[|t.seen| - 1].status)
    && t.mark <= s.checks
    && (t.seen != [] ==> t.seen[|t.seen| - 1].check < s.checks)
    && (t.clean ==> CleanHolds(s, id, t))
  }

  /** A clean tab has at most one stat under way, and after its first observation that stat started later than the
      observation's own and than the last recorded status. */
  ghost predicate CleanHolds(s: State, id: TabId, t: Tab) {
    && (t.inFlight <==> UnderWay(s, id))
    && (forall a, b :: a in s.underWay && b in s.underWay && a.0 == id && b.0 == id ==> a == b)
    && (t.seen != [] ==> forall a :: a in s.underWay && a.0 == id ==> t.mark <= a.1 && t.seen[|t.seen| - 1].check < a.1)
  }

  ghost predicate TabsHold(s: State) {
    forall id :: id in s.tabs ==> TabHolds(s, id, s.tabs[id])
  }

  /** An event carries the status of the second of two observations in a row with that state; for a clean tab the
      second stat started after the first came in, and after the last recorded status was applied. */
  ghost predicate EmissionHolds(e: Emission) {
    && e.status == e.second.status
    && e.first.status.state == e.second.status.state
    && (e.clean ==> e.first.check < e.second.check && e.mark <= e.second.check)
  }

  /** Events are numbered from one up. */
  ghost predicate EmittedHold(s: State) {
    && s.number == |s.emitted|
    && forall i :: 0 <= i < |s.emitted| ==> s.emitted[i].number == i + 1 && EmissionHolds(s.emitted[i])
  }

  /** Queued input always has a wake-up on its way. */
  ghost predicate WillWake(s: State) {
    s.records != map[] || s.focusDirty || s.focusGained ==> s.woken || s.signals > 0
  }

  ghost predicate Inv(s: State) {
    && TabsHold(s)
    && EmittedHold(s)
    && WillWake(s)
    && forall a :: a in s.underWay ==> a.1 < s.checks
  }

  // Settling.

  /** Whether an observation emits depends on the last two observations, the status last reported and the pending
      resync alone. */
  lemma SettleMeans(s: State, id: TabId, t: Tab, obs: Observation)
    requires TabHolds(s, id, t)
    ensures var (u, emits) := Settle(t, obs);
      && u.seen == t.seen + [obs] && u.stateStreak == StateRun(u.seen) && u.sameStreak == SameRun(u.seen)
      && u.candidate == obs.status
      && (emits <==>
           && t.seen != []
           && t.seen[|t.seen| - 1].status.state == obs.status.state
           && (t.resync || obs.status.state != t.lastReported.state
               || (obs.status.state != Current && t.seen[|t.seen| - 1].status == obs.status
                   && obs.status != t.lastReported)))
      && u.lastReported == (if emits then obs.status else t.lastReported)
      && u.resync == (t.resync && !emits)
  {
    var next := t.seen + [obs];
    assert next[..|t.seen|] == t.seen;
  }

  /** The reported status tells what the observed one says: the same state, and unless the file is as loaded, the
      same times and size. */
  predicate Agrees(reported: Status, observed: Status) {
    reported.state == observed.state && (observed.state == Current || reported == observed)
  }

  /** After two identical observations in a row the reported status agrees with them. */
  lemma TwoSettle(s: State, id: TabId, t: Tab, obs: Observation)
    requires TabHolds(s, id, t)
    requires t.seen != [] && t.seen[|t.seen| - 1].status == obs.status
    ensures Agrees(Settle(t, obs).0.lastReported, obs.status)
  {
    SettleMeans(s, id, t, obs);
  }

  // Steps.

  lemma RecordsKeep(s: State)
    requires TabsHold(s) && EmittedHold(s)
    ensures var t := ApplyRecords(s);
      TabsHold(t) && EmittedHold(t) && t.underWay == s.underWay && t.checks == s.checks
  {
    var t := ApplyRecords(s);
    forall id | id in t.tabs
      ensures TabHolds(t, id, t.tabs[id])
    {
      if id in s.tabs {
        assert TabHolds(s, id, s.tabs[id]);
      }
      assert UnderWay(t, id) == UnderWay(s, id);
    }
  }

  lemma CheckKeeps(s: State, live: set<TabId>)
    requires TabsHold(s) && EmittedHold(s) && forall a :: a in s.underWay ==> a.1 < s.checks
    ensures var t := CheckAll(s, live);
      TabsHold(t) && EmittedHold(t) && forall a :: a in t.underWay ==> a.1 < t.checks
  {
    var t := CheckAll(s, live);
    forall id | id in t.tabs
      ensures TabHolds(t, id, t.tabs[id])
    {
      StartKeeps(s, live, id);
    }
  }

  lemma StartKeeps(s: State, live: set<TabId>, id: TabId)
    requires id in live && TabHolds(s, id, Added(s, id)) && forall a :: a in s.underWay ==> a.1 < s.checks
    ensures TabHolds(CheckAll(s, live), id, Added(s, id).(inFlight := true))
  {
    var t := CheckAll(s, live);
    var tab := Added(s, id);
    assert forall a :: a in t.underWay && a.0 == id ==> a in s.underWay || (!tab.inFlight && a == (id, s.checks));
    if tab.clean {
      if tab.inFlight {
        var c :| c in s.underWay && c.0 == id;
        assert c in t.underWay;
      } else {
        assert (id, s.checks) in t.underWay;
      }
    }
  }

  lemma PendingKeeps(s: State, live: set<TabId>)
    requires TabsHold(s) && EmittedHold(s) && forall a :: a in s.underWay ==> a.1 < s.checks
    ensures Inv(ApplyPending(s, live))
    ensures s.underWay <= ApplyPending(s, live).underWay
  {
    hide TabsHold, EmittedHold;
    RecordsKeep(s);
    var s2 := ApplyRecords(s).(focusDirty := false, focusGained := false,
                               focused := if s.focusDirty then s.wantFocused else s.focused);
    SameTabs(ApplyRecords(s), s2);
    if s.focusGained {
      CheckKeeps(s2, live);
    }
  }

  lemma SameTabs(s: State, t: State)
    requires TabsHold(s) && EmittedHold(s)
    requires t.tabs == s.tabs && t.underWay == s.underWay && t.checks == s.checks
    requires t.number == s.number && t.emitted == s.emitted
    ensures TabsHold(t) && EmittedHold(t)
  {
    forall id | id in t.tabs
      ensures TabHolds(t, id, t.tabs[id])
    {
      assert TabHolds(s, id, s.tabs[id]);
      assert UnderWay(t, id) == UnderWay(s, id);
    }
  }

  /** A stat coming back: its tab may settle, other tabs are left alone. */
  lemma ResultKeeps(s: State, id: TabId, check: nat, outcome: Outcome)
    requires Inv(s) && (id, check) in s.underWay
    ensures Inv(TakeResult(s.(underWay := s.underWay - {(id, check)}), id, check, outcome))
  {
    hide TakeResult, TabHolds, EmittedHold;
    var m := s.(underWay := s.underWay - {(id, check)});
    var t := TakeResult(m, id, check, outcome);
    TakeLeavesOthers(m, id, check, outcome);
    TakeHolds(s, id, check, outcome);
    forall other | other in t.tabs
      ensures TabHolds(t, other, t.tabs[other])
    {
      if other != id {
        OtherTabHolds(s, t, id, check, other);
      }
    }
  }

  lemma TakeLeavesOthers(m: State, id: TabId, check: nat, outcome: Outcome)
    ensures var t := TakeResult(m, id, check, outcome);
      && t.underWay == m.underWay && t.checks == m.checks && t.records == m.records && t.focusDirty == m.focusDirty
      && t.focusGained == m.focusGained && t.woken == m.woken && t.signals == m.signals
      && forall other :: other in t.tabs && other != id ==> other in m.tabs && t.tabs[other] == m.tabs[other]
  {
    hide TakeSeen;
    match outcome {
      case Gone =>
      case Failed =>
      case Saw(st) =>
        if id in m.tabs {
          SeenLeavesOthers(m, id, Observation(check, st));
        }
    }
  }

  lemma SeenLeavesOthers(m: State, id: TabId, obs: Observation)
    requires id in m.tabs
    ensures var t := TakeSeen(m, id, obs);
      && t.underWay == m.underWay && t.checks == m.checks && t.records == m.records && t.focusDirty == m.focusDirty
      && t.focusGained == m.focusGained && t.woken == m.woken && t.signals == m.signals
      && forall other :: other in t.tabs && other != id ==> other in m.tabs && t.tabs[other] == m.tabs[other]
  {
    hide Settle;
  }

  lemma TakeHolds(s: State, id: TabId, check: nat, outcome: Outcome)
    requires Inv(s) && (id, check) in s.underWay
    ensures var t := TakeResult(s.(underWay := s.underWay - {(id, check)}), id, check, outcome);
      (id in t.tabs ==> TabHolds(t, id, t.tabs[id])) && EmittedHold(t)
  {
    hide TabsHold, Settle;
    var m := s.(underWay := s.underWay - {(id, check)});
    if id in s.tabs {
      ReturnHolds(s, m, id, check);
      if outcome.Saw? {
        SawKeeps(s, id, check, outcome.status);
      } else if outcome.Failed? {
        var t := TakeResult(m, id, check, outcome);
        assert UnderWay(t, id) == UnderWay(m, id);
      }
    }
  }

  lemma OtherTabHolds(s: State, t: State, id: TabId, check: nat, other: TabId)
    requires TabsHold(s) && other in s.tabs && other in t.tabs && t.tabs[other] == s.tabs[other] && other != id
    requires t.underWay == s.underWay - {(id, check)} && t.checks == s.checks
    ensures TabHolds(t, other, t.tabs[other])
  {
    assert TabHolds(s, other, s.tabs[other]);
    assert forall a: (TabId, nat) :: a.0 == other ==> (a in t.underWay <==> a in s.underWay);
    assert UnderWay(t, other) == UnderWay(s, other) by {
      if UnderWay(s, other) {
        var c :| c in s.underWay && c.0 == other;
        assert c in t.underWay;
      }
    }
  }

  /** The tab of a returned stat, before its outcome counts. */
  lemma ReturnHolds(s: State, m: State, id: TabId, check: nat)
    requires TabsHold(s) && id in s.tabs && (id, check) in s.underWay
    requires m.underWay == s.underWay - {(id, check)} && m.checks == s.checks
    ensures TabHolds(m, id, s.tabs[id].(inFlight := false))
    ensures s.tabs[id].clean ==> !UnderWay(m, id)
    ensures s.tabs[id].clean && s.tabs[id].seen != [] ==>
      s.tabs[id].mark <= check && s.tabs[id].seen[|s.tabs[id].seen| - 1].check < check
  {
    assert TabHolds(s, id, s.tabs[id]);
    if s.tabs[id].clean {
      forall a | a in m.underWay
        ensures a.0 != id
      {
        assert a in s.underWay;
      }
    }
  }

  lemma SawKeeps(s: State, id: TabId, check: nat, status: Status)
    requires Inv(s) && (id, check) in s.underWay && id in s.tabs
    ensures var t := TakeResult(s.(underWay := s.underWay - {(id, check)}), id, check, Saw(status));
      id in t.tabs && TabHolds(t, id, t.tabs[id]) && EmittedHold(t)
  {
    hide Settle, TabsHold, EmittedHold, TabHolds, EmissionHolds;
    var m, obs := s.(underWay := s.underWay - {(id, check)}), Observation(check, status);
    ReturnHolds(s, m, id, check);
    var ts := s.tabs[id].(inFlight := false);
    var t := TakeSeen(m, id, obs);
    SeenTabHolds(m, t, id, ts, obs);
    SameEmitted(s, m);
    SeenIsEmitted(m, id, ts, obs);
  }

  lemma SameEmitted(s: State, m: State)
    requires EmittedHold(s) && m.emitted == s.emitted && m.number == s.number
    ensures EmittedHold(m)
  {
  }

  lemma SeenTabHolds(m: State, t: State, id: TabId, ts: Tab, obs: Observation)
    requires TabHolds(m, id, ts) && obs.check < m.checks && t.underWay == m.underWay && t.checks == m.checks
    requires ts.clean ==> !UnderWay(m, id) && !ts.inFlight
    ensures TabHolds(t, id, Settle(ts, obs).0)
  {
    hide Settle, StateRun, SameRun;
    SettleMeans(m, id, ts, obs);
    SettleKeepsRest(ts, obs);
    assert UnderWay(t, id) == UnderWay(m, id);
  }

  lemma SeenIsEmitted(m: State, id: TabId, ts: Tab, obs: Observation)
    requires id in m.tabs && ts == m.tabs[id].(inFlight := false) && EmittedHold(m) && TabHolds(m, id, ts)
    requires ts.clean && ts.seen != [] ==> ts.mark <= obs.check && ts.seen[|ts.seen| - 1].check < obs.check
    ensures EmittedHold(TakeSeen(m, id, obs))
  {
    hide Settle, StateRun, SameRun, CleanHolds;
    SettleMeans(m, id, ts, obs);
  }

  lemma SettleKeepsRest(ts: Tab, obs: Observation)
    ensures var u := Settle(ts, obs).0;
      u.clean == ts.clean && u.mark == ts.mark && u.inFlight == ts.inFlight
  {
  }

  lemma StepKeeps(s: State, e: Event)
    requires Inv(s) && Step(s, e).Some?
    ensures Inv(Step(s, e).value)
  {
    hide TabsHold, EmittedHold, ApplyPending, CheckAll, TakeResult;
    match e {
      case RecordReported(id, st) =>
        SameTabs(s, Step(s, e).value);
      case SetFocused(f) =>
        SameTabs(s, Step(s, e).value);
      case Signal =>
        SameTabs(s, Step(s, e).value);
      case Wake(live) =>
        WakeKeeps(s, live);
      case Tick(live, liveAgain) =>
        PendingKeeps(s, live);
        CheckKeeps(ApplyPending(s, live), liveAgain);
        CheckLeaves(ApplyPending(s, live), liveAgain);
      case Result(id, check, outcome, live) =>
        PendingKeeps(s, live);
        ResultKeeps(ApplyPending(s, live), id, check, outcome);
    }
  }

  lemma CheckLeaves(s: State, live: set<TabId>)
    requires WillWake(s)
    ensures WillWake(CheckAll(s, live))
  {
  }

  lemma WakeKeeps(s: State, live: set<TabId>)
    requires Inv(s)
    ensures Inv(ApplyPending(s.(woken := false), live))
  {
    SameTabs(s, s.(woken := false));
    PendingKeeps(s.(woken := false), live);
  }

  lemma {:induction false} RunIsSafe(run: seq<Event>)
    requires Execute(Init(), run).Some?
    ensures Inv(Execute(Init(), run).value)
    decreases |run|
  {
    hide Inv, Step;
    if run == [] {
      InitIsSafe();
    } else {
      RunIsSafe(run[..|run| - 1]);
      StepKeeps(Execute(Init(), run[..|run| - 1]).value, run[|run| - 1]);
    }
  }

  lemma InitIsSafe()
    ensures Inv(Init())
  {
  }

  /** Events are numbered in the order they go out, and each holds to what it rests on. */
  lemma EventsAreOrdered(run: seq<Event>, s: State, i: nat, j: nat)
    requires Execute(Init(), run) == Some(s) && i < j < |s.emitted|
    ensures s.emitted[i].number < s.emitted[j].number
    ensures EmissionHolds(s.emitted[j])
  {
    RunIsSafe(run);
  }

  /** Queued records and focus changes are never forgotten: a wake-up is pending or about to be. */
  lemma NoLostWake(run: seq<Event>, s: State)
    requires Execute(Init(), run) == Some(s)
    requires s.records != map[] || s.focusDirty || s.focusGained
    ensures s.woken || s.signals > 0
  {
    RunIsSafe(run);
  }

  // Convergence.

  /** The tab as the next observation will find it. */
  predicate SameButFlight(t: Tab, u: Tab) {
    u == t.(inFlight := u.inFlight)
  }

  /** The event neither brings a result for the tab, nor applies a record to it, nor closes it. */
  ghost predicate Quiet(s: State, e: Event, id: TabId) {
    && id !in s.records
    && match e
       case RecordReported(other, _) => other != id
       case Wake(live) => s.focusGained ==> id in live
       case Tick(live, liveAgain) => (s.focusGained ==> id in live) && id in liveAgain
       case Result(other, _, _, live) => other != id && (s.focusGained ==> id in live)
       case _ => true
  }

  /** A run of quiet events from s to t. */
  ghost predicate QuietRun(s: State, run: seq<Event>, t: State, id: TabId)
    decreases |run|
  {
    if run == [] then s == t
    else
      && Step(s, run[0]).Some? && Quiet(s, run[0], id)
      && QuietRun(Step(s, run[0]).value, run[1..], t, id)
  }

  lemma PendingIsQuiet(s: State, live: set<TabId>, id: TabId)
    requires id in s.tabs && id !in s.records && (s.focusGained ==> id in live)
    ensures var t := ApplyPending(s, live);
      id in t.tabs && SameButFlight(s.tabs[id], t.tabs[id]) && id !in t.records
  {
  }

  lemma QuietKeeps(s: State, e: Event, id: TabId)
    requires id in s.tabs && Quiet(s, e, id) && Step(s, e).Some?
    ensures var t := Step(s, e).value;
      id in t.tabs && SameButFlight(s.tabs[id], t.tabs[id]) && id !in t.records
  {
    hide ApplyPending, TakeResult;
    match e {
      case Wake(live) => PendingIsQuiet(s.(woken := false), live, id);
      case Tick(live, liveAgain) => PendingIsQuiet(s, live, id);
      case Result(other, check, outcome, live) =>
        PendingIsQuiet(s, live, id);
        var m := ApplyPending(s, live);
        TakeKeepsOthers(m.(underWay := m.underWay - {(other, check)}), other, check, outcome, id);
        TakeLeavesOthers(m.(underWay := m.underWay - {(other, check)}), other, check, outcome);
      case _ =>
    }
  }

  lemma TakeKeepsOthers(m: State, id: TabId, check: nat, outcome: Outcome, other: TabId)
    requires other in m.tabs && other != id
    ensures other in TakeResult(m, id, check, outcome).tabs
  {
    hide Settle;
  }

  lemma {:induction false} QuietRunKeeps(s: State, run: seq<Event>, t: State, id: TabId)
    requires id in s.tabs && id !in s.records && QuietRun(s, run, t, id)
    ensures id in t.tabs && SameButFlight(s.tabs[id], t.tabs[id]) && id !in t.records
    decreases |run|
  {
    hide Quiet, Step;
    if run != [] {
      QuietKeeps(s, run[0], id);
      QuietRunKeeps(Step(s, run[0]).value, run[1..], t, id);
    }
  }

  /** The state in which a result is taken. */
  function Taking(s: State, id: TabId, check: nat, live: set<TabId>): State {
    var m := ApplyPending(s, live);
    m.(underWay := m.underWay - {(id, check)})
  }

  /** Two identical observations of a tab, with nothing in between that resets or drops it, leave what was last
      reported in agreement with them, whatever else happens meanwhile. */
  lemma WatcherConverges(before: seq<Event>, s0: State, id: TabId, c1: nat, c2: nat, status: Status,
                         live1: set<TabId>, live2: set<TabId>, s1: State, run: seq<Event>, s2: State, s3: State)
    requires Execute(Init(), before) == Some(s0)
    requires Step(s0, Result(id, c1, Saw(status), live1)) == Some(s1) && id in s1.tabs
    requires QuietRun(s1, run, s2, id) && (s2.focusGained ==> id in live2) && id !in s2.records
    requires Step(s2, Result(id, c2, Saw(status), live2)) == Some(s3)
    ensures id in s3.tabs && Agrees(s3.tabs[id].lastReported, status)
  {
    hide Inv, QuietRun, ApplyPending, Settle;
    RunIsSafe(before);
    StepKeeps(s0, Result(id, c1, Saw(status), live1));
    FirstIsSeen(s0, id, c1, status, live1);
    PendingClears(s0, live1);
    TakeLeavesOthers(Taking(s0, id, c1, live1), id, c1, Saw(status));
    QuietRunKeeps(s1, run, s2, id);
    PendingIsQuiet(s2, live2, id);
    var m := Taking(s2, id, c2, live2);
    var t := m.tabs[id].(inFlight := false);
    InvHolds(s1, id);
    SameTabSettles(s1, id, t, Observation(c2, status));
  }

  lemma InvHolds(s: State, id: TabId)
    requires Inv(s) && id in s.tabs
    ensures TabHolds(s, id, s.tabs[id])
  {
  }

  lemma PendingClears(s: State, live: set<TabId>)
    ensures ApplyPending(s, live).records == map[]
  {
  }

  lemma FirstIsSeen(s: State, id: TabId, check: nat, status: Status, live: set<TabId>)
    requires Step(s, Result(id, check, Saw(status), live)).Some?
    requires id in Step(s, Result(id, check, Saw(status), live)).value.tabs
    ensures var t := Step(s, Result(id, check, Saw(status), live)).value.tabs[id];
      t.seen != [] && t.seen[|t.seen| - 1].status == status
  {
    hide ApplyPending;
  }

  lemma SameTabSettles(s: State, id: TabId, t: Tab, obs: Observation)
    requires id in s.tabs && TabHolds(s, id, s.tabs[id]) && SameButFlight(s.tabs[id], t)
    requires t.seen != [] && t.seen[|t.seen| - 1].status == obs.status
    ensures Agrees(Settle(t, obs).0.lastReported, obs.status)
  {
    var u := t.(clean := false);
    assert TabHolds(s, id, u);
    TwoSettle(s, id, u, obs);
    assert Settle(u, obs).0.lastReported == Settle(t, obs).0.lastReported;
  }

  // Events after a recorded status.

  /** Both observations come from stats started before the last recorded status was applied. */
  predicate IsStale(e: Emission) {
    e.first.check < e.mark && e.second.check < e.mark
  }

  /** From r on the tab can report, against the status recorded at mark, what only older stats saw. */
  ghost predicate StaleFollows(r: State, id: TabId, mark: nat) {
    exists run, t :: Execute(r, run) == Some(t) && ReportsStale(r, t, id, mark)
  }

  ghost predicate ReportsStale(r: State, t: State, id: TabId, mark: nat) {
    exists i :: |r.emitted| <= i < |t.emitted| && t.emitted[i].tab == id && t.emitted[i].mark == mark
      && IsStale(t.emitted[i])
  }

  ghost predicate TwoUnderWay(s: State, id: TabId) {
    exists c, c' :: c != c' && (id, c) in s.underWay && (id, c') in s.underWay
  }

  ghost predicate TwoOlder(r: State, id: TabId, mark: nat) {
    exists c, c' :: c != c' && c < mark && c' < mark && (id, c) in r.underWay && (id, c') in r.underWay
  }

  /** What older stats have told the tab since r, they told once each, and they were under way at r. */
  ghost predicate OldSince(r: State, s: State, id: TabId, mark: nat) {
    && (forall a :: a in s.underWay && a.0 == id && a.1 < mark ==> a in r.underWay)
    && (id in s.tabs && s.tabs[id].mark == mark ==>
          && (forall i :: 0 <= i < |s.tabs[id].seen| && s.tabs[id].seen[i].check < mark ==>
                (id, s.tabs[id].seen[i].check) in r.underWay && (id, s.tabs[id].seen[i].check) !in s.underWay)
          && (forall i, j :: 0 <= i < j < |s.tabs[id].seen| && s.tabs[id].seen[j].check < mark ==>
                s.tabs[id].seen[i].check != s.tabs[id].seen[j].check))
    && |r.emitted| <= |s.emitted|
    && (ReportsStale(r, s, id, mark) ==> TwoOlder(r, id, mark))
  }

  lemma OldAfterPending(r: State, s: State, id: TabId, mark: nat, live: set<TabId>)
    requires OldSince(r, s, id, mark) && mark <= s.checks
    ensures OldSince(r, ApplyPending(s, live), id, mark)
  {
    hide ReportsStale, TwoOlder;
    var t := ApplyPending(s, live);
    assert t.emitted == s.emitted;
    SameReports(r, s, t, id, mark);
  }

  lemma SameReports(r: State, s: State, t: State, id: TabId, mark: nat)
    requires t.emitted == s.emitted
    ensures ReportsStale(r, s, id, mark) == ReportsStale(r, t, id, mark)
  {
  }

  lemma OldAfterCheck(r: State, s: State, id: TabId, mark: nat, live: set<TabId>)
    requires OldSince(r, s, id, mark) && mark <= s.checks
    ensures OldSince(r, CheckAll(s, live), id, mark)
  {
    hide ReportsStale, TwoOlder;
    SameReports(r, s, CheckAll(s, live), id, mark);
  }

  lemma OldAfterResult(r: State, s: State, id: TabId, mark: nat, tab: TabId, check: nat, outcome: Outcome)
    requires OldSince(r, s, id, mark) && Inv(s) && (tab, check) in s.underWay
    ensures OldSince(r, TakeResult(s.(underWay := s.underWay - {(tab, check)}), tab, check, outcome), id, mark)
  {
    hide Inv, ReportsStale, TwoOlder, Settle;
    var m := s.(underWay := s.underWay - {(tab, check)});
    var t := TakeResult(m, tab, check, outcome);
    if tab in s.tabs && outcome.Saw? {
      InvHolds(s, tab);
      var ts, obs := s.tabs[tab].(inFlight := false), Observation(check, outcome.status);
      TellsOnce(s, tab, ts, obs);
      var settled := Settle(ts, obs);
      if settled.1 && tab == id {
        StaleIsOfTwo(r, s, t, id, mark, ts, obs);
      } else {
        OtherReports(r, s, t, id, mark);
      }
    } else {
      SameReports(r, s, t, id, mark);
    }
  }

  /** A tab that settles has seen an observation before. */
  lemma TellsOnce(s: State, id: TabId, ts: Tab, obs: Observation)
    requires id in s.tabs && TabHolds(s, id, s.tabs[id]) && ts == s.tabs[id].(inFlight := false)
    ensures Settle(ts, obs).1 ==> ts.seen != []
    ensures Settle(ts, obs).0.seen == ts.seen + [obs] && Settle(ts, obs).0.mark == ts.mark
  {
  }

  lemma OtherReports(r: State, s: State, t: State, id: TabId, mark: nat)
    requires s.emitted <= t.emitted && |t.emitted| <= |s.emitted| + 1
    requires |t.emitted| > |s.emitted| ==> t.emitted[|s.emitted|].tab != id
    ensures ReportsStale(r, t, id, mark) ==> ReportsStale(r, s, id, mark)
  {
  }

  lemma StaleIsOfTwo(r: State, s: State, t: State, id: TabId, mark: nat, ts: Tab, obs: Observation)
    requires OldSince(r, s, id, mark) && id in s.tabs && ts == s.tabs[id].(inFlight := false) && ts.seen != []
    requires (id, obs.check) in s.underWay
    requires |t.emitted| == |s.emitted| + 1 && s.emitted <= t.emitted
    requires var e := t.emitted[|s.emitted|];
      e.mark == ts.mark && e.first == ts.seen[|ts.seen| - 1] && e.second == obs
    ensures ReportsStale(r, t, id, mark) ==> TwoOlder(r, id, mark)
  {
    var e := t.emitted[|s.emitted|];
    if ReportsStale(r, t, id, mark) && !ReportsStale(r, s, id, mark) {
      var i :| |r.emitted| <= i < |t.emitted| && t.emitted[i].tab == id && t.emitted[i].mark == mark
        && IsStale(t.emitted[i]);
      assert i == |s.emitted|;
      assert (id, e.first.check) in r.underWay && (id, e.second.check) in r.underWay;
    }
  }

  lemma OldAfterStep(r: State, s: State, id: TabId, mark: nat, e: Event)
    requires OldSince(r, s, id, mark) && Inv(s) && mark <= s.checks && Step(s, e).Some?
    ensures OldSince(r, Step(s, e).value, id, mark) && mark <= Step(s, e).value.checks
  {
    hide Inv, ApplyPending, CheckAll, TakeResult, OldSince;
    match e {
      case RecordReported(tab, st) =>
        OldElsewhere(r, s, Step(s, e).value, id, mark);
      case SetFocused(f) =>
        OldElsewhere(r, s, Step(s, e).value, id, mark);
      case Signal =>
        OldElsewhere(r, s, Step(s, e).value, id, mark);
      case Wake(live) =>
        OldElsewhere(r, s, s.(woken := false), id, mark);
        OldAfterPending(r, s.(woken := false), id, mark, live);
        ChecksRise(s.(woken := false), live);
      case Tick(live, liveAgain) =>
        OldAfterPending(r, s, id, mark, live);
        ChecksRise(s, live);
        OldAfterCheck(r, ApplyPending(s, live), id, mark, liveAgain);
        ChecksRiseAgain(ApplyPending(s, live), liveAgain);
      case Result(tab, check, outcome, live) =>
        OldAfterPending(r, s, id, mark, live);
        ChecksRise(s, live);
        InvAfterPending(s, live);
        var m := ApplyPending(s, live);
        OldAfterResult(r, m, id, mark, tab, check, outcome);
        TakeLeavesOthers(m.(underWay := m.underWay - {(tab, check)}), tab, check, outcome);
    }
  }

  lemma OldElsewhere(r: State, s: State, t: State, id: TabId, mark: nat)
    requires OldSince(r, s, id, mark) && t.tabs == s.tabs && t.underWay == s.underWay && t.emitted == s.emitted
    ensures OldSince(r, t, id, mark)
  {
    hide ReportsStale, TwoOlder;
    SameReports(r, s, t, id, mark);
  }

  lemma ChecksRise(s: State, live: set<TabId>)
    ensures s.checks <= ApplyPending(s, live).checks && s.underWay <= ApplyPending(s, live).underWay
  {
  }

  lemma ChecksRiseAgain(s: State, live: set<TabId>)
    ensures s.checks <= CheckAll(s, live).checks
  {
  }

  lemma InvAfterPending(s: State, live: set<TabId>)
    requires Inv(s)
    ensures Inv(ApplyPending(s, live))
  {
    PendingKeeps(s, live);
  }

  lemma {:induction false} OldAfterRun(r: State, id: TabId, mark: nat, run: seq<Event>)
    requires OldSince(r, r, id, mark) && Inv(r) && mark <= r.checks && Execute(r, run).Some?
    ensures var t := Execute(r, run).value; OldSince(r, t, id, mark) && Inv(t) && mark <= t.checks
    decreases |run|
  {
    hide Inv, OldSince, Step;
    if run != [] {
      var s := Execute(r, run[..|run| - 1]).value;
      OldAfterRun(r, id, mark, run[..|run| - 1]);
      OldAfterStep(r, s, id, mark, run[|run| - 1]);
      StepKeeps(s, run[|run| - 1]);
    }
  }

  lemma StartsOld(s: State, id: TabId, live: set<TabId>)
    requires Inv(s) && id in s.records
    ensures var r := ApplyPending(s, live); OldSince(r, r, id, s.checks)
  {
    var r := ApplyPending(s, live);
    assert !ReportsStale(r, r, id, s.checks);
  }

  /** Two old stats that come back one after the other with the same status settle it, as the record asks for it to
      be reported again. */
  lemma TwoReportStale(r: State, id: TabId, c: nat, c': nat, mark: nat)
    requires id in r.tabs && r.records == map[] && !r.focusDirty && !r.focusGained
    requires r.tabs[id].mark == mark && r.tabs[id].resync && r.tabs[id].stateStreak == 0 && r.tabs[id].seen == []
    requires c != c' && (id, c) in r.underWay && (id, c') in r.underWay && c < mark && c' < mark
    ensures StaleFollows(r, id, mark)
  {
    var e, e' := Result(id, c, Saw(SEEN), {}), Result(id, c', Saw(SEEN), {});
    ResultTakenAt(r, id, c);
    var s := Step(r, e).value;
    assert s.tabs[id].stateStreak == 1 && s.tabs[id].candidate == SEEN && s.tabs[id].seen == [Observation(c, SEEN)];
    ResultTakenAt(s, id, c');
    var t := Step(s, e').value;
    assert |t.emitted| == |r.emitted| + 1;
    var last := t.emitted[|r.emitted|];
    assert last.tab == id && last.mark == mark && IsStale(last);
    TwoSteps(r, s, t, e, e');
    assert ReportsStale(r, t, id, mark);
  }

  lemma TwoSteps(r: State, s: State, t: State, e: Event, e': Event)
    requires Step(r, e) == Some(s) && Step(s, e') == Some(t)
    ensures Execute(r, [e, e']) == Some(t)
  {
    hide Step;
    assert [e, e'][..1] == [e] && [e][..0] == [];
    assert Execute(r, []) == Some(r);
    assert Execute(r, [e]) == Some(s);
  }

  lemma ResultTakenAt(s: State, id: TabId, check: nat)
    requires id in s.tabs && (id, check) in s.underWay && s.records == map[] && !s.focusGained && !s.focusDirty
    ensures Step(s, Result(id, check, Saw(SEEN), {})) ==
      Some(TakeSeen(s.(underWay := s.underWay - {(id, check)}), id, Observation(check, SEEN)))
  {
    assert ApplyPending(s, {}) == s by {
      assert ApplyRecords(s).tabs == s.tabs;
    }
  }

  /** When a recorded status is applied to a tab, the tab can go on to report what only stats from before saw if and
      only if at least two of its stats are under way at that moment. */
  lemma StaleFollowsIff(before: seq<Event>, s: State, id: TabId, live: set<TabId>)
    requires Execute(Init(), before) == Some(s) && id in s.records && (s.focusGained ==> id in live)
    ensures StaleFollows(ApplyPending(s, live), id, s.checks) <==> TwoUnderWay(s, id)
  {
    hide Inv, ApplyPending, OldSince, Execute;
    var r := ApplyPending(s, live);
    RunIsSafe(before);
    JustRecorded(s, id, live);
    if TwoUnderWay(s, id) {
      var c, c' :| c != c' && (id, c) in s.underWay && (id, c') in s.underWay;
      TwoReportStale(r, id, c, c', s.checks);
    }
    if StaleFollows(r, id, s.checks) {
      var run, t :| Execute(r, run) == Some(t) && ReportsStale(r, t, id, s.checks);
      StartsOld(s, id, live);
      InvAfterPending(s, live);
      OldAfterRun(r, id, s.checks, run);
      OldMeansTwo(r, t, id, s.checks);
    }
  }

  lemma OldMeansTwo(r: State, t: State, id: TabId, mark: nat)
    requires OldSince(r, t, id, mark) && ReportsStale(r, t, id, mark)
    ensures TwoOlder(r, id, mark)
  {
  }

  /** The state right after a status was recorded for the tab. */
  lemma JustRecorded(s: State, id: TabId, live: set<TabId>)
    requires Inv(s) && id in s.records && (s.focusGained ==> id in live)
    ensures var r := ApplyPending(s, live);
      && r.records == map[] && !r.focusDirty && !r.focusGained && id in r.tabs
      && r.tabs[id].mark == s.checks && r.tabs[id].resync && r.tabs[id].stateStreak == 0 && r.tabs[id].seen == []
      && s.checks <= r.checks && s.underWay <= r.underWay
      && (forall a :: a in s.underWay ==> a.1 < s.checks)
      && (forall a :: a in r.underWay && a.1 < s.checks ==> a in s.underWay)
  {
  }

  // A tab that leaves the watched set and comes back while a stat is under way.

  const SEEN := Status(Changed, 0, 1, 1)
  const TOLD := Status(Current, 0, 0, 0)

  function Fresh(clean: bool): Tab {
    Tab(TOLD, NO_STATUS, 0, 0, false, true, [], 0, clean)
  }

  function Told(): Tab {
    Tab(TOLD, NO_STATUS, 0, 0, true, true, [], 3, false)
  }

  function Rewatched(tabs: map<TabId, Tab>, underWay: set<(TabId, nat)>, checks: nat): State {
    Init().(tabs := tabs, underWay := underWay, checks := checks)
  }

  lemma WatchDropWatch()
    ensures Step(Init(), Tick({}, {7})) == Some(Rewatched(map[7 := Fresh(true)], {(7, 0)}, 1))
    ensures Step(Rewatched(map[7 := Fresh(true)], {(7, 0)}, 1), Tick({}, {})) == Some(Rewatched(map[], {(7, 0)}, 2))
    ensures Step(Rewatched(map[], {(7, 0)}, 2), Tick({}, {7})) ==
      Some(Rewatched(map[7 := Fresh(false)], {(7, 0), (7, 2)}, 3))
  {
    StartsWatch(Init(), true);
    assert {} + {(7, 0)} == {(7, 0)} && {(7, 0)} + {(7, 2)} == {(7, 0), (7, 2)};
    var s1 := Rewatched(map[7 := Fresh(true)], {(7, 0)}, 1);
    assert ApplyPending(s1, {}) == s1 by {
      assert ApplyRecords(s1).tabs == s1.tabs;
    }
    assert CheckAll(s1, {}) == Rewatched(map[], {(7, 0)}, 2) by {
      assert CheckAll(s1, {}).underWay == {(7, 0)};
    }
    StartsWatch(Rewatched(map[], {(7, 0)}, 2), false);
  }

  lemma StartsWatch(s: State, clean: bool)
    requires s == Rewatched(map[], s.underWay, s.checks) && clean == !UnderWay(s, 7)
    ensures Step(s, Tick({}, {7})) ==
      Some(Rewatched(map[7 := Fresh(clean)], s.underWay + {(7, s.checks)}, s.checks + 1))
  {
    assert ApplyPending(s, {}) == s by {
      assert ApplyRecords(s).tabs == s.tabs;
    }
    var t := CheckAll(s, {7});
    assert t.tabs == map[7 := Fresh(clean)];
    assert t.underWay == s.underWay + {(7, s.checks)};
  }

  lemma RecordApplies(s: State)
    requires s == Rewatched(map[7 := Fresh(false)], {(7, 0), (7, 2)}, 3).(records := map[7 := TOLD], woken := true)
    ensures Step(s, Wake({})) == Some(Rewatched(map[7 := Told()], {(7, 0), (7, 2)}, 3))
  {
    var s1 := s.(woken := false);
    assert ApplyRecords(s1).tabs == map[7 := Told()];
  }

  lemma ResultTaken(s: State, check: nat)
    requires s.tabs.Keys == {7} && (7, check) in s.underWay && s.records == map[] && !s.focusGained && !s.focusDirty
    ensures Step(s, Result(7, check, Saw(SEEN), {})) ==
      Some(TakeSeen(s.(underWay := s.underWay - {(7, check)}), 7, Observation(check, SEEN)))
  {
    assert ApplyPending(s, {}) == s by {
      assert ApplyRecords(s).tabs == s.tabs;
    }
  }

  /** A tab that leaves the watched set and comes back while its stat is under way has two under way, and can report
      against a recorded status what only stats from before it saw. */
  lemma RewatchedTabReportsStale()
    ensures exists run, s :: Execute(Init(), run) == Some(s) && |s.emitted| == 1 && IsStale(s.emitted[0])
  {
    hide Step, Execute, Rewatched, Fresh, Told, Init;
    var run := [Tick({}, {7}), Tick({}, {}), Tick({}, {7}), RecordReported(7, TOLD), Signal, Wake({}),
                Result(7, 0, Saw(SEEN), {}), Result(7, 2, Saw(SEEN), {})];
    WatchDropWatch();
    var s3 := Rewatched(map[7 := Fresh(false)], {(7, 0), (7, 2)}, 3);
    var s4 := s3.(records := map[7 := TOLD], signals := 1);
    var s5 := s3.(records := map[7 := TOLD], woken := true);
    var s6 := Rewatched(map[7 := Told()], {(7, 0), (7, 2)}, 3);
    RecordCalled(s3, s4, s5);
    RecordApplies(s5);
    var s7, s8 := StaleEvent(s6);
    Unrolled(run, Rewatched(map[7 := Fresh(true)], {(7, 0)}, 1), Rewatched(map[], {(7, 0)}, 2), s3, s4, s5, s6, s7, s8);
  }

  lemma RecordCalled(s3: State, s4: State, s5: State)
    requires s3 == Rewatched(map[7 := Fresh(false)], {(7, 0), (7, 2)}, 3)
    requires s4 == s3.(records := map[7 := TOLD], signals := 1) && s5 == s3.(records := map[7 := TOLD], woken := true)
    ensures Step(s3, RecordReported(7, TOLD)) == Some(s4) && Step(s4, Signal) == Some(s5)
  {
    assert map[][7 := TOLD] == map[7 := TOLD];
  }

  lemma StaleEvent(s6: State) returns (s7: State, s8: State)
    requires s6 == Rewatched(map[7 := Told()], {(7, 0), (7, 2)}, 3)
    ensures Step(s6, Result(7, 0, Saw(SEEN), {})) == Some(s7) && Step(s7, Result(7, 2, Saw(SEEN), {})) == Some(s8)
    ensures |s8.emitted| == 1 && IsStale(s8.emitted[0])
  {
    ResultTaken(s6, 0);
    s7 := TakeSeen(s6.(underWay := s6.underWay - {(7, 0)}), 7, Observation(0, SEEN));
    assert s7.tabs.Keys == {7} && s7.tabs[7].stateStreak == 1 && s7.underWay == {(7, 2)} && s7.emitted == [];
    ResultTaken(s7, 2);
    s8 := TakeSeen(s7.(underWay := s7.underWay - {(7, 2)}), 7, Observation(2, SEEN));
  }

  lemma Unrolled(run: seq<Event>, s1: State, s2: State, s3: State, s4: State, s5: State, s6: State, s7: State,
                 s8: State)
    requires |run| == 8
    requires Step(Init(), run[0]) == Some(s1) && Step(s1, run[1]) == Some(s2) && Step(s2, run[2]) == Some(s3)
    requires Step(s3, run[3]) == Some(s4) && Step(s4, run[4]) == Some(s5) && Step(s5, run[5]) == Some(s6)
    requires Step(s6, run[6]) == Some(s7) && Step(s7, run[7]) == Some(s8)
    ensures Execute(Init(), run) == Some(s8)
  {
    hide Step;
    OneMore(run, 0, Init(), s1);
    OneMore(run, 1, s1, s2);
    OneMore(run, 2, s2, s3);
    OneMore(run, 3, s3, s4);
    OneMore(run, 4, s4, s5);
    OneMore(run, 5, s5, s6);
    OneMore(run, 6, s6, s7);
    OneMore(run, 7, s7, s8);
    assert run[..8] == run;
  }

  lemma OneMore(run: seq<Event>, n: nat, s: State, t: State)
    requires n < |run| && Execute(Init(), run[..n]) == Some(s) && Step(s, run[n]) == Some(t)
    ensures Execute(Init(), run[..n + 1]) == Some(t)
  {
    assert run[..n + 1][..n] == run[..n];
  }
}
