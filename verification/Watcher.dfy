/** The disk watcher's scheduler as a machine: calls queue input for it, and each wake, tick or stat result is one
    step. */
module Watcher {

  type TabId = nat

  datatype DiskState = Unset | Current | Changed | Missing

  datatype Status = Status(state: DiskState, loaded: int, modified: int, size: int)

  const NO_STATUS := Status(Unset, 0, 0, 0)

  /** A status seen by the stat that was started in the given check. */
  datatype Observation = Observation(check: nat, status: Status)

  /** The settle state of one tab, with a history: what was seen since the last reset, the number of checks made
      when a status was last recorded, and whether no stat for the tab was under way when the tab was added. */
  datatype Tab = Tab(
    lastReported: Status, candidate: Status, stateStreak: nat, sameStreak: nat, resync: bool, inFlight: bool,
    seen: seq<Observation>, mark: nat, clean: bool)

  /** One emitted event, with the two observations it rests on and the tab's mark and cleanness. */
  datatype Emission = Emission(tab: TabId, number: nat, status: Status, first: Observation, second: Observation,
                               mark: nat, clean: bool)

  datatype Outcome = Gone | Failed | Saw(status: Status)

  /** Stats under way are named by their tab and the check that started them. */
  datatype State = State(
    tabs: map<TabId, Tab>, number: nat, focused: bool,
    records: map<TabId, Status>, wantFocused: bool, focusDirty: bool, focusGained: bool,
    woken: bool, signals: nat,
    underWay: set<(TabId, nat)>, checks: nat, emitted: seq<Emission>)

  datatype Event =
    | RecordReported(tab: TabId, status: Status)
    | SetFocused(focused: bool)
    | Signal                                        // a call that queued input wakes the scheduler
    | Wake(live: set<TabId>)
    | Tick(live: set<TabId>, liveAgain: set<TabId>)
    | Result(tab: TabId, check: nat, outcome: Outcome, live: set<TabId>)

  datatype Option<T> = None | Some(value: T)

  function Init(): State {
    State(map[], 0, true, map[], true, false, false, false, 0, {}, 0, [])
  }

  /** What settling one observation makes of a tab, and whether it emits. */
  function Settle(ts: Tab, obs: Observation): (Tab, bool) {
    var st := obs.status;
    var sameState := ts.stateStreak > 0 && st.state == ts.candidate.state;
    var stateStreak := if sameState then ts.stateStreak + 1 else 1;
    var sameStreak := if sameState && st == ts.candidate then ts.sameStreak + 1 else 1;
    var t := ts.(candidate := st, stateStreak := stateStreak, sameStreak := sameStreak, seen := ts.seen + [obs]);
    var last := ts.lastReported;
    if stateStreak >= 2
       && (ts.resync || st.state != last.state || (st.state != Current && sameStreak >= 2 && st != last)) then
      (t.(resync := false, lastReported := st), true)
    else
      (t, false)
  }

  predicate UnderWay(s: State, id: TabId) {
    exists c :: c in s.underWay && c.0 == id
  }

  /** A recorded status supersedes whatever was half settled. */
  function Recorded(s: State, id: TabId): Tab
    requires id in s.records
  {
    var st := s.records[id];
    if id in s.tabs then
      s.tabs[id].(lastReported := st, candidate := NO_STATUS, stateStreak := 0, sameStreak := 0, resync := true,
                  seen := [], mark := s.checks)
    else
      Tab(st, NO_STATUS, 0, 0, true, false, [], s.checks, !UnderWay(s, id))
  }

  function ApplyRecords(s: State): State {
    s.(tabs := map id | id in s.tabs.Keys + s.records.Keys :: if id in s.records then Recorded(s, id) else s.tabs[id],
       records := map[])
  }

  function Added(s: State, id: TabId): Tab {
    if id in s.tabs then s.tabs[id]
    else Tab(Status(Current, 0, 0, 0), NO_STATUS, 0, 0, false, false, [], 0, !UnderWay(s, id))
  }

  /** Adds new tabs, drops closed ones, and starts a stat for each tab that has none under way. */
  function CheckAll(s: State, live: set<TabId>): State {
    s.(tabs := map id | id in live :: Added(s, id).(inFlight := true),
       underWay := s.underWay + set id | id in live && !Added(s, id).inFlight :: (id, s.checks),
       checks := s.checks + 1)
  }

  /** Takes the queued records and focus changes, in that order. */
  function ApplyPending(s: State, live: set<TabId>): State {
    var s1 := ApplyRecords(s);
    var s2 := s1.(focusDirty := false, focusGained := false,
                  focused := if s.focusDirty then s.wantFocused else s.focused);
    if s.focusGained then CheckAll(s2, live) else s2
  }

  /** Tab id sees one more observation, and an event goes out when it settles. */
  function TakeSeen(s: State, id: TabId, obs: Observation): State
    requires id in s.tabs
  {
    var ts := s.tabs[id].(inFlight := false);
    var settled := Settle(ts, obs);
    var before := if ts.seen == [] then Observation(0, NO_STATUS) else ts.seen[|ts.seen| - 1];
    s.(tabs := s.tabs[id := settled.0],
       number := if settled.1 then s.number + 1 else s.number,
       emitted := if settled.1 then s.emitted + [Emission(id, s.number + 1, obs.status, before, obs, ts.mark, ts.clean)]
                  else s.emitted)
  }

  /** A stat has come back. */
  function TakeResult(s: State, id: TabId, check: nat, outcome: Outcome): State {
    if id !in s.tabs then s
    else
      match outcome
      case Gone => s.(tabs := s.tabs - {id})
      case Failed =>
        s.(tabs := s.tabs[id := s.tabs[id].(inFlight := false, stateStreak := 0, sameStreak := 0,
                                            candidate := NO_STATUS, seen := [])])
      case Saw(st) => TakeSeen(s, id, Observation(check, st))
  }

  function Step(s: State, e: Event): Option<State> {
    match e
    case RecordReported(id, st) => Some(s.(records := s.records[id := st], signals := s.signals + 1))
    case SetFocused(f) =>
      Some(s.(wantFocused := f, focusDirty := true, focusGained := s.focusGained || f, signals := s.signals + 1))
    case Signal => if s.signals == 0 then None else Some(s.(signals := s.signals - 1, woken := true))
    case Wake(live) => if !s.woken then None else Some(ApplyPending(s.(woken := false), live))
    case Tick(live, liveAgain) => Some(CheckAll(ApplyPending(s, live), liveAgain))
    case Result(id, check, outcome, live) =>
      if (id, check) !in s.underWay then None
      else
        var m := ApplyPending(s, live);
        Some(TakeResult(m.(underWay := m.underWay - {(id, check)}), id, check, outcome))
  }

  function Execute(s: State, run: seq<Event>): Option<State> {
    if run == [] then Some(s)
    else
      match Execute(s, run[..|run| - 1])
      case None => None
      case Some(m) => Step(m, run[|run| - 1])
  }
}
