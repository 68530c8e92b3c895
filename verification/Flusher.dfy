/** The saver of the recent-files list as a machine of atomic steps.  Calls arrive at any time, the clock moves at
    will, and every thread runs one critical section, or one save, at a time. */
module Flusher {

  datatype Config = Config(delay: nat, maxHold: nat)

  datatype Timer = NoTimer | Idle | Armed(at: nat)

  /** On whose behalf flush runs: the timer, or a SaveNow call waiting for save number want because of its change. */
  datatype Job = Timed | ForNow(want: nat, change: nat)

  /** Where a thread stands. */
  datatype Thread =
    | Flushing(job: Job)                     // about to take the lock in flush
    | Saving(job: Job, covers: nat)          // inside flush's save, which covers this many changes
    | Rebuilding                             // its rebuild is queued on the UI thread
    | Checking(want: nat, change: nat)       // SaveNow, about to look at the finished saves
    | Waiting(want: nat, change: nat)        // SaveNow, asleep until a save ends
    | Returned(change: nat, served: bool)    // SaveNow is back; served when the save it wanted has finished
    | Closing(upto: nat)                     // Close, about to look for a save in progress
    | CloseWaiting(upto: nat)                // Close, asleep until a save ends
    | CloseSaving(upto: nat, covers: nat)    // inside Close's own save
    | CloseDone(upto: nat)                   // Close is back
    | Done

  /** The flusher's fields, the threads, and a history: how many changes there were, how many each counted save
      covered when it began, how many are saved, and how many rebuilds have run, now and when Close was called. */
  datatype State = State(
    now: nat, timer: Timer, opens: map<nat, nat>, nextOpen: nat,
    dirty: bool, saving: bool, started: nat, finished: nat, closed: bool,
    threads: seq<Thread>,
    changes: nat, began: seq<nat>, savedTo: nat, rebuilds: nat, rebuildsAtClose: nat)

  datatype Event =
    | Tick(elapsed: nat)
    | RecordCall
    | OpenCall
    | EndCall(id: nat)
    | TimerFires
    | SaveNowCall
    | CloseCall
    | Run(thread: nat)

  datatype Option<T> = None | Some(value: T)

  function Init(): State {
    State(0, NoTimer, map[], 0, false, false, 0, 0, false, [], 0, [], 0, 0, 0)
  }

  function Max(a: nat, b: nat): nat {
    if a < b then b else a
  }

  /** The start of the newest open in flight among the first n, or zero. */
  function Newest(opens: map<nat, nat>, n: nat): (newest: nat)
    ensures forall id :: id in opens && id < n ==> opens[id] <= newest
    ensures newest == 0 || exists id :: id in opens && id < n && opens[id] == newest
  {
    if n == 0 then 0
    else if n - 1 in opens then Max(opens[n - 1], Newest(opens, n - 1))
    else Newest(opens, n - 1)
  }

  function HeldUntil(c: Config, s: State): nat {
    Newest(s.opens, s.nextOpen) + c.maxHold
  }

  predicate Held(c: Config, s: State) {
    s.opens != map[] && s.now < HeldUntil(c, s)
  }

  /** Restarts the timer: when the hold ends, or after the delay. */
  function Arm(c: Config, s: State): State {
    if s.closed then s
    else s.(timer := Armed(if Held(c, s) then HeldUntil(c, s) else s.now + c.delay))
  }

  /** Wakes every thread asleep on the condition. */
  function Woken(t: Thread): Thread {
    match t
    case Waiting(want, change) => Checking(want, change)
    case CloseWaiting(upto) => Closing(upto)
    case _ => t
  }

  function Broadcast(ts: seq<Thread>): (r: seq<Thread>)
    ensures |r| == |ts| && forall i :: 0 <= i < |ts| ==> r[i] == Woken(ts[i])
  {
    seq(|ts|, i requires 0 <= i < |ts| => Woken(ts[i]))
  }

  /** Where the thread of a job goes after flush. */
  function AfterFlush(job: Job): Thread {
    match job
    case Timed => Done
    case ForNow(want, change) => Checking(want, change)
  }

  /** The first critical section of flush: it begins a save, or returns, arming the timer again when only an open in
      flight is in the way. */
  function EnterFlush(c: Config, s: State, i: nat, job: Job): State
    requires i < |s.threads|
  {
    var held := Held(c, s);
    if s.closed || !s.dirty || s.saving || (job.Timed? && held) then
      var s1 := if held && s.dirty && !s.saving && !s.closed then Arm(c, s) else s;
      s1.(threads := s1.threads[i := AfterFlush(job)])
    else
      s.(dirty := false, saving := true, started := s.started + 1, began := s.began + [s.changes],
         threads := s.threads[i := Saving(job, s.changes)])
  }

  /** The second critical section of flush: the save is over, and its rebuild goes to the UI thread. */
  function LeaveFlush(c: Config, s: State, i: nat, job: Job, covers: nat): State
    requires i < |s.threads|
  {
    var s1 := s.(saving := false, finished := s.finished + 1, savedTo := Max(s.savedTo, covers),
                 threads := Broadcast(s.threads[i := AfterFlush(job)]) + [Rebuilding]);
    if s1.dirty then Arm(c, s1) else s1
  }

  /** SaveNow looks whether to sleep, to return, or to flush again. */
  function CheckNow(s: State, i: nat, want: nat, change: nat): State
    requires i < |s.threads|
  {
    if s.saving && s.finished < want then s.(threads := s.threads[i := Waiting(want, change)])
    else if s.finished >= want || s.closed then s.(threads := s.threads[i := Returned(change, s.finished >= want)])
    else s.(threads := s.threads[i := Flushing(ForNow(want, change))])
  }

  /** Close sleeps while a save is in progress, then takes a waiting change to save it itself. */
  function CheckClose(s: State, i: nat, upto: nat): State
    requires i < |s.threads|
  {
    if s.saving then s.(threads := s.threads[i := CloseWaiting(upto)])
    else if s.dirty then s.(dirty := false, threads := s.threads[i := CloseSaving(upto, s.changes)])
    else s.(threads := s.threads[i := CloseDone(upto)])
  }

  /** One step of thread i; a sleeping or finished thread has none. */
  function RunThread(c: Config, s: State, i: nat): Option<State>
    requires i < |s.threads|
  {
    match s.threads[i]
    case Flushing(job) => Some(EnterFlush(c, s, i, job))
    case Saving(job, covers) => Some(LeaveFlush(c, s, i, job, covers))
    case Rebuilding =>
      Some(s.(rebuilds := if s.closed then s.rebuilds else s.rebuilds + 1, threads := s.threads[i := Done]))
    case Checking(want, change) => Some(CheckNow(s, i, want, change))
    case Closing(upto) => Some(CheckClose(s, i, upto))
    case CloseSaving(upto, covers) =>
      Some(s.(savedTo := Max(s.savedTo, covers), threads := s.threads[i := CloseDone(upto)]))
    case _ => None
  }

  function Step(c: Config, s: State, e: Event): Option<State> {
    match e
    case Tick(elapsed) => Some(s.(now := s.now + elapsed))
    case RecordCall => Some(Arm(c, s.(dirty := true, changes := s.changes + 1)))
    case OpenCall => Some(s.(opens := s.opens[s.nextOpen := s.now], nextOpen := s.nextOpen + 1))
    case EndCall(id) =>
      if id >= s.nextOpen then None
      else
        var s1 := s.(opens := s.opens - {id});
        Some(if s.dirty && Held(c, s) then Arm(c, s1) else s1)
    case TimerFires =>
      if s.timer.Armed? && s.timer.at <= s.now then Some(s.(timer := Idle, threads := s.threads + [Flushing(Timed)]))
      else None
    case SaveNowCall =>
      Some(s.(dirty := true, changes := s.changes + 1,
              threads := s.threads + [Flushing(ForNow(s.started + 1, s.changes + 1))]))
    case CloseCall =>
      var s1 := s.(closed := true, timer := if s.timer.NoTimer? then NoTimer else Idle,
                   rebuildsAtClose := if s.closed then s.rebuildsAtClose else s.rebuilds,
                   threads := s.threads + [Closing(s.changes)]);
      Some(CheckClose(s1, |s.threads|, s.changes))
    case Run(i) => if i < |s.threads| then RunThread(c, s, i) else None
  }

  /** The state after a run of events, when each was possible. */
  function Execute(c: Config, s: State, run: seq<Event>): Option<State> {
    if run == [] then Some(s)
    else
      match Execute(c, s, run[..|run| - 1])
      case None => None
      case Some(m) => Step(c, m, run[|run| - 1])
  }
}
