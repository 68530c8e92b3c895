/** What every run of the recent-files saver keeps, whatever the interleaving, when Close is called at most once. */
module FlusherSafety {
  import opened Flusher

  predicate InSave(t: Thread) {
    t.Saving? || t.CloseSaving?
  }

  predicate IsCloser(t: Thread) {
    t.Closing? || t.CloseWaiting? || t.CloseSaving? || t.CloseDone?
  }

  ghost predicate ClosedOnce(s: State) {
    forall i, j :: 0 <= i < |s.threads| && 0 <= j < |s.threads| && IsCloser(s.threads[i]) && IsCloser(s.threads[j]) ==>
      i == j
  }

  /** No two saves run at once, Close's own included. */
  ghost predicate NoOverlap(s: State) {
    forall i, j :: 0 <= i < |s.threads| && 0 <= j < |s.threads| && InSave(s.threads[i]) && InSave(s.threads[j]) ==>
      i == j
  }

  ghost predicate SaveUnderWay(s: State) {
    exists i :: 0 <= i < |s.threads| && s.threads[i].Saving?
  }

  /** The counters and the flag tell how many saves began and whether one is in progress. */
  ghost predicate Counted(s: State) {
    && s.started == s.finished + (if s.saving then 1 else 0)
    && |s.began| == s.started
    && (s.saving <==> SaveUnderWay(s))
  }

  /** Later saves cover more, and what finished saves covered is saved. */
  ghost predicate Covering(s: State) {
    && (forall i, j :: 0 <= i <= j < |s.began| ==> s.began[i] <= s.began[j])
    && (forall i :: 0 <= i < |s.began| ==> s.began[i] <= s.changes)
    && s.savedTo <= s.changes
    && (s.finished > 0 && s.finished <= |s.began| ==> s.began[s.finished - 1] <= s.savedTo)
  }

  /** A list that is not dirty is saved, or being saved as it stands. */
  ghost predicate CleanIsSaved(s: State) {
    s.dirty || s.changes <= s.savedTo
    || exists i :: 0 <= i < |s.threads| && InSave(s.threads[i]) && s.threads[i].covers == s.changes
  }

  /** While open, a dirty list has an armed timer, a running save, or a flush about to look at it. */
  ghost predicate DirtyIsTended(s: State) {
    s.closed || !s.dirty || s.timer.Armed? || s.saving || exists i :: 0 <= i < |s.threads| && s.threads[i].Flushing?
  }

  /** Save number want, and every later one, covers the change. */
  ghost predicate Wanted(s: State, want: nat, change: nat) {
    && 1 <= want <= s.started + 1 && change <= s.changes
    && forall j :: want - 1 <= j < |s.began| ==> change <= s.began[j]
  }

  ghost predicate JobHolds(s: State, job: Job) {
    job.Timed? || Wanted(s, job.want, job.change)
  }

  ghost predicate ThreadHolds(s: State, t: Thread) {
    match t
    case Flushing(job) => JobHolds(s, job)
    case Saving(job, covers) =>
      JobHolds(s, job) && s.started > 0 && |s.began| == s.started && covers == s.began[s.started - 1]
    case Checking(want, change) => Wanted(s, want, change)
    case Waiting(want, change) => Wanted(s, want, change) && s.saving && s.finished < want
    case Returned(change, served) => (served ==> change <= s.savedTo) && (served || s.closed)
    case Closing(upto) => s.closed && upto <= s.changes
    case CloseWaiting(upto) => s.closed && upto <= s.changes && s.saving
    case CloseSaving(upto, covers) => s.closed && upto <= covers <= s.changes
    case CloseDone(upto) => s.closed && upto <= s.savedTo
    case _ => true
  }

  ghost predicate ThreadsHold(s: State) {
    forall i :: 0 <= i < |s.threads| ==> ThreadHolds(s, s.threads[i])
  }

  ghost predicate OpensHold(s: State) {
    forall id :: id in s.opens ==> id < s.nextOpen && s.opens[id] <= s.now
  }

  /** The timer is never set further ahead than the longer of the delay and the longest hold, and nothing is
      rebuilt once Close was called. */
  ghost predicate Timely(c: Config, s: State) {
    && OpensHold(s)
    && (s.timer.Armed? ==> !s.closed && s.timer.at <= s.now + Max(c.delay, c.maxHold))
    && (s.closed ==> s.rebuilds == s.rebuildsAtClose)
  }

  ghost predicate Inv(c: Config, s: State) {
    NoOverlap(s) && Counted(s) && Covering(s) && CleanIsSaved(s) && DirtyIsTended(s) && ThreadsHold(s) && Timely(c, s)
  }

  // Steps.

  lemma ArmedIsTimely(c: Config, s: State)
    requires OpensHold(s)
    ensures !s.closed ==> Arm(c, s).timer.Armed? && Arm(c, s).timer.at <= s.now + Max(c.delay, c.maxHold)
  {
    var n := Newest(s.opens, s.nextOpen);
    assert n == 0 || exists id :: id in s.opens && s.opens[id] == n;
  }

  /** The save is held exactly while some open in flight has run for less than the longest hold. */
  lemma HeldIsYoungOpen(c: Config, s: State)
    requires OpensHold(s)
    ensures Held(c, s) <==> exists id :: id in s.opens && s.now < s.opens[id] + c.maxHold
  {
    if Held(c, s) {
      var n := Newest(s.opens, s.nextOpen);
      if n == 0 {
        var id :| id in s.opens;
        assert s.now < s.opens[id] + c.maxHold;
      }
    }
  }

  lemma StepKeeps(c: Config, s: State, e: Event)
    requires Inv(c, s) && Step(c, s, e).Some? && ClosedOnce(Step(c, s, e).value)
    ensures Inv(c, Step(c, s, e).value)
  {
    match e
    case Run(i) => RunKeeps(c, s, i);
    case CloseCall => CloseCallKeeps(c, s);
    case SaveNowCall => SaveNowCallKeeps(c, s);
    case TimerFires => TimerFiresKeeps(c, s);
    case _ => CallKeeps(c, s, e);
  }

  lemma CallKeeps(c: Config, s: State, e: Event)
    requires Inv(c, s) && Step(c, s, e).Some? && (e.Tick? || e.RecordCall? || e.OpenCall? || e.EndCall?)
    ensures Inv(c, Step(c, s, e).value)
  {
    hide Held, HeldUntil, ThreadsHold, Counted, NoOverlap, Covering, CleanIsSaved;
    var t := Step(c, s, e).value;
    SameThreads(s, t);
    match e
    case RecordCall =>
      ArmedIsTimely(c, s.(dirty := true, changes := s.changes + 1));
    case EndCall(id) =>
      ArmedIsTimely(c, s.(opens := s.opens - {id}));
    case _ =>
  }

  /** A step that moves no thread and saves nothing. */
  lemma SameThreads(s: State, t: State)
    requires NoOverlap(s) && Counted(s) && Covering(s) && CleanIsSaved(s) && ThreadsHold(s)
    requires t.threads == s.threads && t.began == s.began && t.started == s.started && t.finished == s.finished
    requires t.saving == s.saving && t.savedTo == s.savedTo && t.closed == s.closed
    requires (t.changes == s.changes && t.dirty == s.dirty) || (t.changes == s.changes + 1 && t.dirty)
    ensures NoOverlap(t) && Counted(t) && Covering(t) && CleanIsSaved(t) && ThreadsHold(t)
  {
    forall i | 0 <= i < |t.threads|
      ensures ThreadHolds(t, t.threads[i])
    {
      assert ThreadHolds(s, s.threads[i]);
    }
    assert SaveUnderWay(s) == SaveUnderWay(t);
  }

  lemma TimerFiresKeeps(c: Config, s: State)
    requires Inv(c, s) && Step(c, s, TimerFires).Some?
    ensures Inv(c, Step(c, s, TimerFires).value)
  {
    var t := Step(c, s, TimerFires).value;
    AddKeeps(s, t, Flushing(Timed));
  }

  lemma SaveNowCallKeeps(c: Config, s: State)
    requires Inv(c, s)
    ensures Inv(c, Step(c, s, SaveNowCall).value)
  {
    var t := Step(c, s, SaveNowCall).value;
    AddKeeps(s, t, Flushing(ForNow(s.started + 1, s.changes + 1)));
  }

  /** A new thread that is not in a save, with the saves as they were. */
  lemma AddKeeps(s: State, t: State, added: Thread)
    requires NoOverlap(s) && Counted(s) && ThreadsHold(s)
    requires t.threads == s.threads + [added] && !InSave(added) && ThreadHolds(t, added)
    requires t.began == s.began && t.started == s.started && t.finished == s.finished && t.saving == s.saving
    requires t.savedTo == s.savedTo && s.changes <= t.changes && (s.closed ==> t.closed)
    ensures NoOverlap(t) && Counted(t) && ThreadsHold(t)
    ensures forall i :: 0 <= i < |s.threads| ==> t.threads[i] == s.threads[i]
    ensures t.threads[|s.threads|] == added
  {
    if SaveUnderWay(s) {
      var i :| 0 <= i < |s.threads| && s.threads[i].Saving?;
      assert t.threads[i].Saving?;
    }
    forall i | 0 <= i < |t.threads|
      ensures ThreadHolds(t, t.threads[i])
    {
      if i < |s.threads| {
        assert ThreadHolds(s, s.threads[i]);
      }
    }
  }

  /** Thread i moves on outside any save, with the saves as they were. */
  lemma MoveKeeps(s: State, t: State, i: nat)
    requires NoOverlap(s) && Counted(s) && ThreadsHold(s)
    requires i < |s.threads| == |t.threads| && t.threads == s.threads[i := t.threads[i]]
    requires !InSave(s.threads[i]) && !InSave(t.threads[i]) && ThreadHolds(t, t.threads[i])
    requires t.began == s.began && t.started == s.started && t.finished == s.finished && t.saving == s.saving
    requires t.savedTo == s.savedTo && t.changes == s.changes && t.closed == s.closed
    ensures NoOverlap(t) && Counted(t) && ThreadsHold(t)
    ensures s.dirty == t.dirty && CleanIsSaved(s) ==> CleanIsSaved(t)
  {
    if SaveUnderWay(s) {
      var j :| 0 <= j < |s.threads| && s.threads[j].Saving?;
      assert t.threads[j].Saving?;
    }
    forall j | 0 <= j < |t.threads|
      ensures ThreadHolds(t, t.threads[j])
    {
      if j != i {
        assert ThreadHolds(s, s.threads[j]);
      }
    }
    if CleanIsSaved(s) && !s.dirty && s.changes > s.savedTo {
      var j :| 0 <= j < |s.threads| && InSave(s.threads[j]) && s.threads[j].covers == s.changes;
      assert t.threads[j] == s.threads[j];
    }
  }

  lemma RunKeeps(c: Config, s: State, i: nat)
    requires Inv(c, s) && Step(c, s, Run(i)).Some? && ClosedOnce(Step(c, s, Run(i)).value)
    ensures Inv(c, Step(c, s, Run(i)).value)
  {
    var t := Step(c, s, Run(i)).value;
    assert ThreadHolds(s, s.threads[i]);
    match s.threads[i]
    case Flushing(job) => EnterFlushKeeps(c, s, i, job);
    case Saving(job, covers) => LeaveFlushKeeps(c, s, i, job, covers);
    case Rebuilding => MoveKeeps(s, t, i); TendedByAnother(s, t, i);
    case Checking(want, change) => CheckNowKeeps(c, s, i, want, change);
    case Closing(upto) => CheckCloseKeeps(c, s, i, upto);
    case CloseSaving(upto, covers) => CloseSavingKeeps(c, s, i, upto, covers);
  }

  /** A thread other than a flush leaves the list as well tended as it was. */
  lemma TendedByAnother(s: State, t: State, i: nat)
    requires DirtyIsTended(s) && i < |s.threads| == |t.threads| && t.threads == s.threads[i := t.threads[i]]
    requires !s.threads[i].Flushing? && t.dirty == s.dirty && t.saving == s.saving && t.closed == s.closed
      && t.timer == s.timer
    ensures DirtyIsTended(t)
  {
    if j :| 0 <= j < |s.threads| && s.threads[j].Flushing? {
      assert t.threads[j].Flushing?;
    }
  }

  lemma CheckNowKeeps(c: Config, s: State, i: nat, want: nat, change: nat)
    requires Inv(c, s) && i < |s.threads| && s.threads[i] == Checking(want, change)
    ensures Inv(c, CheckNow(s, i, want, change))
  {
    var t := CheckNow(s, i, want, change);
    assert ThreadHolds(s, s.threads[i]);
    if s.finished >= want {
      assert change <= s.began[want - 1] <= s.began[s.finished - 1];
    }
    MoveKeeps(s, t, i);
    TendedByAnother(s, t, i);
  }

  lemma EnterFlushKeeps(c: Config, s: State, i: nat, job: Job)
    requires Inv(c, s) && i < |s.threads| && s.threads[i] == Flushing(job)
    ensures Inv(c, EnterFlush(c, s, i, job))
  {
    hide HeldUntil;
    var t := EnterFlush(c, s, i, job);
    assert ThreadHolds(s, s.threads[i]);
    if s.closed || !s.dirty || s.saving || (job.Timed? && Held(c, s)) {
      ArmedIsTimely(c, s);
      MoveKeeps(s, t, i);
      if s.saving {
        assert t.saving;
      }
    } else {
      BeginKeeps(c, s, i, job);
    }
  }

  lemma BeginKeeps(c: Config, s: State, i: nat, job: Job)
    requires Inv(c, s) && i < |s.threads| && s.threads[i] == Flushing(job) && !s.closed && s.dirty && !s.saving
    requires job.Timed? ==> !Held(c, s)
    ensures Inv(c, EnterFlush(c, s, i, job))
  {
    hide Held, HeldUntil;
    var t := EnterFlush(c, s, i, job);
    assert ThreadHolds(s, s.threads[i]);
    assert t.threads[i] == Saving(job, s.changes);
    forall j | 0 <= j < |s.threads|
      ensures !InSave(s.threads[j])
      ensures ThreadHolds(t, t.threads[j])
    {
      assert ThreadHolds(s, s.threads[j]);
    }
    assert SaveUnderWay(t);
  }

  lemma LeaveFlushKeeps(c: Config, s: State, i: nat, job: Job, covers: nat)
    requires Inv(c, s) && i < |s.threads| && s.threads[i] == Saving(job, covers)
    ensures Inv(c, LeaveFlush(c, s, i, job, covers))
  {
    hide Held, HeldUntil, ThreadsHold, NoOverlap;
    var t := LeaveFlush(c, s, i, job, covers);
    LeaveFlushThreads(c, s, i, job, covers);
    ArmedIsTimely(c, t.(timer := s.timer));
  }

  lemma LeaveFlushThreads(c: Config, s: State, i: nat, job: Job, covers: nat)
    requires Inv(c, s) && i < |s.threads| && s.threads[i] == Saving(job, covers)
    ensures var t := LeaveFlush(c, s, i, job, covers);
      && NoOverlap(t) && !SaveUnderWay(t) && ThreadsHold(t)
      && s.saving && |s.began| == s.started && covers == s.began[s.finished]
      && (s.dirty || s.changes <= Max(s.savedTo, covers))
  {
    hide Held, HeldUntil, Arm, Timely, DirtyIsTended, ThreadHolds, Covering;
    var t := LeaveFlush(c, s, i, job, covers);
    SavingThread(c, s, i, job, covers);
    ArmThreads(c, s.(saving := false, finished := s.finished + 1, savedTo := Max(s.savedTo, covers),
                     threads := Broadcast(s.threads[i := AfterFlush(job)]) + [Rebuilding]));
    forall j | 0 <= j < |t.threads|
      ensures !InSave(t.threads[j])
      ensures ThreadHolds(t, t.threads[j])
    {
      if j < |s.threads| && j != i {
        assert ThreadHolds(s, s.threads[j]);
        assert !InSave(s.threads[j]);
        EndedThread(s, t, s.threads[j]);
      } else if j == i {
        EndedJob(s, t, job);
      } else {
        assert t.threads[j] == Rebuilding;
        EndedRebuilding(t);
      }
    }
    if !s.dirty && s.changes > s.savedTo {
      var j :| 0 <= j < |s.threads| && InSave(s.threads[j]) && s.threads[j].covers == s.changes;
      assert j == i;
    }
  }

  lemma SavingThread(c: Config, s: State, i: nat, job: Job, covers: nat)
    requires Inv(c, s) && i < |s.threads| && s.threads[i] == Saving(job, covers)
    ensures s.saving && |s.began| == s.started && covers == s.began[s.finished] && JobHolds(s, job)
  {
    assert ThreadHolds(s, s.threads[i]);
    assert SaveUnderWay(s);
  }

  /** What a thread outside any save holds still holds after a save has ended. */
  lemma EndedThread(s: State, t: State, u: Thread)
    requires ThreadHolds(s, u) && !InSave(u)
    requires t.began == s.began && t.started == s.started && t.savedTo >= s.savedTo && t.changes == s.changes
      && t.closed == s.closed
    ensures ThreadHolds(t, Woken(u))
  {
  }

  lemma EndedJob(s: State, t: State, job: Job)
    requires JobHolds(s, job) && t.began == s.began && t.started == s.started && t.changes == s.changes
    ensures ThreadHolds(t, Woken(AfterFlush(job)))
  {
  }

  lemma EndedRebuilding(t: State)
    ensures ThreadHolds(t, Rebuilding)
  {
  }

  lemma ArmThreads(c: Config, s: State)
    ensures Arm(c, s) == s.(timer := Arm(c, s).timer)
  {
  }

  /** Close's first look, or the one after a save it waited for. */
  lemma CheckCloseKeeps(c: Config, s: State, i: nat, upto: nat)
    requires Inv(c, s) && i < |s.threads| && s.threads[i] == Closing(upto) && ClosedOnce(CheckClose(s, i, upto))
    ensures Inv(c, CheckClose(s, i, upto))
  {
    var t := CheckClose(s, i, upto);
    assert ThreadHolds(s, s.threads[i]);
    if s.saving {
      MoveKeeps(s, t, i);
    } else {
      assert IsCloser(t.threads[i]);
      forall j | 0 <= j < |s.threads|
        ensures !InSave(s.threads[j])
      {
        assert s.threads[j].Saving? ==> SaveUnderWay(s);
        if s.threads[j].CloseSaving? {
          assert IsCloser(t.threads[j]);
        }
      }
      if s.dirty {
        TakeKeeps(c, s, i, upto);
      } else {
        MoveKeeps(s, t, i);
      }
    }
  }

  lemma TakeKeeps(c: Config, s: State, i: nat, upto: nat)
    requires Inv(c, s) && i < |s.threads| && s.threads[i] == Closing(upto) && !s.saving && s.dirty
    requires forall j :: 0 <= j < |s.threads| ==> !InSave(s.threads[j])
    ensures Inv(c, CheckClose(s, i, upto))
  {
    var t := CheckClose(s, i, upto);
    assert ThreadHolds(s, s.threads[i]);
    assert t.threads[i] == CloseSaving(upto, s.changes);
    forall j | 0 <= j < |t.threads|
      ensures ThreadHolds(t, t.threads[j])
    {
      assert ThreadHolds(s, s.threads[j]);
    }
    assert !SaveUnderWay(t);
  }

  lemma CloseSavingKeeps(c: Config, s: State, i: nat, upto: nat, covers: nat)
    requires Inv(c, s) && i < |s.threads| && s.threads[i] == CloseSaving(upto, covers)
    ensures Inv(c, Step(c, s, Run(i)).value)
  {
    var t := Step(c, s, Run(i)).value;
    assert ThreadHolds(s, s.threads[i]);
    forall j | 0 <= j < |t.threads|
      ensures !InSave(t.threads[j])
      ensures ThreadHolds(t, t.threads[j])
    {
      if j != i {
        assert ThreadHolds(s, s.threads[j]);
      }
    }
    assert !SaveUnderWay(s) && !SaveUnderWay(t);
    if !s.dirty && s.changes > s.savedTo {
      var j :| 0 <= j < |s.threads| && InSave(s.threads[j]) && s.threads[j].covers == s.changes;
      assert j == i;
    }
  }

  lemma CloseCallKeeps(c: Config, s: State)
    requires Inv(c, s) && ClosedOnce(Step(c, s, CloseCall).value)
    ensures Inv(c, Step(c, s, CloseCall).value)
  {
    var i := |s.threads|;
    var s1 := s.(closed := true, timer := if s.timer.NoTimer? then NoTimer else Idle,
                 rebuildsAtClose := if s.closed then s.rebuildsAtClose else s.rebuilds,
                 threads := s.threads + [Closing(s.changes)]);
    AddKeeps(s, s1, Closing(s.changes));
    assert Inv(c, s1);
    CheckCloseKeeps(c, s1, i, s.changes);
  }

  // Runs.

  lemma ClosersStay(c: Config, s: State, e: Event)
    requires Step(c, s, e).Some? && ClosedOnce(Step(c, s, e).value)
    ensures ClosedOnce(s)
  {
    var t := Step(c, s, e).value;
    assert |s.threads| <= |t.threads|;
    forall i | 0 <= i < |s.threads| && IsCloser(s.threads[i])
      ensures IsCloser(t.threads[i])
    {
    }
  }

  /** Every state of every run with at most one Close keeps the invariant. */
  lemma {:induction false} RunIsSafe(c: Config, run: seq<Event>)
    requires Execute(c, Init(), run).Some? && ClosedOnce(Execute(c, Init(), run).value)
    ensures Inv(c, Execute(c, Init(), run).value)
    decreases |run|
  {
    hide Inv, ClosedOnce, Step;
    if run == [] {
      InitIsSafe(c);
    } else {
      var before := run[..|run| - 1];
      var s := Execute(c, Init(), before).value;
      ClosersStay(c, s, run[|run| - 1]);
      RunIsSafe(c, before);
      StepKeeps(c, s, run[|run| - 1]);
    }
  }

  lemma InitIsSafe(c: Config)
    ensures Inv(c, Init())
  {
  }

  /** The state that a run with at most one Close reaches. */
  ghost predicate Reaches(c: Config, run: seq<Event>, s: State) {
    Execute(c, Init(), run) == Some(s) && ClosedOnce(s)
  }

  /** SaveNow comes back before Close only once a save that began after its change has finished. */
  lemma SaveNowIsServed(c: Config, run: seq<Event>, s: State, i: nat)
    requires Reaches(c, run, s) && i < |s.threads| && s.threads[i].Returned? && !s.closed
    ensures s.threads[i].change <= s.savedTo
  {
    RunIsSafe(c, run);
    assert ThreadHolds(s, s.threads[i]);
  }

  /** Every change made before Close was called is saved when Close comes back. */
  lemma CloseSavesAll(c: Config, run: seq<Event>, s: State, i: nat)
    requires Reaches(c, run, s) && i < |s.threads| && s.threads[i].CloseDone?
    ensures s.threads[i].upto <= s.savedTo
  {
    RunIsSafe(c, run);
    assert ThreadHolds(s, s.threads[i]);
  }

  ghost predicate Asleep(t: Thread) {
    t.Waiting? || t.CloseWaiting?
  }

  /** No wake-up is lost: while a thread sleeps a save is in progress, and its end wakes the thread. */
  lemma SleeperIsWoken(c: Config, run: seq<Event>, s: State, i: nat) returns (j: nat)
    requires Reaches(c, run, s) && i < |s.threads| && Asleep(s.threads[i])
    ensures j < |s.threads| && s.threads[j].Saving?
    ensures Step(c, s, Run(j)).Some? && !Asleep(Step(c, s, Run(j)).value.threads[i])
  {
    RunIsSafe(c, run);
    assert ThreadHolds(s, s.threads[i]);
    assert SaveUnderWay(s);
    j :| 0 <= j < |s.threads| && s.threads[j].Saving?;
  }

  // Any number of Closes.

  /** Whatever calls are made, saves can only overlap when both are a Close's own. */
  ghost predicate OnlyClosesOverlap(s: State) {
    && (forall i, j :: 0 <= i < |s.threads| && 0 <= j < |s.threads| && InSave(s.threads[i]) && s.threads[j].Saving? ==>
          i == j)
    && (s.saving <==> SaveUnderWay(s))
    && (forall i :: 0 <= i < |s.threads| && IsCloser(s.threads[i]) ==> s.closed)
  }

  ghost predicate CloseIsSaving(s: State) {
    exists i :: 0 <= i < |s.threads| && s.threads[i].CloseSaving?
  }

  /** The event takes a Close past its wait. */
  predicate ClosePasses(s: State, e: Event) {
    e.CloseCall? || (e.Run? && e.thread < |s.threads| && s.threads[e.thread].Closing?)
  }

  lemma OverlapKeeps(c: Config, s: State, e: Event)
    requires OnlyClosesOverlap(s) && Step(c, s, e).Some?
    ensures OnlyClosesOverlap(Step(c, s, e).value)
  {
    hide OnlyClosesOverlap, Held, Arm, HeldUntil, CheckClose;
    match e {
      case Tick(elapsed) => OverlapKeepsThreads(s, Step(c, s, e).value);
      case RecordCall =>
        ArmThreads(c, s.(dirty := true, changes := s.changes + 1));
        OverlapKeepsThreads(s, Step(c, s, e).value);
      case OpenCall => OverlapKeepsThreads(s, Step(c, s, e).value);
      case EndCall(id) =>
        ArmThreads(c, s.(opens := s.opens - {id}));
        OverlapKeepsThreads(s, Step(c, s, e).value);
      case TimerFires => OverlapKeepsAdd(s, Step(c, s, e).value, Flushing(Timed));
      case SaveNowCall => OverlapKeepsAdd(s, Step(c, s, e).value, Flushing(ForNow(s.started + 1, s.changes + 1)));
      case CloseCall =>
        var s1 := s.(closed := true, timer := if s.timer.NoTimer? then NoTimer else Idle,
                     rebuildsAtClose := if s.closed then s.rebuildsAtClose else s.rebuilds,
                     threads := s.threads + [Closing(s.changes)]);
        OverlapKeepsAdd(s, s1, Closing(s.changes));
        OverlapKeepsRun(c, s1, |s.threads|);
      case Run(i) => OverlapKeepsRun(c, s, i);
    }
  }

  lemma OverlapKeepsThreads(s: State, t: State)
    requires OnlyClosesOverlap(s) && t.threads == s.threads && t.saving == s.saving && t.closed == s.closed
    ensures OnlyClosesOverlap(t)
  {
  }

  lemma OverlapKeepsAdd(s: State, t: State, added: Thread)
    requires OnlyClosesOverlap(s) && t.threads == s.threads + [added] && !InSave(added)
    requires t.saving == s.saving && (s.closed || IsCloser(added) ==> t.closed)
    ensures OnlyClosesOverlap(t)
  {
    if SaveUnderWay(s) {
      var i :| 0 <= i < |s.threads| && s.threads[i].Saving?;
      assert t.threads[i].Saving?;
    }
  }

  lemma OverlapKeepsRun(c: Config, s: State, i: nat)
    requires OnlyClosesOverlap(s) && Step(c, s, Run(i)).Some?
    ensures OnlyClosesOverlap(Step(c, s, Run(i)).value)
  {
    hide OnlyClosesOverlap, Held, Arm, HeldUntil;
    var t := Step(c, s, Run(i)).value;
    ArmThreads(c, s);
    if s.threads[i].Saving? {
      var job, covers := s.threads[i].job, s.threads[i].covers;
      var s1 := s.(saving := false, finished := s.finished + 1, savedTo := Max(s.savedTo, covers),
                   threads := Broadcast(s.threads[i := AfterFlush(job)]) + [Rebuilding]);
      ArmThreads(c, s1);
      OverlapKeepsEnd(s, t, i, job);
    } else {
      OverlapKeepsMove(s, t, i);
    }
  }

  /** Thread i moves on, and may begin a save when none is in its way. */
  lemma OverlapKeepsMove(s: State, t: State, i: nat)
    requires OnlyClosesOverlap(s) && i < |s.threads| == |t.threads| && !s.threads[i].Saving?
    requires t.threads == s.threads[i := t.threads[i]]
    requires t.closed == s.closed && t.saving == (s.saving || t.threads[i].Saving?)
    requires IsCloser(t.threads[i]) ==> IsCloser(s.threads[i])
    requires InSave(t.threads[i]) && !InSave(s.threads[i]) ==> !s.saving
    requires t.threads[i].Saving? ==> !InSave(s.threads[i]) && !s.closed
    ensures OnlyClosesOverlap(t)
  {
    if SaveUnderWay(s) {
      var j :| 0 <= j < |s.threads| && s.threads[j].Saving?;
      assert t.threads[j].Saving?;
    }
    if SaveUnderWay(t) {
      var j :| 0 <= j < |t.threads| && t.threads[j].Saving?;
      assert j != i ==> s.threads[j].Saving?;
    }
  }

  lemma OverlapKeepsEnd(s: State, t: State, i: nat, job: Job)
    requires OnlyClosesOverlap(s) && i < |s.threads| && s.threads[i].Saving?
    requires t.threads == Broadcast(s.threads[i := AfterFlush(job)]) + [Rebuilding] && !t.saving && t.closed == s.closed
    ensures OnlyClosesOverlap(t)
  {
    forall j | 0 <= j < |t.threads| && InSave(t.threads[j])
      ensures j < |s.threads| && j != i && s.threads[j] == t.threads[j]
    {
    }
  }

  lemma {:induction false} RunOverlaps(c: Config, run: seq<Event>)
    requires Execute(c, Init(), run).Some?
    ensures OnlyClosesOverlap(Execute(c, Init(), run).value)
    decreases |run|
  {
    hide OnlyClosesOverlap, Step;
    if run == [] {
      NothingOverlaps();
    } else {
      RunOverlaps(c, run[..|run| - 1]);
      OverlapKeeps(c, Execute(c, Init(), run[..|run| - 1]).value, run[|run| - 1]);
    }
  }

  lemma NothingOverlaps()
    ensures OnlyClosesOverlap(Init())
  {
  }

  /** However often Close is called, a step makes two saves overlap if and only if it takes a Close past its wait with
      a dirty list while another Close is saving. */
  lemma OverlapBeginsIff(c: Config, run: seq<Event>, s: State, e: Event)
    requires Execute(c, Init(), run) == Some(s) && NoOverlap(s) && Step(c, s, e).Some?
    ensures NoOverlap(Step(c, s, e).value) <==> !(ClosePasses(s, e) && s.dirty && !s.saving && CloseIsSaving(s))
  {
    hide Held, Arm, HeldUntil, Execute;
    RunOverlaps(c, run);
    OverlapKeeps(c, s, e);
    var t := Step(c, s, e).value;
    if ClosePasses(s, e) && s.dirty && !s.saving && CloseIsSaving(s) {
      var i :| 0 <= i < |s.threads| && s.threads[i].CloseSaving?;
      var j := if e.CloseCall? then |s.threads| else e.thread;
      assert t.threads[i].CloseSaving? && t.threads[j].CloseSaving? && i != j;
    } else {
      ClosesStayApart(c, s, e);
    }
  }

  lemma ClosesStayApart(c: Config, s: State, e: Event)
    requires OnlyClosesOverlap(s) && NoOverlap(s) && Step(c, s, e).Some? && OnlyClosesOverlap(Step(c, s, e).value)
    requires !(ClosePasses(s, e) && s.dirty && !s.saving && CloseIsSaving(s))
    ensures NoOverlap(Step(c, s, e).value)
  {
    hide Held, Arm, HeldUntil;
    var t := Step(c, s, e).value;
    ArmThreads(c, s);
    ArmThreads(c, s.(dirty := true, changes := s.changes + 1));
    if e.EndCall? {
      ArmThreads(c, s.(opens := s.opens - {e.id}));
    }
    if e.Run? && s.threads[e.thread].Saving? {
      var job, covers := s.threads[e.thread].job, s.threads[e.thread].covers;
      ArmThreads(c, s.(saving := false, finished := s.finished + 1, savedTo := Max(s.savedTo, covers),
                       threads := Broadcast(s.threads[e.thread := AfterFlush(job)]) + [Rebuilding]));
    }
    forall i, j | 0 <= i < |t.threads| && 0 <= j < |t.threads| && InSave(t.threads[i]) && InSave(t.threads[j])
      ensures i == j
    {
      if t.threads[i].CloseSaving? && t.threads[j].CloseSaving? && i != j {
        OneWasSaving(c, s, e, i);
        OneWasSaving(c, s, e, j);
      }
    }
  }

  /** A Close that is saving after a step was saving before it, or began with it. */
  lemma OneWasSaving(c: Config, s: State, e: Event, i: nat)
    requires Step(c, s, e).Some? && i < |Step(c, s, e).value.threads| && Step(c, s, e).value.threads[i].CloseSaving?
    ensures (i < |s.threads| && s.threads[i].CloseSaving?) ||
            (ClosePasses(s, e) && s.dirty && !s.saving && i == if e.CloseCall? then |s.threads| else e.thread)
  {
    hide Held, HeldUntil;
  }

  /** With Close called twice two saves can overlap: a change recorded while the first Close saves is taken by
      the second. */
  lemma TwoClosesOverlap(c: Config)
    ensures exists run, s :: Execute(c, Init(), run) == Some(s) && !NoOverlap(s)
  {
    var run := [RecordCall, CloseCall, RecordCall, CloseCall];
    assert run[..3] == [RecordCall, CloseCall, RecordCall];
    assert run[..3][..2] == [RecordCall, CloseCall];
    assert run[..3][..2][..1] == [RecordCall];
    assert run[..3][..2][..1][..0] == [];
    var s1 := Step(c, Init(), RecordCall).value;
    var s2 := Step(c, s1, CloseCall).value;
    var s3 := Step(c, s2, RecordCall).value;
    var s4 := Step(c, s3, CloseCall).value;
    assert Execute(c, Init(), []) == Some(Init());
    assert Execute(c, Init(), run[..3][..2][..1]) == Some(s1);
    assert Execute(c, Init(), run[..3][..2]) == Some(s2);
    assert Execute(c, Init(), run[..3]) == Some(s3);
    assert Execute(c, Init(), run) == Some(s4);
    assert s4.threads[0].CloseSaving? && s4.threads[1].CloseSaving?;
  }
}
