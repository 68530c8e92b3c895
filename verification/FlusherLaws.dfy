/** When the recent-files saver saves and rebuilds, told by the opens in flight and the calls made. */
module FlusherLaws {
  import opened Flusher
  import opened FlusherSafety

  /** An open in flight started less than the longest hold ago. */
  ghost predicate IsYoung(c: Config, s: State, id: nat) {
    id in s.opens && s.now < s.opens[id] + c.maxHold
  }

  ghost predicate SomeYoung(c: Config, s: State) {
    exists id :: IsYoung(c, s, id)
  }

  /** The time at which the newest open in flight stops holding the save. */
  ghost predicate HoldEnds(c: Config, s: State, at: nat) {
    && (exists id :: id in s.opens && s.opens[id] + c.maxHold == at)
    && forall id :: id in s.opens ==> s.opens[id] + c.maxHold <= at
  }

  /** The timer waits for the hold to end, or for the delay when nothing holds the save. */
  ghost predicate TimerWaits(c: Config, s: State, timer: Timer) {
    && timer.Armed?
    && if SomeYoung(c, s) then HoldEnds(c, s, timer.at) else timer.at == s.now + c.delay
  }

  lemma ArmWaits(c: Config, s: State)
    requires OpensHold(s) && !s.closed
    ensures TimerWaits(c, s, Arm(c, s).timer) && Arm(c, s) == s.(timer := Arm(c, s).timer)
  {
    HeldIsYoungOpen(c, s);
    assert SomeYoung(c, s) <==> Held(c, s) by {
      assert forall id :: IsYoung(c, s, id) <==> id in s.opens && s.now < s.opens[id] + c.maxHold;
    }
    if Held(c, s) {
      NewestEnds(c, s);
    }
  }

  lemma NewestEnds(c: Config, s: State)
    requires OpensHold(s) && s.opens != map[]
    ensures HoldEnds(c, s, HeldUntil(c, s))
  {
    var n := Newest(s.opens, s.nextOpen);
    if n == 0 {
      var id :| id in s.opens;
      assert s.opens[id] + c.maxHold == HeldUntil(c, s);
    }
  }

  /** A change recorded before Close is counted and sets the timer. */
  lemma RecordSetsTimer(c: Config, s: State)
    requires OpensHold(s) && !s.closed
    ensures var t := Step(c, s, RecordCall).value;
      TimerWaits(c, s, t.timer) && t == s.(timer := t.timer, dirty := true, changes := s.changes + 1)
  {
    var s1 := s.(dirty := true, changes := s.changes + 1);
    ArmWaits(c, s1);
    SameOpens(c, s, s1, Arm(c, s1).timer);
  }

  lemma SameOpens(c: Config, s: State, s1: State, timer: Timer)
    requires s.opens == s1.opens && s.now == s1.now
    ensures TimerWaits(c, s, timer) <==> TimerWaits(c, s1, timer)
  {
    assert forall id :: IsYoung(c, s, id) <==> IsYoung(c, s1, id);
  }

  /** The end of an open moves a waiting save only when some open held it until then. */
  lemma EndSetsTimer(c: Config, s: State, id: nat)
    requires OpensHold(s) && !s.closed && Step(c, s, EndCall(id)).Some?
    ensures var s1, t := s.(opens := s.opens - {id}), Step(c, s, EndCall(id)).value;
      if s.dirty && SomeYoung(c, s) then TimerWaits(c, s1, t.timer) && t == s1.(timer := t.timer) else t == s1
  {
    var s1 := s.(opens := s.opens - {id});
    HeldIsYoungOpen(c, s);
    assert forall id :: IsYoung(c, s, id) <==> id in s.opens && s.now < s.opens[id] + c.maxHold;
    ArmWaits(c, s1);
  }

  /** A flush begins a save exactly when the list is dirty, no save is in progress, Close was not called and, unless
      SaveNow asked for it, no open in flight is young; the save covers every change so far. */
  lemma FlushBeginsIff(c: Config, s: State, i: nat)
    requires OpensHold(s) && i < |s.threads| && s.threads[i].Flushing?
    ensures var t, job := Step(c, s, Run(i)).value, s.threads[i].job;
      if s.dirty && !s.saving && !s.closed && (job.ForNow? || !SomeYoung(c, s)) then
        t.threads[i] == Saving(job, s.changes) && t.saving && !t.dirty && t.started == s.started + 1
      else
        !t.threads[i].Saving? && t.saving == s.saving && t.dirty == s.dirty && t.started == s.started
        && (s.dirty && !s.saving && !s.closed ==> TimerWaits(c, s, t.timer))
  {
    HeldIsYoungOpen(c, s);
    assert forall id :: IsYoung(c, s, id) <==> id in s.opens && s.now < s.opens[id] + c.maxHold;
    if !s.closed {
      ArmWaits(c, s);
    }
  }

  // A batch of records.

  predicate IsBatchEvent(e: Event) {
    e.RecordCall? || e.Tick?
  }

  predicate IsBatch(batch: seq<Event>) {
    forall i :: 0 <= i < |batch| ==> IsBatchEvent(batch[i])
  }

  /** How many records a batch holds, how long it takes, and how long ago its last record is. */
  function Records(batch: seq<Event>): nat {
    if batch == [] then 0 else Records(batch[..|batch| - 1]) + (if batch[|batch| - 1].RecordCall? then 1 else 0)
  }

  function Length(batch: seq<Event>): nat {
    if batch == [] then 0
    else Length(batch[..|batch| - 1]) + (if batch[|batch| - 1].Tick? then batch[|batch| - 1].elapsed else 0)
  }

  function LastRecord(batch: seq<Event>): nat {
    if batch == [] then 0
    else if batch[|batch| - 1].RecordCall? then Length(batch[..|batch| - 1])
    else LastRecord(batch[..|batch| - 1])
  }

  /** After records and time alone, the timer is the delay after the last record. */
  lemma {:induction false} BatchWaits(c: Config, batch: seq<Event>)
    requires IsBatch(batch)
    ensures var s := Execute(c, Init(), batch);
      && s.Some? && s.value.now == Length(batch) && s.value.changes == Records(batch)
      && s.value.timer == (if Records(batch) == 0 then NoTimer else Armed(LastRecord(batch) + c.delay))
      && s.value == Init().(now := s.value.now, changes := s.value.changes, timer := s.value.timer,
                            dirty := Records(batch) > 0)
  {
    if batch != [] {
      BatchWaits(c, batch[..|batch| - 1]);
    }
  }

  /** A batch of records costs one save: the timer can fire exactly when the delay has passed since the last record,
      it fires once, and its save covers all of them and leaves nothing to save. */
  lemma BatchCostsOneSave(c: Config, batch: seq<Event>)
    requires IsBatch(batch) && Records(batch) > 0
    ensures Execute(c, Init(), batch).Some?
    ensures var s := Execute(c, Init(), batch).value;
      && (Step(c, s, TimerFires).Some? <==> LastRecord(batch) + c.delay <= Length(batch))
      && (LastRecord(batch) + c.delay <= Length(batch) ==>
            var t := Step(c, s, TimerFires).value;
            && Step(c, t, TimerFires).None? && |t.threads| == 1
            && var u := Step(c, t, Run(0)).value;
            && u.threads == [Saving(Timed, Records(batch))] && u.started == 1
            && var v := Step(c, u, Run(0)).value;
            v.savedTo == Records(batch) && !v.dirty && v.timer == Idle && v.threads == [Done, Rebuilding])
  {
    BatchWaits(c, batch);
    var s := Execute(c, Init(), batch).value;
    if LastRecord(batch) + c.delay <= Length(batch) {
      var t := Step(c, s, TimerFires).value;
      assert t.threads == [Flushing(Timed)];
      var u := Step(c, t, Run(0)).value;
      assert u.threads == [Saving(Timed, Records(batch))];
      var v := Step(c, u, Run(0)).value;
      assert v.threads == [Done, Rebuilding];
    }
  }

  // Rebuilds.

  function Pending(ts: seq<Thread>): nat {
    if ts == [] then 0 else Pending(ts[..|ts| - 1]) + (if ts[|ts| - 1].Rebuilding? then 1 else 0)
  }

  lemma {:induction false} PendingSet(ts: seq<Thread>, i: nat, t: Thread)
    requires i < |ts|
    ensures Pending(ts[i := t]) ==
      Pending(ts) - (if ts[i].Rebuilding? then 1 else 0) + (if t.Rebuilding? then 1 else 0)
  {
    var n := |ts| - 1;
    if i < n {
      assert ts[i := t][..n] == ts[..n][i := t];
      PendingSet(ts[..n], i, t);
    } else {
      assert ts[i := t][..n] == ts[..n];
    }
  }

  lemma PendingPush(ts: seq<Thread>, t: Thread)
    ensures Pending(ts + [t]) == Pending(ts) + (if t.Rebuilding? then 1 else 0)
  {
    assert (ts + [t])[..|ts|] == ts;
  }

  lemma {:induction false} PendingWoken(ts: seq<Thread>)
    ensures Pending(Broadcast(ts)) == Pending(ts)
  {
    if ts != [] {
      assert Broadcast(ts)[..|ts| - 1] == Broadcast(ts[..|ts| - 1]);
      PendingWoken(ts[..|ts| - 1]);
    }
  }

  ghost predicate Rebuilt(s: State) {
    s.rebuilds + Pending(s.threads) <= s.finished && (!s.closed ==> s.rebuilds + Pending(s.threads) == s.finished)
  }

  lemma RunRebuilds(c: Config, s: State, i: nat)
    requires Rebuilt(s) && i < |s.threads| && RunThread(c, s, i).Some?
    ensures Rebuilt(RunThread(c, s, i).value)
  {
    hide Held, HeldUntil, Pending;
    var t := RunThread(c, s, i).value;
    match s.threads[i]
    case Flushing(job) => PendingSet(s.threads, i, t.threads[i]);
    case Saving(job, covers) =>
      PendingSet(s.threads, i, AfterFlush(job));
      PendingWoken(s.threads[i := AfterFlush(job)]);
      PendingPush(Broadcast(s.threads[i := AfterFlush(job)]), Rebuilding);
    case Rebuilding => PendingSet(s.threads, i, Done);
    case Checking(_, _) => PendingSet(s.threads, i, t.threads[i]);
    case Closing(_) => PendingSet(s.threads, i, t.threads[i]);
    case CloseSaving(_, _) => PendingSet(s.threads, i, t.threads[i]);
    case _ =>
  }

  lemma StepRebuilds(c: Config, s: State, e: Event)
    requires Rebuilt(s) && Step(c, s, e).Some?
    ensures Rebuilt(Step(c, s, e).value)
  {
    hide Held, HeldUntil, Pending;
    match e
    case Run(i) => RunRebuilds(c, s, i);
    case TimerFires => PendingPush(s.threads, Flushing(Timed));
    case SaveNowCall => PendingPush(s.threads, Flushing(ForNow(s.started + 1, s.changes + 1)));
    case CloseCall =>
      PendingPush(s.threads, Closing(s.changes));
      PendingSet(s.threads + [Closing(s.changes)], |s.threads|, Step(c, s, e).value.threads[|s.threads|]);
    case _ =>
  }

  lemma {:induction false} RunIsRebuilt(c: Config, run: seq<Event>)
    requires Execute(c, Init(), run).Some?
    ensures Rebuilt(Execute(c, Init(), run).value)
  {
    hide Step, Rebuilt;
    if run != [] {
      RunIsRebuilt(c, run[..|run| - 1]);
      StepRebuilds(c, Execute(c, Init(), run[..|run| - 1]).value, run[|run| - 1]);
    } else {
      InitIsRebuilt();
    }
  }

  lemma InitIsRebuilt()
    ensures Rebuilt(Init())
  {
  }

  /** In every run, each save that has finished has had its rebuild or has it queued, and before Close none is lost. */
  lemma EverySaveRebuilds(c: Config, run: seq<Event>)
    requires Execute(c, Init(), run).Some?
    ensures var s := Execute(c, Init(), run).value;
      && s.rebuilds + Pending(s.threads) <= s.finished
      && (!s.closed ==> s.rebuilds + Pending(s.threads) == s.finished)
  {
    hide Execute, Pending;
    RunIsRebuilt(c, run);
  }
}
