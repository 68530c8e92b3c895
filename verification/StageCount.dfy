/** What the stages of a filter pipeline can hand on under a cap, and the verdict on their counts. */
module StageCount {
  import opened FilterReaders

  /** A library decoder, which takes its input byte by byte: what it gives for one more byte, whether it has had
      enough, and what it still gives at the end of the input, each as told by the bytes it took before. */
  datatype Machine = Machine(
    emit: (seq<Byte>, Byte) -> seq<Byte>,
    stops: seq<Byte> -> bool,
    flush: seq<Byte> -> seq<Byte>)

  /** All that a decoder gives for the input s, after the bytes taken. */
  function MachineRun(m: Machine, taken: seq<Byte>, s: seq<Byte>): seq<Byte>
    decreases |s|
  {
    if m.stops(taken) then []
    else if s == [] then m.flush(taken)
    else m.emit(taken, s[0]) + MachineRun(m, taken + [s[0]], s[1..])
  }

  type Positive = n: int | 0 < n witness 1

  /** The reader of one stage: bytes at hand, no bytes but a size known beforehand, one of the two readers of this
      package, a library decoder, or the rows of one, each led by a tag byte or not. */
  datatype Kind =
    | Raw(bytes: seq<Byte>)
    | Known(size: nat)
    | Hex
    | Runs
    | Library(decoder: Machine)
    | Predicted(decoder: Machine, rowSize: Positive, tagged: bool)

  function Width(kind: Kind): Positive
    requires kind.Predicted?
  {
    if kind.tagged then kind.rowSize + 1 else kind.rowSize
  }

  function Rows(kind: Kind, s: seq<Byte>): seq<Byte>
    requires kind.Predicted?
  {
    RowsOf(s, Width(kind), kind.rowSize)
  }

  /** What a stage's filter makes of its whole input. */
  function Made(kind: Kind, s: seq<Byte>): Output {
    match kind
    case Raw(bytes) => Output(bytes, false)
    case Known(_) => Output([], false)
    case Hex => Output(HexDecoded(s), false)
    case Runs => RunDecoded(s)
    case Library(decoder) => Output(MachineRun(decoder, [], s), false)
    case Predicted(decoder, _, _) => Output(Rows(kind, MachineRun(decoder, [], s)), false)
  }

  /** What a stage's reader can give for its whole input: a hexadecimal reader may run on behind a lone digit. */
  predicate Gives(kind: Kind, s: seq<Byte>, o: Output) {
    match kind
    case Hex => HexDecoded(s) <= o.bytes <= HexAll(s) && !o.faults
    case _ => o == Made(kind, s)
  }

  predicate IsSettled(kind: Kind, s: seq<Byte>) {
    kind.Hex? ==> Clean(s)
  }

  /** A filter makes one thing of its input, whatever the reads, exactly when it does not read hexadecimal text that
      is not clean. */
  lemma SettledIff(kind: Kind, s: seq<Byte>)
    ensures Gives(kind, s, Made(kind, s))
    ensures IsSettled(kind, s) <==> forall o :: Gives(kind, s, o) ==> o == Made(kind, s)
  {
    hide HexDecoded, HexAll, Clean, MachineRun, RunDecoded, Rows;
    DecodedIsFront(s);
    if kind.Hex? && !Clean(s) {
      assert Gives(kind, s, Output(HexAll(s), false));
    }
  }

  /** How one runnable filter can be measured: not at all, or by a reader whose output can or cannot feed the next
      stage. */
  datatype Filter = Unmodelled | Modelled(kind: Kind, feeds: bool)

  datatype Verdict = Within | CeilingExceeded | TruncatedRun

  predicate IsModelled(stages: seq<Filter>) {
    forall k :: 0 <= k < |stages| ==> stages[k].Modelled?
  }

  /** Bytes come out of the last stage only, or are fed to the next. */
  predicate IsChain(stages: seq<Filter>) {
    IsModelled(stages) && forall k :: 0 <= k < |stages| - 1 ==> stages[k].feeds
  }

  /** The stages that are measured: up to the first that cannot be, or through the first that feeds nothing. */
  function Measured(filters: seq<Filter>): (stages: seq<Filter>)
    ensures stages <= filters && IsChain(stages)
  {
    if filters == [] || filters[0].Unmodelled? then []
    else if !filters[0].feeds then [filters[0]]
    else
      var rest := Measured(filters[1..]);
      [filters[0]] + rest
  }

  // The verdict.

  function Produced(kind: Kind, o: Output): nat {
    if kind.Known? then kind.size else |o.bytes|
  }

  predicate Over(f: Filter, o: Output, limit: nat) {
    f.Modelled? && Produced(f.kind, o) > limit
  }

  predicate IsWrong(f: Filter, o: Output, limit: nat) {
    Over(f, o, limit) || o.faults
  }

  /** Stage k is the first with something wrong. */
  ghost predicate FirstWrong(stages: seq<Filter>, outs: seq<Output>, limit: nat, k: int)
    requires |outs| == |stages|
  {
    && 0 <= k < |stages|
    && IsWrong(stages[k], outs[k], limit)
    && forall j :: 0 <= j < k ==> !IsWrong(stages[j], outs[j], limit)
  }

  /** What the verdict on the outputs of the stages must be: the first stage in error decides, and a stage both over
      the ceiling and cut short counts as over. */
  ghost predicate VerdictIs(stages: seq<Filter>, outs: seq<Output>, limit: nat, v: Verdict)
    requires |outs| == |stages|
  {
    && (v == CeilingExceeded <==>
        exists k :: FirstWrong(stages, outs, limit, k) && Over(stages[k], outs[k], limit))
    && (v == TruncatedRun <==>
        exists k :: FirstWrong(stages, outs, limit, k) && !Over(stages[k], outs[k], limit))
  }

  function Judge(stages: seq<Filter>, outs: seq<Output>, limit: nat): Verdict
    requires |outs| == |stages|
  {
    if stages == [] then Within
    else if Over(stages[0], outs[0], limit) then CeilingExceeded
    else if outs[0].faults then TruncatedRun
    else Judge(stages[1..], outs[1..], limit)
  }

  /** Judged one after the other, the outputs get the verdict they must, and no other. */
  lemma {:induction false} JudgeDecides(stages: seq<Filter>, outs: seq<Output>, limit: nat, v: Verdict)
    requires |outs| == |stages|
    ensures VerdictIs(stages, outs, limit, v) <==> v == Judge(stages, outs, limit)
  {
    hide Judge, IsWrong;
    var k := FindWrong(stages, outs, limit);
    if Judge(stages, outs, limit) != Within {
      forall j | FirstWrong(stages, outs, limit, j)
        ensures j == k
      {
      }
    }
  }

  lemma {:induction false} FindWrong(stages: seq<Filter>, outs: seq<Output>, limit: nat) returns (k: nat)
    requires |outs| == |stages|
    ensures var v := Judge(stages, outs, limit);
      if v == Within then forall j :: 0 <= j < |stages| ==> !IsWrong(stages[j], outs[j], limit)
      else FirstWrong(stages, outs, limit, k) && (v == CeilingExceeded <==> Over(stages[k], outs[k], limit))
  {
    k := 0;
    if stages != [] && !IsWrong(stages[0], outs[0], limit) {
      k := FindWrong(stages[1..], outs[1..], limit);
      forall j | 0 < j < |stages|
        ensures IsWrong(stages[j], outs[j], limit) == IsWrong(stages[1..][j - 1], outs[1..][j - 1], limit)
      {
      }
      k := k + 1;
    }
  }

  // The outputs of the stages, with no cap and under one.

  function OutputOf(f: Filter, s: seq<Byte>): Output {
    if f.Modelled? then Made(f.kind, s) else Output([], false)
  }

  /** What the filters make with no cap, each of all that the one before makes. */
  function Ideal(raw: seq<Byte>, stages: seq<Filter>): (outs: seq<Output>)
    ensures |outs| == |stages|
    decreases |stages|
  {
    if stages == [] then []
    else
      var o := OutputOf(stages[0], raw);
      [o] + Ideal(o.bytes, stages[1..])
  }

  /** All that a reader gives, cut at one byte past the limit; whether it stopped inside a run is known if the cut did
      not stop it. */
  predicate IsCut(whole: Output, o: Output, limit: nat) {
    o.bytes == Take(whole.bytes, limit + 1) && (|whole.bytes| <= limit ==> o.faults == whole.faults)
  }

  /** A stage can end with the output o. */
  ghost predicate EndsWith(f: Filter, s: seq<Byte>, o: Output, limit: nat) {
    exists whole ::
      && IsCut(whole, o, limit)
      && if f.Modelled? then Gives(f.kind, s, whole) else whole == Output([], false)
  }

  /** Outputs that the capped stages can end with, each reading all that the one before ended with. */
  ghost predicate IsOutcome(raw: seq<Byte>, stages: seq<Filter>, outs: seq<Output>, limit: nat)
    requires |outs| == |stages|
    decreases |stages|
  {
    stages != [] ==>
      && EndsWith(stages[0], raw, outs[0], limit)
      && IsOutcome(outs[0].bytes, stages[1..], outs[1..], limit)
  }

  function Before(raw: seq<Byte>, outs: seq<Output>, k: nat): seq<Byte>
    requires k <= |outs|
  {
    if k == 0 then raw else outs[k - 1].bytes
  }

  lemma {:induction false} OutcomeOf(raw: seq<Byte>, stages: seq<Filter>, outs: seq<Output>, limit: nat)
    requires |outs| == |stages|
    requires forall k :: 0 <= k < |stages| ==> EndsWith(stages[k], Before(raw, outs, k), outs[k], limit)
    ensures IsOutcome(raw, stages, outs, limit)
    decreases |stages|
  {
    hide EndsWith;
    if stages != [] {
      assert EndsWith(stages[0], Before(raw, outs, 0), outs[0], limit);
      var first, rest, tail := outs[0].bytes, stages[1..], outs[1..];
      forall k | 0 <= k < |rest|
        ensures EndsWith(rest[k], Before(first, tail, k), tail[k], limit)
      {
        assert EndsWith(stages[k + 1], Before(raw, outs, k + 1), outs[k + 1], limit);
      }
      OutcomeOf(first, rest, tail, limit);
    }
  }

  /** The outputs are those of the uncapped filters, up to the first stage in error: a stage over the limit is over. */
  predicate Agrees(stages: seq<Filter>, outs: seq<Output>, ideal: seq<Output>, limit: nat)
    requires |outs| == |ideal| == |stages|
  {
    stages == [] ||
    if Over(stages[0], ideal[0], limit) then Over(stages[0], outs[0], limit)
    else
      && outs[0] == ideal[0]
      && (ideal[0].faults || Agrees(stages[1..], outs[1..], ideal[1..], limit))
  }

  /** Hexadecimal text is clean wherever it is read, up to the first stage in error. */
  predicate AllClean(raw: seq<Byte>, stages: seq<Filter>, limit: nat)
    decreases |stages|
  {
    stages == [] ||
    var o := OutputOf(stages[0], raw);
    || Over(stages[0], o, limit)
    || ((stages[0].Modelled? ==> IsSettled(stages[0].kind, raw))
        && (o.faults || AllClean(o.bytes, stages[1..], limit)))
  }

  /** What one stage can end with. */
  lemma OneStage(f: Filter, s: seq<Byte>, o: Output, limit: nat)
    requires EndsWith(f, s, o, limit)
    ensures var ideal := OutputOf(f, s);
      && (Over(f, ideal, limit) ==> Over(f, o, limit))
      && (!Over(f, ideal, limit) && (f.Modelled? ==> IsSettled(f.kind, s)) ==> o == ideal)
  {
    hide HexDecoded, HexAll, Clean, MachineRun, RunDecoded, Rows;
    DecodedIsFront(s);
  }

  /** An uncapped filter's output is what the capped stage can end with, if it is not over the limit. */
  lemma IdealIsEnd(f: Filter, s: seq<Byte>, limit: nat) returns (o: Output)
    ensures EndsWith(f, s, o, limit)
    ensures !Over(f, OutputOf(f, s), limit) ==> o == OutputOf(f, s)
  {
    hide HexDecoded, HexAll, Clean, MachineRun, RunDecoded, Rows;
    DecodedIsFront(s);
    var whole := OutputOf(f, s);
    o := Output(Take(whole.bytes, limit + 1), whole.faults);
    assert IsCut(whole, o, limit);
  }

  /** A stage that reads text that is not clean can end with more than its filter makes. */
  lemma UncleanEnds(f: Filter, s: seq<Byte>, limit: nat) returns (o: Output)
    requires f.Modelled? && !IsSettled(f.kind, s) && !Over(f, OutputOf(f, s), limit)
    ensures EndsWith(f, s, o, limit) && o != OutputOf(f, s)
  {
    hide HexDecoded, HexAll, Clean;
    DecodedIsFront(s);
    var whole := Output(HexAll(s), false);
    o := Output(Take(whole.bytes, limit + 1), false);
    assert IsCut(whole, o, limit) && Gives(f.kind, s, whole);
  }

  /** The stages can always end somehow. */
  lemma {:induction false} SomeOutcome(raw: seq<Byte>, stages: seq<Filter>, limit: nat) returns (outs: seq<Output>)
    ensures |outs| == |stages| && IsOutcome(raw, stages, outs, limit)
    decreases |stages|
  {
    outs := [];
    if stages != [] {
      var o := IdealIsEnd(stages[0], raw, limit);
      var rest := SomeOutcome(o.bytes, stages[1..], limit);
      outs := [o] + rest;
      assert outs[1..] == rest;
    }
  }

  /** With clean text, whatever the reads, the capped stages end as the uncapped filters do. */
  lemma {:induction false} CleanAgrees(raw: seq<Byte>, stages: seq<Filter>, outs: seq<Output>, limit: nat)
    requires |outs| == |stages| && IsOutcome(raw, stages, outs, limit) && AllClean(raw, stages, limit)
    ensures Agrees(stages, outs, Ideal(raw, stages), limit)
    decreases |stages|
  {
    if stages != [] {
      OneStage(stages[0], raw, outs[0], limit);
      var o := OutputOf(stages[0], raw);
      if !Over(stages[0], o, limit) && !o.faults {
        CleanAgrees(o.bytes, stages[1..], outs[1..], limit);
      }
    }
  }

  /** With text that is not clean, they can end otherwise. */
  lemma {:induction false} UncleanDiffers(raw: seq<Byte>, stages: seq<Filter>, limit: nat) returns (outs: seq<Output>)
    requires !AllClean(raw, stages, limit)
    ensures |outs| == |stages| && IsOutcome(raw, stages, outs, limit)
      && !Agrees(stages, outs, Ideal(raw, stages), limit)
    decreases |stages|
  {
    var f, o := stages[0], OutputOf(stages[0], raw);
    var rest: seq<Output>;
    if f.Modelled? && !IsSettled(f.kind, raw) {
      var end := UncleanEnds(f, raw, limit);
      rest := SomeOutcome(end.bytes, stages[1..], limit);
      outs := [end] + rest;
    } else {
      var end := IdealIsEnd(f, raw, limit);
      rest := UncleanDiffers(o.bytes, stages[1..], limit);
      outs := [end] + rest;
    }
    assert outs[1..] == rest;
  }

  /** The counts are those of the uncapped filters, up to the first stage in error and whatever the reads, exactly
      when all hexadecimal text up to there is clean. */
  lemma CountsAreExactIff(raw: seq<Byte>, stages: seq<Filter>, limit: nat)
    ensures AllClean(raw, stages, limit) <==>
      forall outs :: |outs| == |stages| && IsOutcome(raw, stages, outs, limit) ==>
        Agrees(stages, outs, Ideal(raw, stages), limit)
  {
    hide AllClean, IsOutcome, Agrees, Ideal;
    if AllClean(raw, stages, limit) {
      forall outs | |outs| == |stages| && IsOutcome(raw, stages, outs, limit)
        ensures Agrees(stages, outs, Ideal(raw, stages), limit)
      {
        CleanAgrees(raw, stages, outs, limit);
      }
    } else {
      var outs := UncleanDiffers(raw, stages, limit);
    }
  }

  lemma {:induction false} AgreeingJudges(stages: seq<Filter>, outs: seq<Output>, ideal: seq<Output>, limit: nat)
    requires |outs| == |ideal| == |stages| && Agrees(stages, outs, ideal, limit)
    ensures Judge(stages, outs, limit) == Judge(stages, ideal, limit)
  {
    if stages != [] && !IsWrong(stages[0], ideal[0], limit) {
      AgreeingJudges(stages[1..], outs[1..], ideal[1..], limit);
    }
  }

  /** The verdict on the capped stages is that on the uncapped filters, if all hexadecimal text is clean. */
  lemma VerdictIsExact(raw: seq<Byte>, stages: seq<Filter>, outs: seq<Output>, limit: nat, v: Verdict)
    requires |outs| == |stages| && IsOutcome(raw, stages, outs, limit) && AllClean(raw, stages, limit)
    ensures VerdictIs(stages, outs, limit, v) <==> VerdictIs(stages, Ideal(raw, stages), limit, v)
  {
    hide VerdictIs, IsOutcome, AllClean, Agrees, Judge;
    CleanAgrees(raw, stages, outs, limit);
    AgreeingJudges(stages, outs, Ideal(raw, stages), limit);
    JudgeDecides(stages, outs, limit, v);
    JudgeDecides(stages, Ideal(raw, stages), limit, v);
  }

  /** Whatever the reads, the verdict is v: a hexadecimal reader can end with any number of bytes between what its
      text decodes to and all that reading on gives, but no more than one past the limit. */
  predicate IsSure(raw: seq<Byte>, stages: seq<Filter>, limit: nat, v: Verdict)
    decreases |stages|, 1
  {
    if stages == [] then v == Within
    else if stages[0].Modelled? && stages[0].kind.Hex? then
      forall n :: Min(|HexDecoded(raw)|, limit + 1) <= n <= Min(|HexAll(raw)|, limit + 1) ==>
        IsSureAfter(Output(HexAll(raw)[..n], false), stages, limit, v)
    else
      IsSureAfter(OutputOf(stages[0], raw), stages, limit, v)
  }

  predicate IsSureAfter(o: Output, stages: seq<Filter>, limit: nat, v: Verdict)
    requires stages != []
    decreases |stages|, 0
  {
    if Over(stages[0], o, limit) then v == CeilingExceeded
    else if o.faults then v == TruncatedRun
    else IsSure(o.bytes, stages[1..], limit, v)
  }

  /** One stage of a sure pipeline. */
  lemma SureStage(raw: seq<Byte>, stages: seq<Filter>, o: Output, limit: nat, v: Verdict)
    requires stages != [] && EndsWith(stages[0], raw, o, limit) && IsSure(raw, stages, limit, v)
    ensures IsSureAfter(o, stages, limit, v)
  {
    hide HexDecoded, HexAll, Clean, MachineRun, RunDecoded, Rows;
    var f := stages[0];
    var whole :|
      && IsCut(whole, o, limit)
      && if f.Modelled? then Gives(f.kind, raw, whole) else whole == Output([], false);
    if f.Modelled? && f.kind.Hex? {
      assert HexAll(raw)[..|o.bytes|] == o.bytes;
    }
  }

  lemma {:induction false} SureJudges(raw: seq<Byte>, stages: seq<Filter>, outs: seq<Output>, limit: nat, v: Verdict)
    requires |outs| == |stages| && IsOutcome(raw, stages, outs, limit) && IsSure(raw, stages, limit, v)
    ensures Judge(stages, outs, limit) == v
    decreases |stages|
  {
    hide EndsWith;
    if stages != [] {
      hide IsSure;
      SureStage(raw, stages, outs[0], limit, v);
      if !IsWrong(stages[0], outs[0], limit) {
        SureJudges(outs[0].bytes, stages[1..], outs[1..], limit, v);
      }
    }
  }

  /** What one stage of a pipeline that is not sure can end with. */
  lemma UnsureStage(raw: seq<Byte>, stages: seq<Filter>, limit: nat, v: Verdict) returns (o: Output)
    requires stages != [] && !IsSure(raw, stages, limit, v)
    ensures EndsWith(stages[0], raw, o, limit) && !IsSureAfter(o, stages, limit, v)
  {
    hide HexDecoded, HexAll, Clean, MachineRun, RunDecoded, Rows;
    var f := stages[0];
    DecodedIsFront(raw);
    if f.Modelled? && f.kind.Hex? {
      var n: nat :| Min(|HexDecoded(raw)|, limit + 1) <= n <= Min(|HexAll(raw)|, limit + 1)
        && !IsSureAfter(Output(HexAll(raw)[..n], false), stages, limit, v);
      o := Output(HexAll(raw)[..n], false);
      var whole := if n <= limit then o else Output(HexAll(raw), false);
      assert IsCut(whole, o, limit) && Gives(Hex, raw, whole);
    } else {
      o := IdealIsEnd(f, raw, limit);
      OneStage(f, raw, o, limit);
    }
  }

  lemma {:induction false} UnsureJudges(raw: seq<Byte>, stages: seq<Filter>, limit: nat, v: Verdict)
    returns (outs: seq<Output>)
    requires !IsSure(raw, stages, limit, v)
    ensures |outs| == |stages| && IsOutcome(raw, stages, outs, limit) && Judge(stages, outs, limit) != v
    decreases |stages|
  {
    outs := [];
    if stages != [] {
      var o := UnsureStage(raw, stages, limit, v);
      hide EndsWith, IsSure;
      var rest: seq<Output>;
      if IsWrong(stages[0], o, limit) {
        rest := SomeOutcome(o.bytes, stages[1..], limit);
      } else {
        rest := UnsureJudges(o.bytes, stages[1..], limit, v);
      }
      outs := [o] + rest;
      assert outs[1..] == rest;
    }
  }

  /** The verdict is v whatever the reads exactly when it is sure. */
  lemma VerdictIsSureIff(raw: seq<Byte>, stages: seq<Filter>, limit: nat, v: Verdict)
    ensures IsSure(raw, stages, limit, v) <==>
      forall outs :: |outs| == |stages| && IsOutcome(raw, stages, outs, limit) ==> VerdictIs(stages, outs, limit, v)
  {
    hide IsSure, IsOutcome, VerdictIs, Judge;
    if IsSure(raw, stages, limit, v) {
      forall outs | |outs| == |stages| && IsOutcome(raw, stages, outs, limit)
        ensures VerdictIs(stages, outs, limit, v)
      {
        SureJudges(raw, stages, outs, limit, v);
        JudgeDecides(stages, outs, limit, v);
      }
    } else {
      var outs := UnsureJudges(raw, stages, limit, v);
      JudgeDecides(stages, outs, limit, v);
    }
  }

  /** A hexadecimal stage by itself: the verdict hangs on the reads exactly when the decoded text fits the limit and
      all that reading on gives does not. */
  lemma HexVerdictIff(raw: seq<Byte>, limit: nat)
    ensures var stages := [Modelled(Hex, true)];
      (exists v :: IsSure(raw, stages, limit, v)) <==> |HexDecoded(raw)| > limit || |HexAll(raw)| <= limit
  {
    hide HexDecoded, HexAll, Clean;
    var stages := [Modelled(Hex, true)];
    var low, high := Min(|HexDecoded(raw)|, limit + 1), Min(|HexAll(raw)|, limit + 1);
    DecodedIsFront(raw);
    forall v, n: nat | low <= n <= high
      ensures IsSureAfter(Output(HexAll(raw)[..n], false), stages, limit, v) <==>
        v == if n > limit then CeilingExceeded else Within
    {
    }
    if high <= limit {
      assert IsSure(raw, stages, limit, Within);
    } else if low > limit {
      assert IsSure(raw, stages, limit, CeilingExceeded);
    } else {
      forall v
        ensures !IsSure(raw, stages, limit, v)
      {
        assert !IsSureAfter(Output(HexAll(raw)[..low], false), stages, limit, v)
          || !IsSureAfter(Output(HexAll(raw)[..high], false), stages, limit, v);
      }
    }
  }

  /** The bytes 1 > 2 3 under a limit of one byte: read byte by byte they stay within it, as they should; in one read
      they do not. */
  lemma HexVerdictDepends()
    ensures var stages, one, two := [Modelled(Hex, true)], [Output([16], false)], [Output([16, 35], false)];
      && Ideal(UNCLEAN, stages) == one
      && IsOutcome(UNCLEAN, stages, one, 1) && VerdictIs(stages, one, 1, Within)
      && IsOutcome(UNCLEAN, stages, two, 1) && VerdictIs(stages, two, 1, CeilingExceeded)
  {
    hide HexDecoded, HexAll, Clean;
    HexReadOverruns();
    var stages, one, two := [Modelled(Hex, true)], [Output([16], false)], [Output([16, 35], false)];
    assert Made(Hex, UNCLEAN) == one[0];
    assert IsCut(one[0], one[0], 1) && Gives(Hex, UNCLEAN, one[0]);
    assert IsCut(two[0], two[0], 1) && Gives(Hex, UNCLEAN, two[0]);
    JudgeDecides(stages, one, 1, Within);
    JudgeDecides(stages, two, 1, CeilingExceeded);
  }
}
