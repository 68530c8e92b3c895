/** The readers of the stages, each pulling bytes from the counter of the stage below, and the draining that counts
    them. */
module StageReader {
  import opened FilterReaders
  import opened StageCount

  // What a reader has made of the bytes taken so far, and so of any input that starts with them.  An input that has
  // ended has nothing after them.

  /** Before a hexadecimal byte: the rest is still to come, of the decoded text only if no stop was met. */
  ghost predicate HexGoing(taken: seq<Byte>, made: seq<Byte>, done: bool, ended: bool) {
    forall t: seq<Byte> :: (ended ==> t == []) ==>
      && HexAll(taken + t) == made + HexAll(t)
      && if done then HexDecoded(taken + t) <= made else HexDecoded(taken + t) == made + HexDecoded(t)
  }

  /** Between reads: after a stop, at least the decoded text was made, and no more than all there is. */
  ghost predicate HexState(taken: seq<Byte>, made: seq<Byte>, done: bool, ended: bool) {
    if done then forall t: seq<Byte> :: (ended ==> t == []) ==> HexDecoded(taken + t) <= made <= HexAll(taken + t)
    else HexGoing(taken, made, false, ended)
  }

  /** The bytes w hold the digit d, or a stop. */
  ghost predicate IsDigitRead(w: seq<Byte>, d: Option<Digit>, ended: bool) {
    forall t: seq<Byte> :: (ended ==> t == []) ==> NextDigit(w + t) == (d, t)
  }

  /** The bytes w are white space. */
  ghost predicate IsSkipped(w: seq<Byte>) {
    forall t: seq<Byte> :: NextDigit(w + t) == NextDigit(t)
  }

  lemma NothingSkipped()
    ensures IsSkipped([])
  {
    assert forall t: seq<Byte> :: [] + t == t;
  }

  lemma DigitNext(w: seq<Byte>, c: Byte)
    requires IsSkipped(w)
    ensures if IsHexSpace(c) then IsSkipped(w + [c])
      else IsDigitRead(w + [c], if HexValue(c) < 0 then None else Some(HexValue(c)), false)
  {
    forall t: seq<Byte>
      ensures NextDigit((w + [c]) + t) == NextDigit([c] + t) && ([c] + t)[1..] == t
    {
      assert (w + [c]) + t == w + ([c] + t);
    }
  }

  lemma NoneNext(w: seq<Byte>)
    requires IsSkipped(w)
    ensures IsDigitRead(w, None, true)
  {
    assert NextDigit(w + []) == NextDigit([]);
  }

  lemma HexStop(taken: seq<Byte>, made: seq<Byte>, done: bool, w: seq<Byte>, before: bool, ended: bool)
    requires HexGoing(taken, made, done, before) && IsDigitRead(w, None, ended)
    requires before ==> ended && w == []
    ensures HexState(taken + w, made, true, ended)
  {
    hide HexDecoded, HexAll, NextDigit;
    forall t: seq<Byte> | ended ==> t == []
      ensures HexDecoded((taken + w) + t) <= made <= HexAll((taken + w) + t)
    {
      assert (taken + w) + t == taken + (w + t);
      NoPair(w + t);
      assert made + [] == made;
    }
  }

  lemma HexGoes(taken: seq<Byte>, made: seq<Byte>, done: bool, ended: bool)
    requires HexState(taken, made, done, ended) && !done && !ended
    ensures HexGoing(taken, made, done, ended)
  {
  }

  lemma HexRests(taken: seq<Byte>, made: seq<Byte>, done: bool, ended: bool)
    requires HexGoing(taken, made, done, ended)
    ensures HexState(taken, made, done, ended)
  {
  }

  lemma NoPair(s: seq<Byte>)
    requires NextDigit(s).0.None?
    ensures HexAll(s) == [] && HexDecoded(s) == []
  {
  }

  lemma HexPair(taken: seq<Byte>, made: seq<Byte>, done: bool, hi: seq<Byte>, d: Digit, lo: seq<Byte>,
                e: Option<Digit>, ended: bool)
    requires HexGoing(taken, made, done, false) && IsDigitRead(hi, Some(d), false) && IsDigitRead(lo, e, ended)
    ensures HexGoing(taken + hi + lo, made + [ByteOf(d, if e.Some? then e.value else 0)], done || e.None?, ended)
  {
    hide HexDecoded, HexAll, NextDigit;
    var b := ByteOf(d, if e.Some? then e.value else 0);
    forall t: seq<Byte> | ended ==> t == []
      ensures HexAll((taken + hi + lo) + t) == (made + [b]) + HexAll(t)
      ensures if done || e.None? then HexDecoded((taken + hi + lo) + t) <= made + [b]
        else HexDecoded((taken + hi + lo) + t) == (made + [b]) + HexDecoded(t)
    {
      var s := hi + (lo + t);
      assert (taken + hi + lo) + t == taken + s;
      OnePair(s);
      assert made + ([b] + HexAll(t)) == (made + [b]) + HexAll(t);
      assert made + ([b] + HexDecoded(t)) == (made + [b]) + HexDecoded(t);
    }
  }

  /** The bytes w are what a read of up to size bytes takes, for the bytes given so far and with left to go. */
  ghost predicate IsHexRead(w: seq<Byte>, size: nat, bytes: seq<Byte>, left: nat, done: bool, ended: bool) {
    forall t: seq<Byte> :: (ended ==> t == []) ==>
      var r := HexRead(t, left);
      HexRead(w + t, size) == (bytes + r.0, r.1, done || r.2)
  }

  lemma HexReadStarts(size: nat)
    ensures IsHexRead([], size, [], size, false, false)
  {
    hide HexRead;
    forall t: seq<Byte>
      ensures var r := HexRead(t, size);
        HexRead([] + t, size) == ([] + r.0, r.1, r.2)
    {
      assert [] + t == t && [] + HexRead(t, size).0 == HexRead(t, size).0;
    }
  }

  lemma HexReadPair(w: seq<Byte>, size: nat, bytes: seq<Byte>, left: nat, done: bool, hi: seq<Byte>, d: Digit,
                    lo: seq<Byte>, e: Option<Digit>, ended: bool)
    requires IsHexRead(w, size, bytes, left, done, false) && left > 0
    requires IsDigitRead(hi, Some(d), false) && IsDigitRead(lo, e, ended)
    ensures IsHexRead(w + hi + lo, size, bytes + [ByteOf(d, if e.Some? then e.value else 0)], left - 1,
              done || e.None?, ended)
  {
    hide HexRead, NextDigit;
    var b := ByteOf(d, if e.Some? then e.value else 0);
    forall t: seq<Byte> | ended ==> t == []
      ensures var r := HexRead(t, left - 1);
        HexRead((w + hi + lo) + t, size) == ((bytes + [b]) + r.0, r.1, (done || e.None?) || r.2)
    {
      var s := hi + (lo + t);
      assert (w + hi + lo) + t == w + s;
      HexReadStep(s, left);
      Regroup(bytes, [b], HexRead(t, left - 1).0);
    }
  }

  lemma HexReadStops(w: seq<Byte>, size: nat, bytes: seq<Byte>, left: nat, done: bool, u: seq<Byte>, before: bool,
                     ended: bool)
    requires IsHexRead(w, size, bytes, left, done, before) && left > 0 && IsDigitRead(u, None, ended)
    requires before ==> ended && u == []
    ensures IsHexRead(w + u, size, bytes, 0, true, ended)
  {
    hide HexRead, NextDigit;
    forall t: seq<Byte> | ended ==> t == []
      ensures var r := HexRead(t, 0);
        HexRead((w + u) + t, size) == (bytes + r.0, r.1, true || r.2)
    {
      assert (w + u) + t == w + (u + t);
      HexReadStep(u + t, left);
      HexReadStep(t, 0);
    }
  }

  lemma OnePair(s: seq<Byte>)
    requires NextDigit(s).0.Some?
    ensures var (d, rest) := NextDigit(s);
      var (e, rest2) := NextDigit(rest);
      var b := ByteOf(d.value, if e.Some? then e.value else 0);
      && HexAll(s) == [b] + HexAll(rest2)
      && HexDecoded(s) == if e.Some? then [b] + HexDecoded(rest2) else [b]
  {
    hide HexDecoded;
    assert s != [];
    TwoDigits(s);
  }

  ghost predicate RunState(taken: seq<Byte>, made: seq<Byte>, done: bool, truncated: bool, ended: bool) {
    forall t: seq<Byte> :: (ended ==> t == []) ==>
      RunDecoded(taken + t) ==
      if done then Output(made, truncated) else Output(made + RunDecoded(t).bytes, RunDecoded(t).faults)
  }

  /** The bytes w are read as the bytes more, and as all there is if the last holds. */
  ghost predicate IsRunRead(w: seq<Byte>, more: seq<Byte>, last: bool, truncated: bool, ended: bool) {
    forall t: seq<Byte> :: (ended ==> t == []) ==>
      RunDecoded(w + t) ==
      if last then Output(more, truncated) else Output(more + RunDecoded(t).bytes, RunDecoded(t).faults)
  }

  lemma RunStep(taken: seq<Byte>, made: seq<Byte>, w: seq<Byte>, more: seq<Byte>, last: bool, truncated: bool,
                ended: bool)
    requires RunState(taken, made, false, false, false) && IsRunRead(w, more, last, truncated, ended)
    ensures RunState(taken + w, made + more, last, truncated, ended)
  {
    hide RunDecoded;
    forall t: seq<Byte> | ended ==> t == []
      ensures RunDecoded((taken + w) + t) ==
        if last then Output(made + more, truncated)
        else Output((made + more) + RunDecoded(t).bytes, RunDecoded(t).faults)
    {
      assert (taken + w) + t == taken + (w + t);
      assert made + (more + RunDecoded(t).bytes) == (made + more) + RunDecoded(t).bytes;
    }
  }

  /** The kinds of run, whole or cut short by the end of the input. */
  lemma RunRead(c: Byte, w: seq<Byte>, ended: bool)
    requires c != END_OF_RUNS
    requires if c < END_OF_RUNS then (if ended then |w| <= c else |w| == c + 1)
      else (if ended then w == [] else |w| == 1)
    ensures
      var more := if c < END_OF_RUNS then w else if ended then [] else Repeated(w[0], 257 - c);
      IsRunRead([c] + w, more, ended, ended, ended)
  {
    var more := if c < END_OF_RUNS then w else if ended then [] else Repeated(w[0], 257 - c);
    forall t: seq<Byte> | ended ==> t == []
      ensures RunDecoded(([c] + w) + t) ==
        if ended then Output(more, true) else Output(more + RunDecoded(t).bytes, RunDecoded(t).faults)
    {
      var s := ([c] + w) + t;
      assert s[0] == c && s[1..] == w + t;
      if !ended && c < END_OF_RUNS {
        assert s[1..c + 2] == w && s[c + 2..] == t;
      } else if !ended {
        assert s[1] == w[0] && s[2..] == t;
      } else {
        assert w + t == w;
      }
    }
  }

  lemma RunEnd(w: seq<Byte>, ended: bool)
    requires if ended then w == [] else w == [END_OF_RUNS]
    ensures IsRunRead(w, [], true, false, ended)
  {
    forall t: seq<Byte> | ended ==> t == []
      ensures RunDecoded(w + t) == Output([], false)
    {
    }
  }

  ghost predicate MachineState(m: Machine, taken: seq<Byte>, flat: seq<Byte>, spent: bool, ended: bool) {
    forall t: seq<Byte> :: (ended ==> t == []) ==>
      MachineRun(m, [], taken + t) == flat + if spent then [] else MachineRun(m, taken, t)
  }

  lemma MachineStops(m: Machine, taken: seq<Byte>, flat: seq<Byte>)
    requires MachineState(m, taken, flat, false, false) && m.stops(taken)
    ensures MachineState(m, taken, flat, true, false)
  {
    forall t: seq<Byte>
      ensures MachineRun(m, [], taken + t) == flat + []
    {
      assert MachineRun(m, taken, t) == [];
    }
  }

  lemma MachineFlushes(m: Machine, taken: seq<Byte>, flat: seq<Byte>)
    requires MachineState(m, taken, flat, false, false) && !m.stops(taken)
    ensures MachineState(m, taken, flat + m.flush(taken), true, true)
  {
    assert MachineRun(m, [], taken + []) == flat + MachineRun(m, taken, []);
    assert (flat + m.flush(taken)) + [] == flat + m.flush(taken);
  }

  lemma MachineTakes(m: Machine, taken: seq<Byte>, flat: seq<Byte>, b: Byte)
    requires MachineState(m, taken, flat, false, false) && !m.stops(taken)
    ensures MachineState(m, taken + [b], flat + m.emit(taken, b), false, false)
  {
    hide MachineRun;
    forall t: seq<Byte>
      ensures MachineRun(m, [], (taken + [b]) + t) == (flat + m.emit(taken, b)) + MachineRun(m, taken + [b], t)
    {
      var s := [b] + t;
      assert (taken + [b]) + t == taken + s;
      MachineNext(m, taken, b, t);
      assert flat + (m.emit(taken, b) + MachineRun(m, taken + [b], t)) ==
        (flat + m.emit(taken, b)) + MachineRun(m, taken + [b], t);
    }
  }

  lemma MachineNext(m: Machine, taken: seq<Byte>, b: Byte, t: seq<Byte>)
    requires !m.stops(taken)
    ensures MachineRun(m, taken, [b] + t) == m.emit(taken, b) + MachineRun(m, taken + [b], t)
  {
    assert ([b] + t)[1..] == t;
  }

  /** The rows made of what the decoder gave so far, with inner not yet made into rows. */
  ghost predicate RowState(kind: Kind, flat: seq<Byte>, inner: seq<Byte>, made: seq<Byte>, done: bool)
    requires kind.Predicted?
  {
    if done then Rows(kind, flat) == made
    else forall u: seq<Byte> :: Rows(kind, flat + u) == made + Rows(kind, inner + u)
  }

  lemma RowGrows(kind: Kind, flat: seq<Byte>, inner: seq<Byte>, made: seq<Byte>, more: seq<Byte>)
    requires kind.Predicted? && RowState(kind, flat, inner, made, false)
    ensures RowState(kind, flat + more, inner + more, made, false)
  {
    hide Rows;
    forall u: seq<Byte>
      ensures Rows(kind, (flat + more) + u) == made + Rows(kind, (inner + more) + u)
    {
      assert (flat + more) + u == flat + (more + u) && (inner + more) + u == inner + (more + u);
    }
  }

  lemma RowTaken(kind: Kind, flat: seq<Byte>, inner: seq<Byte>, made: seq<Byte>)
    requires kind.Predicted? && |inner| >= Width(kind) && RowState(kind, flat, inner, made, false)
    ensures RowState(kind, flat, inner[Width(kind)..], made + inner[..kind.rowSize], false)
  {
    hide Rows;
    var w := Width(kind);
    forall u: seq<Byte>
      ensures Rows(kind, flat + u) == (made + inner[..kind.rowSize]) + Rows(kind, inner[w..] + u)
    {
      FirstRow(kind, inner, u);
      assert made + (inner[..kind.rowSize] + Rows(kind, inner[w..] + u)) ==
        (made + inner[..kind.rowSize]) + Rows(kind, inner[w..] + u);
    }
  }

  lemma FirstRow(kind: Kind, inner: seq<Byte>, u: seq<Byte>)
    requires kind.Predicted? && |inner| >= Width(kind)
    ensures Rows(kind, inner + u) == inner[..kind.rowSize] + Rows(kind, inner[Width(kind)..] + u)
  {
    var s, w := inner + u, Width(kind);
    assert s[..kind.rowSize] == inner[..kind.rowSize] && s[w..] == inner[w..] + u;
  }

  lemma RowsEnd(kind: Kind, flat: seq<Byte>, inner: seq<Byte>, made: seq<Byte>)
    requires kind.Predicted? && |inner| < Width(kind) && RowState(kind, flat, inner, made, false)
    ensures RowState(kind, flat, inner, made, true)
  {
    assert flat + [] == flat && inner + [] == inner;
    assert Rows(kind, flat + []) == made + Rows(kind, inner + []);
    assert Rows(kind, inner) == [];
    assert made + [] == made;
  }

  /** The reader of one stage and its counter. */
  class Stage {
    const kind: Kind
    const below: Stage?         // the counter it reads from; the raw bytes are at the bottom
    const limit: nat
    ghost const level: nat
    var n: nat                  // the count
    var left: nat               // how many more bytes the cap lets through: at first, one more than the limit
    var buf: seq<Byte>          // bytes read from below and not yet taken
    var taken: seq<Byte>        // bytes taken, which tell a library decoder what to do next
    var inner: seq<Byte>        // what the decoder gave and no row was made of yet
    var spent: bool             // the decoder gives no more
    var pending: seq<Byte>      // bytes made and not yet handed on
    var done: bool
    var truncated: bool
    ghost var flat: seq<Byte>   // all the decoder gave
    ghost var made: seq<Byte>   // all bytes made
    ghost var given: seq<Byte>  // all bytes handed on
    ghost var ended: bool       // the end of the stage below was met

    ghost predicate Linked()
      decreases level
    {
      below != null ==> below.level < level && below.Linked()
    }

    /** The stage and all below it. */
    ghost function Chain(): (r: set<Stage>)
      requires Linked()
      ensures r == {this} + Lower() && forall s :: s in r ==> s.level <= level
      decreases level, 1
    {
      {this} + Lower()
    }

    ghost function Lower(): (r: set<Stage>)
      requires Linked()
      ensures this !in r && forall s :: s in r ==> s.level < level
      decreases level, 0
    {
      if below == null then {} else below.Chain()
    }

    /** What was made is what was handed on and what waits, within the cap and counted. */
    ghost predicate Counted()
      reads `pending, `left, `n, `made, `given
    {
      && given + pending == made
      && left + |given| == limit + 1
      && n == |given| + (if kind.Known? then Min(kind.size, limit + 1) else 0)
    }

    /** What the fields say of the input. */
    ghost predicate Decoded()
      reads `taken, `inner, `spent, `done, `truncated, `flat, `made, `ended
    {
      && (truncated ==> kind.Runs?)
      && (!done && (kind.Predicted? ==> !spent) ==> !ended)
      && match kind
         case Raw(bytes) => done && made == bytes
         case Known(_) => done && made == []
         case Hex => HexState(taken, made, done, ended)
         case Runs => RunState(taken, made, done, truncated, ended) && (!done ==> !truncated)
         case Library(m) => inner == [] && spent == done && made == flat && MachineState(m, taken, flat, spent, ended)
         case Predicted(m, _, _) =>
           && MachineState(m, taken, flat, spent, ended)
           && RowState(kind, flat, inner, made, done)
           && (done ==> spent)
    }

    ghost predicate State()
      reads this
    {
      Counted() && Decoded()
    }

    /** All bytes of the stage below so far were taken or wait in the buffer, and all stages below are ready. */
    ghost predicate Fed()
      requires Linked()
      reads `taken, `buf, `ended, Lower()
      decreases level, 0
    {
      && (below == null ==> taken == buf == [])
      && (below != null ==> taken + buf == below.given && below.Ready())
      && (ended ==> buf == [] && (below != null ==> below.Finished()))
    }

    ghost predicate Ready()
      requires Linked()
      reads Chain()
      decreases level, 1
    {
      State() && Fed()
    }

    /** Nothing more is handed on. */
    predicate Finished()
      reads this
    {
      left == 0 || (done && pending == [])
    }

    /** How many bytes it can still take. */
    ghost function Left(): nat
      reads `buf, below
    {
      |buf| + if below == null then 0 else below.left
    }

    constructor (kind: Kind, below: Stage?, limit: nat)
      requires below == null ==> kind.Raw?
      requires below != null ==> below.Linked() && below.Ready() && below.given == []
      ensures this.kind == kind && this.below == below && this.limit == limit
      ensures Linked() && Ready() && given == [] && fresh(this)
      ensures level == if below == null then 0 else below.level + 1
      ensures Chain() == {this} + if below == null then {} else below.Chain()
    {
      hide HexState, RunState, MachineState, RowState;
      this.kind, this.below, this.limit := kind, below, limit;
      level := if below == null then 0 else below.level + 1;
      n := if kind.Known? then Min(kind.size, limit + 1) else 0;
      left, buf, taken, inner, truncated := limit + 1, [], [], [], false;
      pending := if kind.Raw? then kind.bytes else [];
      done := kind.Raw? || kind.Known?;
      spent, flat, given, ended := false, [], [], false;
      made := if kind.Raw? then kind.bytes else [];
      new;
      AtStart(kind);
      assert below != null ==> this !in below.Chain();
    }

    /** The next byte, if there is one. */
    method ReadByte() returns (b: Byte, ok: bool)
      requires Linked() && Fed()
      modifies Chain()
      ensures Fed()
      ensures (n, left, inner, spent, pending) == old((n, left, inner, spent, pending))
      ensures (done, truncated, flat, made, given) == old((done, truncated, flat, made, given))
      ensures ok ==> taken == old(taken) + [b] && !ended && !old(ended) && Left() < old(Left())
      ensures !ok ==> taken == old(taken) && ended && Left() <= old(Left())
      decreases level, 0
    {
      hide State;
      b, ok := 0, true;
      if buf == [] {
        if below == null {
          ended := true;
          return 0, false;
        }
        var size: nat :| size > 0;
        var more := below.Read(size);
        buf := more;
        if more == [] {
          ended := true;
          return 0, false;
        }
      }
      b := buf[0];
      taken, buf := taken + [b], buf[1..];
    }

    /** The next digit, or none at a stop; the bytes taken for it. */
    method NextHexDigit() returns (v: Digit, ok: bool, ghost w: seq<Byte>)
      requires Linked() && Fed()
      modifies Chain()
      ensures Fed() && taken == old(taken) + w
      ensures (n, left, inner, spent, pending) == old((n, left, inner, spent, pending))
      ensures (truncated, flat, made, given) == old((truncated, flat, made, given))
      ensures IsDigitRead(w, if ok then Some(v) else None, ended)
      ensures done == (old(done) || !ok) && (ok ==> !ended && !old(ended))
      ensures old(ended) ==> w == [] && ended
      decreases level, 1
    {
      hide State, IsSkipped, IsDigitRead;
      w := [];
      NothingSkipped();
      while true
        invariant Fed() && taken == old(taken) + w
        invariant (n, left, inner, spent, pending) == old((n, left, inner, spent, pending))
        invariant (done, truncated, flat, made, given) == old((done, truncated, flat, made, given))
        invariant IsSkipped(w)
        invariant ended == old(ended) && (ended ==> w == [])
        decreases Left()
      {
        var c, some := ReadByte();
        if !some {
          NoneNext(w);
          done := true;
          return 0, false, w;
        }
        DigitNext(w, c);
        w := w + [c];
        if IsHexSpace(c) {
          continue;
        }
        if HexValue(c) < 0 {
          done := true;
          return 0, false, w;
        }
        return HexValue(c), true, w;
      }
    }

    /** Up to size bytes of hexadecimal text; a stop after a lone digit does not end the read. */
    method FillHex(size: nat) returns (ghost w: seq<Byte>)
      requires Linked() && Fed() && !done && pending == [] && size > 0
      requires HexState(taken, made, done, ended) && !ended
      modifies Chain()
      ensures Fed() && HexState(taken, made, done, ended) && (!done ==> !ended)
      ensures (n, left, truncated, given) == old((n, left, truncated, given))
      ensures made == old(made) + pending && |pending| <= size && (done || pending != [])
      ensures taken == old(taken) + w && IsHexRead(w, size, pending, 0, done, ended)
      decreases level, 2
    {
      hide HexState, IsDigitRead, HexGoing, IsHexRead, State, Fed, ByteOf;
      w := [];
      HexGoes(taken, made, done, ended);
      HexReadStarts(size);
      while |pending| < size
        invariant Fed() && HexGoing(taken, made, done, ended) && (!done ==> !ended)
        invariant (n, left, truncated, given) == old((n, left, truncated, given))
        invariant made == old(made) + pending && |pending| <= size
        invariant taken == old(taken) + w && IsHexRead(w, size, pending, size - |pending|, done, ended)
        decreases size - |pending|
      {
        ghost var from, was, before := taken, done, ended;
        var hi, ok, h := NextHexDigit();
        if !ok {
          HexStop(from, made, was, h, before, ended);
          HexReadStops(w, size, pending, size - |pending|, was, h, before, ended);
          Regroup(old(taken), w, h);
          w := w + h;
          return;
        }
        var lo, second, u := NextHexDigit();
        if !second {
          lo := 0;
        }
        ghost var next := if second then Some(lo) else None;
        HexPair(from, made, was, h, hi, u, next, ended);
        HexReadPair(w, size, pending, size - |pending|, was, h, hi, u, next, ended);
        Regroup(old(taken), w, h);
        Regroup(old(taken), w + h, u);
        Regroup(old(made), pending, [ByteOf(hi, lo)]);
        w := w + h + u;
        pending := pending + [ByteOf(hi, lo)];
        made := made + [ByteOf(hi, lo)];
      }
      HexRests(taken, made, done, ended);
    }

    /** The next size bytes, or as many as there are. */
    method ReadFull(size: nat) returns (bytes: seq<Byte>)
      requires Linked() && Fed()
      modifies Chain()
      ensures Fed() && taken == old(taken) + bytes
      ensures (n, left, inner, spent, pending) == old((n, left, inner, spent, pending))
      ensures (done, truncated, flat, made, given) == old((done, truncated, flat, made, given))
      ensures |bytes| <= size && (if |bytes| < size then ended else ended == old(ended))
      ensures Left() <= old(Left())
      decreases level, 1
    {
      bytes := [];
      while |bytes| < size
        invariant Fed() && taken == old(taken) + bytes
        invariant (n, left, inner, spent, pending) == old((n, left, inner, spent, pending))
        invariant (done, truncated, flat, made, given) == old((done, truncated, flat, made, given))
        invariant |bytes| <= size && ended == old(ended) && Left() <= old(Left())
        decreases size - |bytes|
      {
        var b, ok := ReadByte();
        if !ok {
          return;
        }
        bytes := bytes + [b];
      }
    }

    /** Decodes the next run. */
    method FillRun()
      requires Linked() && Fed() && !done && !truncated && pending == []
      requires RunState(taken, made, done, truncated, ended) && !ended
      modifies Chain()
      ensures Fed() && RunState(taken, made, done, truncated, ended) && (!done ==> !ended && !truncated)
      ensures (n, left, given) == old((n, left, given)) && made == old(made) + pending
      ensures Left() <= old(Left()) && (done || Left() < old(Left()))
      decreases level, 2
    {
      hide RunState, IsRunRead, State, RunDecoded;
      ghost var from := taken;
      var c, ok := ReadByte();
      if !ok || c == END_OF_RUNS {
        RunEnd(if ok then [c] else [], ended);
        RunStep(from, made, if ok then [c] else [], [], true, false, ended);
        done := true;
        assert made + [] == made && (ok ==> from + [c] == taken) && (!ok ==> from + [] == taken);
        return;
      }
      if c < END_OF_RUNS {
        var run := ReadFull(c + 1);
        RunRead(c, run, ended);
        RunStep(from, made, [c] + run, run, ended, ended, ended);
        if |run| < c + 1 {
          done, truncated := true, true;
        }
        assert from + ([c] + run) == taken;
        pending, made := run, made + run;
        return;
      }
      var v, some := ReadByte();
      RunRead(c, if some then [v] else [], ended);
      if !some {
        RunStep(from, made, [c] + [], [], true, true, true);
        done, truncated := true, true;
        assert made + [] == made && from + ([c] + []) == taken;
        return;
      }
      RunStep(from, made, [c] + [v], Repeated(v, 257 - c), false, false, false);
      assert from + ([c] + [v]) == taken;
      pending, made := Repeated(v, 257 - c), made + Repeated(v, 257 - c);
    }

    /** Lets the decoder give some more, or give all it has left. */
    method Step() returns (more: seq<Byte>)
      requires Linked() && Fed() && (kind.Library? || kind.Predicted?) && !spent && !ended
      requires MachineState(kind.decoder, taken, flat, spent, ended)
      modifies Chain()
      ensures Fed() && MachineState(kind.decoder, taken, flat, spent, ended) && (!spent ==> !ended)
      ensures flat == old(flat) + more
      ensures (n, left, inner, pending) == old((n, left, inner, pending))
      ensures (done, truncated, made, given) == old((done, truncated, made, given))
      ensures Left() <= old(Left()) && (spent || Left() < old(Left()))
      decreases level, 1
    {
      hide MachineState, MachineRun, State;
      var m := kind.decoder;
      if m.stops(taken) {
        MachineStops(m, taken, flat);
        spent, more := true, [];
        assert flat + more == flat;
        return;
      }
      ghost var from := taken;
      var b, ok := ReadByte();
      if ok {
        MachineTakes(m, from, flat, b);
        more := m.emit(taken[..|taken| - 1], b);
        assert taken[..|taken| - 1] == from;
      } else {
        MachineFlushes(m, from, flat);
        spent, more := true, m.flush(taken);
      }
      flat := flat + more;
    }

    method FillLibrary()
      requires Linked() && Fed() && kind.Library? && !spent && !ended
      requires MachineState(kind.decoder, taken, flat, spent, ended)
      modifies Chain()
      ensures Fed() && MachineState(kind.decoder, taken, flat, spent, ended) && spent == done && (!done ==> !ended)
      ensures flat == old(flat) + pending && made == old(made) + pending
      ensures (n, left, inner, truncated, given) == old((n, left, inner, truncated, given))
      ensures Left() <= old(Left()) && (done || Left() < old(Left()))
      decreases level, 2
    {
      hide MachineState, State;
      var more := Step();
      pending, made, done := more, made + more, spent;
    }

    /** Takes the next row, if it is whole. */
    method FillRow()
      requires Linked() && Fed() && kind.Predicted? && !done && pending == [] && (!spent ==> !ended)
      requires MachineState(kind.decoder, taken, flat, spent, ended) && RowState(kind, flat, inner, made, done)
      modifies Chain()
      ensures Fed() && MachineState(kind.decoder, taken, flat, spent, ended) && RowState(kind, flat, inner, made, done)
      ensures (done ==> spent) && (!spent ==> !ended)
      ensures (n, left, truncated, given) == old((n, left, truncated, given)) && made == old(made) + pending
      ensures Left() <= old(Left()) && (done || pending != [])
      decreases level, 2
    {
      hide MachineState, RowState, State, MachineRun;
      while |inner| < Width(kind) && !spent
        invariant Fed() && !done && (!spent ==> !ended) && Left() <= old(Left())
        invariant MachineState(kind.decoder, taken, flat, spent, ended) && RowState(kind, flat, inner, made, done)
        invariant (n, left, truncated, given) == old((n, left, truncated, given))
        invariant (pending, made) == old((pending, made))
        decreases Left(), !spent
      {
        ghost var was := flat;
        var more := Step();
        RowGrows(kind, was, inner, made, more);
        inner := inner + more;
      }
      if |inner| < Width(kind) {
        RowsEnd(kind, flat, inner, made);
        done := true;
        assert made + [] == made;
        return;
      }
      RowTaken(kind, flat, inner, made);
      pending := inner[..kind.rowSize];
      made := made + pending;
      inner := inner[Width(kind)..];
    }

    /** Makes some more bytes, or finds that there are none.  Only hexadecimal text is read as far as was asked. */
    method Fill(size: nat)
      requires Linked() && Ready() && !done && pending == [] && size > 0
      modifies Chain()
      ensures Ready() && (n, left, given) == old((n, left, given))
      ensures done || pending != [] || Left() < old(Left())
      decreases level, 3
    {
      hide HexState, RunState, MachineState, RowState;
      match kind
      case Hex => var _ := FillHex(size);
      case Runs => FillRun();
      case Library(_) => FillLibrary();
      case Predicted(_, _, _) => FillRow();
    }

    /** Makes bytes until there are some to hand on, or no more. */
    method Refill(size: nat)
      requires Linked() && Ready() && size > 0
      modifies Chain()
      ensures Ready() && (n, left, given) == old((n, left, given)) && (pending != [] || done)
      ensures old(done && pending == []) ==> pending == []
      decreases level, 4
    {
      hide State, Fed;
      while pending == [] && !done
        invariant Ready() && (n, left, given) == old((n, left, given))
        invariant old(done && pending == []) ==> done && pending == []
        decreases !done, pending == [], Left()
      {
        Fill(size);
      }
    }

    /** Reads up to size bytes, within the cap; none only when nothing more is handed on. */
    method Read(size: nat) returns (got: seq<Byte>)
      requires Linked() && Ready() && size > 0
      modifies Chain()
      ensures Ready() && |got| <= size
      ensures given == old(given) + got && n == old(n) + |got| && left == old(left) - |got|
      ensures got == [] ==> Finished()
      ensures old(Finished()) ==> got == []
      decreases level, 5
    {
      hide Fed, Decoded, Linked, Chain, Lower;
      var most := Min(size, left);
      if most == 0 {
        return [];
      }
      Refill(most);
      var k := Min(most, |pending|);
      Splits(given, pending, k);
      got, pending := pending[..k], pending[k..];
      given := given + got;
      n, left := n + |got|, left - |got|;
    }

    /** Reads to the end, in pieces of any size. */
    method Drain()
      requires Linked() && Ready()
      modifies Chain()
      ensures Ready() && Finished() && old(given) <= given && (old(Finished()) ==> given == old(given))
    {
      while true
        invariant Ready() && old(given) <= given && (old(Finished()) ==> given == old(given) && Finished())
        decreases left
      {
        var size: nat :| size > 0;
        var got := Read(size);
        if got == [] {
          break;
        }
      }
    }
  }

  lemma Splits(a: seq<Byte>, b: seq<Byte>, k: nat)
    requires k <= |b|
    ensures (a + b[..k]) + b[k..] == a + b
  {
  }

  lemma AtStart(kind: Kind)
    ensures HexState([], [], false, false) && RunState([], [], false, false, false)
    ensures kind.Library? || kind.Predicted? ==> MachineState(kind.decoder, [], [], false, false)
    ensures kind.Predicted? ==> RowState(kind, [], [], [], false)
  {
    hide HexDecoded, HexAll, RunDecoded, MachineRun, Rows;
    forall t: seq<Byte>
      ensures HexAll([] + t) == [] + HexAll(t) && HexDecoded([] + t) == [] + HexDecoded(t)
      ensures RunDecoded([] + t) == Output([] + RunDecoded(t).bytes, RunDecoded(t).faults)
    {
      assert [] + t == t;
    }
    if kind.Library? || kind.Predicted? {
      forall t: seq<Byte>
        ensures MachineRun(kind.decoder, [], [] + t) == [] + MachineRun(kind.decoder, [], t)
      {
        assert [] + t == t;
      }
    }
    if kind.Predicted? {
      forall t: seq<Byte>
        ensures Rows(kind, [] + t) == [] + Rows(kind, [] + t)
      {
      }
    }
  }

  /** All that a reader gives for an input that starts with the bytes it took: what it made is the front of it, and
      all of it if the reader is done. */
  lemma Whole(c: Stage, t: seq<Byte>) returns (whole: Output)
    requires c.State() && (c.ended ==> t == [])
    ensures Gives(c.kind, c.taken + t, whole)
    ensures c.made <= whole.bytes && (c.done ==> whole == Output(c.made, c.truncated))
  {
    hide HexDecoded, HexAll, RunDecoded, MachineRun, Rows;
    DecodedIsFront(c.taken + t);
    whole := if c.kind.Hex? && c.done then Output(c.made, false) else Made(c.kind, c.taken + t);
    if c.kind.Predicted? {
      var more := MachineRun(c.kind.decoder, c.taken, t);
      assert c.flat + [] == c.flat;
      if !c.spent {
        assert Rows(c.kind, c.flat + more) == c.made + Rows(c.kind, c.inner + more);
      } else if !c.done {
        assert Rows(c.kind, c.flat + []) == c.made + Rows(c.kind, c.inner + []);
      }
    } else if c.kind.Library? && c.done {
      assert c.flat + [] == c.flat;
    }
  }

  /** A stage that hands on no more has ended as it can. */
  lemma EndsSo(c: Stage, f: Filter, t: seq<Byte>)
    requires c.State() && c.Finished() && (c.ended ==> t == []) && f.Modelled? && f.kind == c.kind
    ensures EndsWith(f, c.taken + t, Output(c.given, c.truncated), c.limit)
    ensures c.n > c.limit <==> Over(f, Output(c.given, c.truncated), c.limit)
  {
    hide HexState, RunState, MachineState, RowState, Gives;
    var whole := Whole(c, t);
    assert IsCut(whole, Output(c.given, c.truncated), c.limit);
  }

  /** The counters of the stages, each reading from the one before, and what is left over: the first filter that is
      not measured, if any. */
  method StageCounters(raw: seq<Byte>, filters: seq<Filter>, limit: nat)
    returns (source: Stage, counters: seq<Stage>, gap: int)
    ensures |counters| == |Measured(filters)|
    ensures gap == if Measured(filters) == filters then -1 else |counters|
    ensures IsWired(raw, Measured(filters), limit, source, counters)
    ensures At(source, counters, |counters|).Linked() && At(source, counters, |counters|).Ready()
    ensures fresh(At(source, counters, |counters|).Chain())
  {
    hide Measured, IsChain, IsWired, Stage.State, Stage.Fed, Stage.Chain;
    source := new Stage(Raw(raw), null, |raw|);
    counters, gap := [], -1;
    var r := source;
    var i := 0;
    assert filters[0..] == filters && filters[..0] == [];
    NoneWired(raw, limit, source);
    while i < |filters|
      invariant 0 <= i <= |filters| && |counters| == i && r == At(source, counters, i)
      invariant Measured(filters) == filters[..i] + Measured(filters[i..])
      invariant IsWired(raw, filters[..i], limit, source, counters)
      invariant r.Linked() && r.Ready() && r.given == []
      invariant fresh(r.Chain())
    {
      MeasuredStep(filters, i);
      var f := filters[i];
      if f.Unmodelled? {
        assert filters[..i] + [] == filters[..i];
        return source, counters, i;
      }
      var c := new Stage(f.kind, r, limit);
      WiredGrows(raw, filters[..i], f, limit, source, counters, c);
      counters := counters + [c];
      r := c;
      i := i + 1;
      if !f.feeds {
        return source, counters, if i < |filters| then i else -1;
      }
    }
    assert filters[i..] == [] && filters[..i] == filters;
  }

  function At(source: Stage, counters: seq<Stage>, k: nat): Stage
    requires k <= |counters|
  {
    if k == 0 then source else counters[k - 1]
  }

  /** The counters are those of the stages, each over the one before, and the raw bytes at the bottom. */
  ghost predicate IsWired(raw: seq<Byte>, stages: seq<Filter>, limit: nat, source: Stage, counters: seq<Stage>) {
    && source.kind == Raw(raw) && source.limit == |raw| && source.below == null && source.level == 0
    && |counters| == |stages|
    && forall k :: 0 <= k < |counters| ==>
      && stages[k].Modelled? && counters[k].kind == stages[k].kind && counters[k].limit == limit
      && counters[k].below == At(source, counters, k) && counters[k].level == k + 1 && counters[k].Linked()
  }

  lemma NoneWired(raw: seq<Byte>, limit: nat, source: Stage)
    requires source.kind == Raw(raw) && source.limit == |raw| && source.below == null && source.level == 0
    ensures IsWired(raw, [], limit, source, [])
  {
  }

  lemma WiredGrows(raw: seq<Byte>, stages: seq<Filter>, f: Filter, limit: nat, source: Stage, counters: seq<Stage>,
                   c: Stage)
    requires IsWired(raw, stages, limit, source, counters) && f.Modelled?
    requires c.kind == f.kind && c.limit == limit && c.below == At(source, counters, |counters|) && c.Linked()
    requires c.level == c.below.level + 1
    ensures IsWired(raw, stages + [f], limit, source, counters + [c])
    ensures At(source, counters + [c], |counters| + 1) == c
  {
    hide Stage.Linked;
    var all, more := counters + [c], stages + [f];
    forall k | 0 <= k < |all|
      ensures more[k].Modelled? && all[k].kind == more[k].kind && all[k].limit == limit
      ensures all[k].below == At(source, all, k) && all[k].level == k + 1 && all[k].Linked()
    {
      assert At(source, all, k) == At(source, counters, k);
    }
  }

  lemma MeasuredStep(filters: seq<Filter>, i: nat)
    requires i < |filters|
    ensures filters[..i + 1] == filters[..i] + [filters[i]]
    ensures Measured(filters[i..]) ==
      if filters[i].Unmodelled? then []
      else if !filters[i].feeds then [filters[i]]
      else [filters[i]] + Measured(filters[i + 1..])
  {
    assert filters[i..][1..] == filters[i + 1..];
  }

  /** Nothing more is handed on, by the stage or, if the end of the one below was met, by that. */
  ghost predicate IsDrained(c: Stage)
    reads c, c.below
  {
    && c.below != null && c.State() && c.Finished()
    && c.taken <= c.below.given && (c.ended ==> c.taken == c.below.given && c.below.Finished())
  }

  ghost predicate IsAbove(d: Stage, c: Stage) {
    d.level > c.level && d.below != null && (d.below == c || d.below.level > c.level)
  }

  lemma WiredAt(raw: seq<Byte>, stages: seq<Filter>, limit: nat, source: Stage, counters: seq<Stage>, i: nat)
    requires IsWired(raw, stages, limit, source, counters) && i < |counters|
    ensures var c := counters[i];
      && c.below == At(source, counters, i) && c.below.level < c.level && c.Linked()
      && c.below.Chain() <= c.Chain() && forall k :: i < k < |counters| ==> IsAbove(counters[k], c)
  {
    hide Stage.Chain;
    var c := counters[i];
    assert c.below == At(source, counters, i);
    forall k | i < k < |counters|
      ensures IsAbove(counters[k], c)
    {
    }
    LowerChain(c);
  }

  lemma LowerChain(c: Stage)
    requires c.Linked() && c.below != null
    ensures c.below.Chain() <= c.Chain()
  {
  }

  /** Drains one stage; those above, drained before, stay so. */
  method DrainOne(c: Stage, ghost above: seq<Stage>)
    requires c.Linked() && c.Ready() && c.below != null
    requires forall k :: 0 <= k < |above| ==> IsAbove(above[k], c) && IsDrained(above[k])
    modifies c.Chain()
    ensures c.below.Linked() && c.below.Ready()
    ensures IsDrained(c) && forall k :: 0 <= k < |above| ==> IsDrained(above[k])
  {
    hide Stage.State;
    c.Drain();
    forall k | 0 <= k < |above|
      ensures IsDrained(above[k])
    {
      assert above[k] !in c.Chain();
    }
  }

  /** Drains the stages from the last to the first, to finish each whose successor stopped reading early. */
  method DrainAll(ghost raw: seq<Byte>, ghost stages: seq<Filter>, ghost limit: nat, source: Stage,
                  counters: seq<Stage>)
    requires IsWired(raw, stages, limit, source, counters)
    requires At(source, counters, |counters|).Linked() && At(source, counters, |counters|).Ready()
    modifies At(source, counters, |counters|).Chain()
    ensures forall k :: 0 <= k < |counters| ==> IsDrained(counters[k])
    ensures source.State()
  {
    hide Stage.State, Stage.Fed, Stage.Chain, Stage.Lower, Stage.Ready, Stage.Linked, IsDrained, IsWired, IsAbove;
    var i := |counters|;
    ghost var all := At(source, counters, |counters|).Chain();
    while i > 0
      invariant 0 <= i <= |counters|
      invariant At(source, counters, i).Linked() && At(source, counters, i).Ready()
      invariant At(source, counters, i).Chain() <= all
      invariant forall k :: i <= k < |counters| ==> IsDrained(counters[k])
    {
      i := i - 1;
      var c := counters[i];
      ghost var above := counters[i + 1..];
      WiredAt(raw, stages, limit, source, counters, i);
      DrainOne(c, above);
      forall k | i < k < |counters|
        ensures IsDrained(counters[k])
      {
        assert counters[k] == above[k - i - 1];
      }
    }
    ReadyState(source);
  }

  lemma ReadyState(c: Stage)
    requires c.Linked() && c.Ready()
    ensures c.State()
  {
    hide Stage.State, Stage.Fed;
  }

  /** The outputs the counters stand for. */
  ghost function Outputs(counters: seq<Stage>): (outs: seq<Output>)
    reads counters
    ensures |outs| == |counters| && forall k :: 0 <= k < |outs| ==>
      outs[k] == Output(counters[k].given, counters[k].truncated)
  {
    seq(|counters|, k requires 0 <= k < |counters| reads counters => Output(counters[k].given, counters[k].truncated))
  }

  /** Drained, the counters stand for what the stages can end with. */
  lemma DrainedIsOutcome(raw: seq<Byte>, stages: seq<Filter>, limit: nat, source: Stage, counters: seq<Stage>)
    requires IsWired(raw, stages, limit, source, counters) && source.State()
    requires forall k :: 0 <= k < |counters| ==> IsDrained(counters[k])
    ensures IsOutcome(raw, stages, Outputs(counters), limit)
    ensures forall k :: 0 <= k < |counters| ==>
      (counters[k].n > limit <==> Over(stages[k], Outputs(counters)[k], limit))
  {
    hide IsOutcome, EndsWith, Over;
    var outs := Outputs(counters);
    forall k | 0 <= k < |counters|
      ensures EndsWith(stages[k], Before(raw, outs, k), outs[k], limit)
      ensures counters[k].n > limit <==> Over(stages[k], outs[k], limit)
    {
      StageEnds(raw, stages, limit, source, counters, k);
    }
    OutcomeOf(raw, stages, outs, limit);
  }

  lemma StageEnds(raw: seq<Byte>, stages: seq<Filter>, limit: nat, source: Stage, counters: seq<Stage>, k: nat)
    requires IsWired(raw, stages, limit, source, counters) && source.State() && k < |counters|
    requires IsDrained(counters[k])
    ensures EndsWith(stages[k], Before(raw, Outputs(counters), k), Outputs(counters)[k], limit)
    ensures counters[k].n > limit <==> Over(stages[k], Outputs(counters)[k], limit)
  {
    hide EndsWith, Over;
    var c := counters[k];
    var all := Before(raw, Outputs(counters), k);
    assert c.below == At(source, counters, k);
    assert c.taken <= all && (c.ended ==> c.taken == all);
    var t := all[|c.taken|..];
    assert c.taken + t == all;
    EndsSo(c, stages[k], t);
  }

  /** Counts the stages that can be measured, and judges the counts from the first to the last: whether they are all,
      and the verdict.  It is that on the uncapped filters if hexadecimal text is clean, and whatever is sure. */
  method CountStages(raw: seq<Byte>, filters: seq<Filter>, limit: nat)
    returns (measured: bool, v: Verdict, ghost outs: seq<Output>)
    ensures measured <==> Measured(filters) == filters
    ensures |outs| == |Measured(filters)| && IsOutcome(raw, Measured(filters), outs, limit)
    ensures VerdictIs(Measured(filters), outs, limit, v)
    ensures AllClean(raw, Measured(filters), limit) ==>
      VerdictIs(Measured(filters), Ideal(raw, Measured(filters)), limit, v)
    ensures forall w :: IsSure(raw, Measured(filters), limit, w) ==> v == w
  {
    hide Measured, IsOutcome, VerdictIs, AllClean, Ideal, IsSure, Judge, Over, Stage.State, Stage.Fed;
    var source, counters, gap := StageCounters(raw, filters, limit);
    ghost var stages := Measured(filters);
    measured := gap < 0;
    DrainAll(raw, stages, limit, source, counters);
    DrainedIsOutcome(raw, stages, limit, source, counters);
    outs := Outputs(counters);
    v := JudgeCounters(stages, limit, counters);
    VerdictHolds(raw, stages, outs, limit);
  }

  lemma VerdictHolds(raw: seq<Byte>, stages: seq<Filter>, outs: seq<Output>, limit: nat)
    requires |outs| == |stages| && IsOutcome(raw, stages, outs, limit)
    ensures var v := Judge(stages, outs, limit);
      && VerdictIs(stages, outs, limit, v)
      && (AllClean(raw, stages, limit) ==> VerdictIs(stages, Ideal(raw, stages), limit, v))
      && forall w :: IsSure(raw, stages, limit, w) ==> v == w
  {
    hide IsOutcome, VerdictIs, AllClean, Ideal, IsSure, Judge;
    var v := Judge(stages, outs, limit);
    JudgeDecides(stages, outs, limit, v);
    if AllClean(raw, stages, limit) {
      VerdictIsExact(raw, stages, outs, limit, v);
    }
    forall w | IsSure(raw, stages, limit, w)
      ensures v == w
    {
      SureJudges(raw, stages, outs, limit, w);
    }
  }

  method JudgeCounters(ghost stages: seq<Filter>, limit: nat, counters: seq<Stage>) returns (v: Verdict)
    requires |counters| == |stages|
    requires forall k :: 0 <= k < |counters| ==>
      (counters[k].n > limit <==> Over(stages[k], Outputs(counters)[k], limit))
    ensures v == Judge(stages, Outputs(counters), limit)
  {
    ghost var outs := Outputs(counters);
    var k := 0;
    assert stages[0..] == stages && outs[0..] == outs;
    while k < |counters|
      invariant 0 <= k <= |counters|
      invariant Judge(stages, outs, limit) == Judge(stages[k..], outs[k..], limit)
    {
      assert stages[k..][1..] == stages[k + 1..] && outs[k..][1..] == outs[k + 1..];
      assert stages[k..][0] == stages[k] && outs[k..][0] == outs[k];
      if counters[k].n > limit {
        return CeilingExceeded;
      }
      if counters[k].truncated {
        return TruncatedRun;
      }
      k := k + 1;
    }
    return Within;
  }
}
