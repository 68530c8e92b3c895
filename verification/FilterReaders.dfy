/** What each filter makes of its whole input, and what reads of an input in pieces can make of it. */
module FilterReaders {

  type Byte = b: int | 0 <= b < 256 witness 0

  /** What a filter makes of an input: its output, and whether the input ends inside a run. */
  datatype Output = Output(bytes: seq<Byte>, faults: bool)

  function Min(a: nat, b: nat): nat {
    if a < b then a else b
  }

  function Take(s: seq<Byte>, n: nat): seq<Byte> {
    if |s| <= n then s else s[..n]
  }

  // Hexadecimal text.

  type Digit = d: int | 0 <= d < 16 witness 0

  function HexValue(b: Byte): (v: int)
    ensures v < 16
  {
    if 0x30 <= b <= 0x39 then b - 0x30
    else if 0x61 <= b <= 0x66 then b - 0x61 + 10
    else if 0x41 <= b <= 0x46 then b - 0x41 + 10
    else -1
  }

  predicate IsHexSpace(b: Byte) {
    b == 0x09 || b == 0x0a || b == 0x0c || b == 0x0d || b == 0x20
  }

  datatype Option<T> = None | Some(value: T)

  /** The next digit, and what follows it.  White space is skipped; the end marker, a byte that is no digit and the
      end of the input give none, and the byte is passed over. */
  function NextDigit(s: seq<Byte>): (r: (Option<Digit>, seq<Byte>))
    ensures |r.1| <= |s| && (s != [] ==> |r.1| < |s|)
  {
    if s == [] then (None, [])
    else if IsHexSpace(s[0]) then NextDigit(s[1..])
    else if HexValue(s[0]) < 0 then (None, s[1..])
    else (Some(HexValue(s[0])), s[1..])
  }

  /** The digits up to the first stop: the end marker, the end of the input or a byte that is no digit. */
  function HexDigits(s: seq<Byte>): seq<Digit>
    decreases |s|
  {
    var (d, rest) := NextDigit(s);
    if d.None? || s == [] then [] else [d.value] + HexDigits(rest)
  }

  /** What comes after the first stop. */
  function AfterStop(s: seq<Byte>): (rest: seq<Byte>)
    ensures |rest| <= |s|
    decreases |s|
  {
    var (d, rest) := NextDigit(s);
    if d.None? || s == [] then rest else AfterStop(rest)
  }

  function ByteOf(hi: Digit, lo: Digit): Byte {
    hi * 16 + lo
  }

  /** Two digits to a byte, a lone last digit padded with zero. */
  function Paired(ds: seq<Digit>): seq<Byte>
  {
    if ds == [] then []
    else if |ds| == 1 then [ByteOf(ds[0], 0)]
    else [ByteOf(ds[0], ds[1])] + Paired(ds[2..])
  }

  function HexDecoded(s: seq<Byte>): seq<Byte> {
    Paired(HexDigits(s))
  }

  /** Half as many bytes as digits, rounded up. */
  lemma {:induction false} PairedCount(ds: seq<Digit>)
    ensures |Paired(ds)| == (|ds| + 1) / 2
  {
    if |ds| > 1 {
      PairedCount(ds[2..]);
    }
  }

  function HexDigit(v: Digit): Byte {
    if v < 10 then 0x30 + v else 0x41 + v - 10
  }

  function HexEncoded(bytes: seq<Byte>): seq<Byte> {
    if bytes == [] then [0x3e] else [HexDigit(bytes[0] / 16), HexDigit(bytes[0] % 16)] + HexEncoded(bytes[1..])
  }

  /** Written in hexadecimal and ended by its marker, any bytes come back, whatever follows. */
  lemma {:induction false} HexRoundTrip(bytes: seq<Byte>, rest: seq<Byte>)
    ensures HexDecoded(HexEncoded(bytes) + rest) == bytes
  {
    var s := HexEncoded(bytes) + rest;
    if bytes != [] {
      var hi, lo := bytes[0] / 16, bytes[0] % 16;
      var tail := HexEncoded(bytes[1..]) + rest;
      assert s[0] == HexDigit(hi) && s[1..] == [HexDigit(lo)] + tail;
      assert s[1..][0] == HexDigit(lo) && s[1..][1..] == tail;
      assert HexDigits(s) == [hi] + ([lo] + HexDigits(tail));
      assert HexDigits(s)[2..] == HexDigits(tail);
      HexRoundTrip(bytes[1..], rest);
    } else {
      assert s[0] == 0x3e;
    }
  }

  /** What one read of up to size bytes gives, what it leaves, and whether it met a stop.  A stop after a lone digit
      completes a byte, and the read goes on after it. */
  function HexRead(s: seq<Byte>, size: nat): (r: (seq<Byte>, seq<Byte>, bool))
    ensures |r.0| <= size && |r.1| <= |s|
    decreases size
  {
    if size == 0 then ([], s, false)
    else
      var (hi, rest) := NextDigit(s);
      if hi.None? then ([], rest, true)
      else
        var (lo, rest2) := NextDigit(rest);
        var more := HexRead(rest2, size - 1);
        ([ByteOf(hi.value, if lo.Some? then lo.value else 0)] + more.0, more.1, lo.None? || more.2)
  }

  /** An even number of digits before the first stop, or no digit right after it. */
  predicate Clean(s: seq<Byte>) {
    |HexDigits(s)| % 2 == 0 || HexDigits(AfterStop(s)) == []
  }

  /** The first two digits, taken off. */
  lemma TwoDigits(s: seq<Byte>)
    requires NextDigit(s).0.Some?
    ensures var rest := NextDigit(s).1;
      var (lo, rest2) := NextDigit(rest);
      && (lo.Some? ==> HexDecoded(s) == [ByteOf(NextDigit(s).0.value, lo.value)] + HexDecoded(rest2)
                       && |HexDigits(s)| == |HexDigits(rest2)| + 2 && AfterStop(s) == AfterStop(rest2))
      && (lo.None? ==>
            HexDecoded(s) == [ByteOf(NextDigit(s).0.value, 0)] && |HexDigits(s)| == 1 && AfterStop(s) == rest2)
  {
    var rest := NextDigit(s).1;
    var lo := NextDigit(rest).0;
    if lo.Some? {
      var more := HexDigits(NextDigit(rest).1);
      assert HexDigits(s) == [NextDigit(s).0.value, lo.value] + more;
    } else {
      NoDigit(rest);
    }
  }

  /** A read that meets no stop gives the next bytes of the decoded input.  One that does gives all the rest, and
      more only when the input is not clean. */
  lemma {:induction false} HexReadMeans(s: seq<Byte>, size: nat)
    ensures var r := HexRead(s, size);
      && (!r.2 ==> HexDecoded(s) == r.0 + HexDecoded(r.1) && |r.0| == size && (Clean(s) <==> Clean(r.1)))
      && (r.2 ==> HexDecoded(s) <= r.0)
      && (r.2 && Clean(s) ==> HexDecoded(s) == r.0)
    decreases size
  {
    hide HexDecoded, HexDigits, AfterStop;
    if size > 0 {
      NoDigit(s);
      if NextDigit(s).0.Some? {
        TwoDigits(s);
        var rest2 := NextDigit(NextDigit(s).1).1;
        HexReadMeans(rest2, size - 1);
        if NextDigit(NextDigit(s).1).0.None? {
          LoneDigit(s, size);
        }
      }
    }
  }

  lemma NoDigit(s: seq<Byte>)
    ensures NextDigit(s).0.None? ==> HexDecoded(s) == [] && HexDigits(s) == [] && AfterStop(s) == NextDigit(s).1
    ensures NextDigit(s).0.Some? ==> HexDigits(s) != []
  {
  }

  /** After a lone digit and its stop, a read of a clean input gives nothing more. */
  lemma LoneDigit(s: seq<Byte>, size: nat)
    requires size > 0 && NextDigit(s).0.Some? && NextDigit(NextDigit(s).1).0.None?
    ensures Clean(s) ==> HexRead(NextDigit(NextDigit(s).1).1, size - 1).0 == []
  {
    TwoDigits(s);
    NoDigit(NextDigit(NextDigit(s).1).1);
  }

  /** One read with room to spare gives exactly the decoded input if and only if the input is clean. */
  lemma {:induction false} HexReadIsExactWhenClean(s: seq<Byte>, size: nat)
    requires size > |s|
    ensures HexRead(s, size).0 == HexDecoded(s) <==> Clean(s)
    decreases |s|
  {
    hide HexDecoded, HexDigits, AfterStop;
    NoDigit(s);
    if NextDigit(s).0.Some? {
      assert s != [];
      TwoDigits(s);
      var rest := NextDigit(s).1;
      var rest2 := NextDigit(rest).1;
      var more := HexRead(rest2, size - 1).0;
      if NextDigit(rest).0.Some? {
        HexReadIsExactWhenClean(rest2, size - 1);
        SameTail(HexDecoded(s)[0], more, HexDecoded(rest2));
      } else {
        NoDigit(rest2);
        SameTail(HexDecoded(s)[0], more, []);
      }
    }
  }

  lemma SameTail(x: Byte, a: seq<Byte>, b: seq<Byte>)
    ensures [x] + a == [x] + b <==> a == b
  {
    assert ([x] + a)[1..] == a && ([x] + b)[1..] == b;
  }

  /** All that reading on behind a lone digit and its stop can give: every pair of digits, a lone one padded, up to a
      stop that comes first in its pair. */
  function HexAll(s: seq<Byte>): seq<Byte>
    decreases |s|
  {
    var (hi, rest) := NextDigit(s);
    if hi.None? || s == [] then []
    else
      var (lo, rest2) := NextDigit(rest);
      [ByteOf(hi.value, if lo.Some? then lo.value else 0)] + HexAll(rest2)
  }

  /** One read gives the front of it. */
  lemma {:induction false} HexReadIsFront(s: seq<Byte>, size: nat)
    ensures HexRead(s, size).0 == Take(HexAll(s), size)
    decreases size
  {
    if size > 0 && NextDigit(s).0.Some? {
      assert s != [];
      HexReadIsFront(NextDigit(NextDigit(s).1).1, size - 1);
    }
  }

  /** The decoded input is the front of it, and all of it exactly when the input is clean. */
  lemma {:induction false} DecodedIsFront(s: seq<Byte>)
    ensures HexDecoded(s) <= HexAll(s)
    ensures HexDecoded(s) == HexAll(s) <==> Clean(s)
    decreases |s|
  {
    hide HexDecoded, HexDigits, AfterStop;
    NoDigit(s);
    if NextDigit(s).0.Some? {
      assert s != [];
      TwoDigits(s);
      var rest := NextDigit(s).1;
      var rest2 := NextDigit(rest).1;
      var x := HexDecoded(s)[0];
      if NextDigit(rest).0.Some? {
        DecodedIsFront(rest2);
        SameTail(x, HexAll(rest2), HexDecoded(rest2));
      } else {
        NoDigit(rest2);
        SameTail(x, HexAll(rest2), []);
      }
    }
  }

  /** What reads of the given sizes, one after the other until one meets a stop, give, and whether one did. */
  function HexReads(s: seq<Byte>, sizes: seq<nat>): (seq<Byte>, bool)
    decreases |sizes|
  {
    if sizes == [] then ([], false)
    else
      var (bytes, rest, stopped) := HexRead(s, sizes[0]);
      if stopped then (bytes, true)
      else
        var (more, later) := HexReads(rest, sizes[1..]);
        (bytes + more, later)
  }

  /** Reads that come to a stop give at least the decoded input, and at most all there is. */
  lemma {:induction false} HexReadsLieBetween(s: seq<Byte>, sizes: seq<nat>)
    requires HexReads(s, sizes).1
    ensures HexDecoded(s) <= HexReads(s, sizes).0 <= HexAll(s)
    decreases |sizes|
  {
    hide HexDecoded, HexRead, HexAll, Clean;
    var r := HexRead(s, sizes[0]);
    HexReadMeans(s, sizes[0]);
    HexReadIsFront(s, sizes[0]);
    if !r.2 {
      HexReadsLieBetween(r.1, sizes[1..]);
      HexReadLeaves(s, sizes[0]);
      assert HexDecoded(s) <= r.0 + HexReads(r.1, sizes[1..]).0 <= r.0 + HexAll(r.1);
    }
  }

  lemma {:induction false} HexReadLeaves(s: seq<Byte>, size: nat)
    requires !HexRead(s, size).2
    ensures HexAll(s) == HexRead(s, size).0 + HexAll(HexRead(s, size).1)
    decreases size
  {
    if size > 0 {
      assert s != [];
      var rest2 := NextDigit(NextDigit(s).1).1;
      HexReadLeaves(rest2, size - 1);
    }
  }

  /** What a read does first. */
  lemma HexReadStep(s: seq<Byte>, size: nat)
    ensures size == 0 ==> HexRead(s, size) == ([], s, false)
    ensures size > 0 ==>
      var (hi, rest) := NextDigit(s);
      if hi.None? then HexRead(s, size) == ([], rest, true)
      else
        var (lo, rest2) := NextDigit(rest);
        var more := HexRead(rest2, size - 1);
        var b := ByteOf(hi.value, if lo.Some? then lo.value else 0);
        HexRead(s, size) == ([b] + more.0, more.1, lo.None? || more.2)
  {
  }

  lemma StopAtOnce(s: seq<Byte>, size: nat)
    requires HexRead(s, size).2
    ensures HexReads(s, [size]) == (HexRead(s, size).0, true)
  {
    hide HexRead;
  }

  lemma ReadOneFirst(s: seq<Byte>, rest: seq<Byte>, b: Byte, more: seq<nat>)
    requires HexRead(s, 1) == ([b], rest, false)
    ensures HexReads(s, [1] + more) == ([b] + HexReads(rest, more).0, HexReads(rest, more).1)
  {
    hide HexRead;
    assert ([1] + more)[1..] == more;
  }

  /** Each amount in between is given by reads of some sizes. */
  lemma {:induction false} HexReadsReach(s: seq<Byte>, bytes: seq<Byte>) returns (sizes: seq<nat>)
    requires HexDecoded(s) <= bytes <= HexAll(s)
    ensures (forall i :: 0 <= i < |sizes| ==> sizes[i] > 0) && HexReads(s, sizes) == (bytes, true)
    decreases |s|
  {
    hide HexDecoded, HexDigits, AfterStop;
    NoDigit(s);
    if NextDigit(s).0.None? {
      sizes := [1];
      HexReadStep(s, 1);
      StopAtOnce(s, 1);
    } else {
      assert s != [];
      TwoDigits(s);
      var rest2 := NextDigit(NextDigit(s).1).1;
      if NextDigit(NextDigit(s).1).0.Some? {
        var more := HexReadsReach(rest2, bytes[1..]);
        sizes := [1] + more;
        HexReadStep(s, 1);
        HexReadStep(rest2, 0);
        assert [bytes[0]] + [] == [bytes[0]] == [HexDecoded(s)[0]];
        ReadOneFirst(s, rest2, bytes[0], more);
        assert [bytes[0]] + bytes[1..] == bytes;
      } else {
        sizes := [|bytes|];
        HexReadStep(s, |bytes|);
        HexReadIsFront(s, |bytes|);
        StopAtOnce(s, |bytes|);
        assert Take(HexAll(s), |bytes|) == bytes;
      }
    }
  }

  /** However it is read, an input gives exactly what it decodes to if and only if it is clean. */
  lemma HexReadsAreExactIffClean(s: seq<Byte>)
    ensures Clean(s) <==> forall sizes :: HexReads(s, sizes).1 ==> HexReads(s, sizes).0 == HexDecoded(s)
  {
    hide Clean, HexReads, HexDecoded, HexAll;
    DecodedIsFront(s);
    if Clean(s) {
      forall sizes | HexReads(s, sizes).1
        ensures HexReads(s, sizes).0 == HexDecoded(s)
      {
        HexReadsLieBetween(s, sizes);
      }
    } else {
      var sizes := HexReadsReach(s, HexAll(s));
      assert HexReads(s, sizes).0 != HexDecoded(s);
    }
  }

  /** The bytes 1 > 2 3. */
  const UNCLEAN: seq<Byte> := [0x31, 0x3e, 0x32, 0x33]

  /** They decode to 16; two reads of one byte give no more, but one read of two bytes gives 16 and 35. */
  lemma HexReadOverruns()
    ensures HexDecoded(UNCLEAN) == [16] && HexAll(UNCLEAN) == [16, 35] && !Clean(UNCLEAN)
    ensures HexReads(UNCLEAN, [1]) == ([16], true) && HexReads(UNCLEAN, [2]) == ([16, 35], true)
  {
    hide HexReads;
    var s, tail: seq<Byte> := UNCLEAN, [0x32, 0x33];
    assert s[1..] == [0x3e, 0x32, 0x33] && s[1..][1..] == tail && tail[1..] == [0x33];
    assert NextDigit(s) == (Some(1), s[1..]);
    assert NextDigit(s[1..]) == (None, tail);
    assert NextDigit(tail) == (Some(2), [0x33]);
    assert NextDigit([0x33]) == (Some(3), []);
    assert HexDigits(s) == [1];
    assert HexAll([]) == [] && HexAll(tail) == [35] + HexAll([]);
    DecodedIsFront(s);
    HexReadStep(s, 1);
    HexReadStep(tail, 0);
    HexReadStep(s, 2);
    HexReadStep(tail, 1);
    HexReadStep([], 0);
    assert [16] + [] == [16] && [35] + [] == [35];
    StopAtOnce(s, 1);
    StopAtOnce(s, 2);
  }

  // Runs.

  /** A run of 1 to 128 bytes as they are, or of 2 to 128 times one byte. */
  datatype Run = Literal(bytes: seq<Byte>) | Repeat(value: Byte, count: nat)

  predicate IsRun(r: Run) {
    match r
    case Literal(bytes) => 1 <= |bytes| <= 128
    case Repeat(_, count) => 2 <= count <= 128
  }

  function WriteRun(r: Run): seq<Byte>
    requires IsRun(r)
  {
    match r
    case Literal(bytes) => [|bytes| - 1] + bytes
    case Repeat(value, count) => [257 - count, value]
  }

  function Repeated(value: Byte, count: nat): (r: seq<Byte>)
    ensures |r| == count && forall i :: 0 <= i < count ==> r[i] == value
  {
    seq(count, _ => value)
  }

  function Expand(r: Run): seq<Byte> {
    match r
    case Literal(bytes) => bytes
    case Repeat(value, count) => Repeated(value, count)
  }

  function WriteRuns(rs: seq<Run>): seq<Byte>
    requires forall i :: 0 <= i < |rs| ==> IsRun(rs[i])
  {
    if rs == [] then [] else WriteRun(rs[0]) + WriteRuns(rs[1..])
  }

  function ExpandRuns(rs: seq<Run>): seq<Byte> {
    if rs == [] then [] else Expand(rs[0]) + ExpandRuns(rs[1..])
  }

  const END_OF_RUNS: Byte := 0x80

  /** The decoded input, and whether it ends inside a run; what a cut literal run still has is kept. */
  function RunDecoded(s: seq<Byte>): Output
    decreases |s|
  {
    if s == [] || s[0] == END_OF_RUNS then Output([], false)
    else if s[0] < END_OF_RUNS then
      var n := s[0] + 1;
      if |s| < n + 1 then Output(s[1..], true)
      else
        var more := RunDecoded(s[n + 1..]);
        Output(s[1..n + 1] + more.bytes, more.faults)
    else if |s| < 2 then Output([], true)
    else
      var more := RunDecoded(s[2..]);
      Output(Repeated(s[1], 257 - s[0]) + more.bytes, more.faults)
  }

  /** Runs written one after the other decode to their expansions, and then to what follows them. */
  lemma {:induction false} RunsAreRead(rs: seq<Run>, tail: seq<Byte>)
    requires forall i :: 0 <= i < |rs| ==> IsRun(rs[i])
    ensures var more := RunDecoded(tail);
      RunDecoded(WriteRuns(rs) + tail) == Output(ExpandRuns(rs) + more.bytes, more.faults)
  {
    hide RunDecoded, WriteRun, Expand;
    if rs == [] {
      assert WriteRuns(rs) + tail == tail;
      assert ExpandRuns(rs) + RunDecoded(tail).bytes == RunDecoded(tail).bytes;
    } else {
      RunsAreRead(rs[1..], tail);
      var rest := WriteRuns(rs[1..]) + tail;
      Regroup(WriteRun(rs[0]), WriteRuns(rs[1..]), tail);
      OneRunIsRead(rs[0], rest);
      Regroup(Expand(rs[0]), ExpandRuns(rs[1..]), RunDecoded(tail).bytes);
    }
  }

  lemma Regroup(a: seq<Byte>, b: seq<Byte>, c: seq<Byte>)
    ensures (a + b) + c == a + (b + c)
  {
  }

  /** Behind the end marker nothing is read, and of a run cut short only literal bytes are kept. */
  lemma EndOfRuns(r: Run, cut: seq<Byte>, rest: seq<Byte>)
    requires IsRun(r) && cut != [] && cut < WriteRun(r)
    ensures RunDecoded([]) == Output([], false) && RunDecoded([0x80] + rest) == Output([], false)
    ensures RunDecoded(cut) == Output(if r.Literal? then cut[1..] else [], true)
  {
    assert cut[0] == WriteRun(r)[0];
  }

  lemma OneRunIsRead(r: Run, rest: seq<Byte>)
    requires IsRun(r)
    ensures RunDecoded(WriteRun(r) + rest) == Output(Expand(r) + RunDecoded(rest).bytes, RunDecoded(rest).faults)
  {
    var s := WriteRun(r) + rest;
    match r
    case Literal(bytes) =>
      assert s[0] == |bytes| - 1 && s[1..|bytes| + 1] == bytes && s[|bytes| + 1..] == rest;
    case Repeat(value, count) =>
      assert s[0] == 257 - count && s[1] == value && s[2..] == rest;
  }

  /** Some of a run, but not all of it. */
  ghost predicate CutShort(s: seq<Byte>) {
    exists r :: IsRun(r) && s != [] && s < WriteRun(r)
  }

  /** Any input is whole runs and then nothing, the end marker, or a run cut short; it faults exactly in the last
      case. */
  lemma {:induction false} FaultsWhenCutShort(s: seq<Byte>) returns (rs: seq<Run>, tail: seq<Byte>)
    ensures forall i :: 0 <= i < |rs| ==> IsRun(rs[i])
    ensures s == WriteRuns(rs) + tail
    ensures tail == [] || tail[0] == END_OF_RUNS || CutShort(tail)
    ensures RunDecoded(s).faults <==> CutShort(tail)
    decreases |s|
  {
    hide RunDecoded, CutShort, WriteRun;
    if s == [] || s[0] == END_OF_RUNS {
      rs, tail := [], s;
      NotCutShort(s);
    } else {
      var n := if s[0] < END_OF_RUNS then s[0] + 2 else 2;
      if |s| < n {
        rs, tail := [], s;
        IsCutShort(s, n);
      } else {
        var first := FirstRun(s, n);
        rs, tail := FaultsWhenCutShort(s[n..]);
        OneRunIsRead(first, s[n..]);
        assert s == s[..n] + s[n..];
        assert s[..n] + (WriteRuns(rs) + tail) == (s[..n] + WriteRuns(rs)) + tail;
        assert ([first] + rs)[1..] == rs;
        rs := [first] + rs;
      }
    }
  }

  lemma FirstRun(s: seq<Byte>, n: nat) returns (r: Run)
    requires s != [] && s[0] != END_OF_RUNS && n == (if s[0] < END_OF_RUNS then s[0] + 2 else 2) <= |s|
    ensures IsRun(r) && WriteRun(r) == s[..n]
  {
    r := if s[0] < END_OF_RUNS then Literal(s[1..n]) else Repeat(s[1], 257 - s[0]);
  }

  lemma NotCutShort(s: seq<Byte>)
    requires s == [] || s[0] == END_OF_RUNS
    ensures !CutShort(s) && !RunDecoded(s).faults
  {
  }

  lemma IsCutShort(s: seq<Byte>, n: nat)
    requires s != [] && s[0] != END_OF_RUNS && n == (if s[0] < END_OF_RUNS then s[0] + 2 else 2) && |s| < n
    ensures CutShort(s) && RunDecoded(s).faults
  {
    hide RunDecoded, CutShort;
    CutFaults(s, n);
    if s[0] < END_OF_RUNS {
      CutLiteral(s, n);
    } else {
      CutRepeat(s);
    }
  }

  lemma CutFaults(s: seq<Byte>, n: nat)
    requires s != [] && s[0] != END_OF_RUNS && n == (if s[0] < END_OF_RUNS then s[0] + 2 else 2) && |s| < n
    ensures RunDecoded(s).faults
  {
  }

  lemma CutLiteral(s: seq<Byte>, n: nat)
    requires s != [] && s[0] < END_OF_RUNS && n == s[0] + 2 && |s| < n
    ensures CutShort(s)
  {
    var more := Repeated(0, n - |s|);
    var r := Literal(s[1..] + more);
    assert WriteRun(r) == s + more;
    assert IsRun(r) && s < WriteRun(r);
  }

  lemma CutRepeat(s: seq<Byte>)
    requires |s| == 1 && s[0] > END_OF_RUNS
    ensures CutShort(s)
  {
    var r := Repeat(0, 257 - s[0]);
    assert WriteRun(r) == s + [0];
    assert IsRun(r) && s < WriteRun(r);
  }

  // Predictor rows.

  /** Whole rows of width bytes, of which the first rowSize each are kept. */
  function RowsOf(s: seq<Byte>, width: nat, rowSize: nat): seq<Byte>
    requires 0 < rowSize <= width
    decreases |s|
  {
    if |s| < width then [] else s[..rowSize] + RowsOf(s[width..], width, rowSize)
  }

  /** How many whole rows there are in n bytes. */
  function WholeRows(n: nat, width: nat): (q: nat)
    requires width > 0
    ensures q * width <= n < q * width + width
  {
    if n < width then 0
    else
      var q := WholeRows(n - width, width);
      q + 1
  }

  /** As many bytes come out as there are whole rows, times the row size. */
  lemma {:induction false} RowsCount(s: seq<Byte>, width: nat, rowSize: nat)
    requires 0 < rowSize <= width
    ensures |RowsOf(s, width, rowSize)| == WholeRows(|s|, width) * rowSize
    decreases |s|
  {
    if |s| >= width {
      RowsCount(s[width..], width, rowSize);
    }
  }

  // Predictor parameters.

  /** An entry of the decode parameters: absent, of a type that is passed over, or a number. */
  datatype Parm = Absent | Ignored | Number(n: int)

  const MAX_PREDICTOR_COLUMNS := 0x10_0000
  const MAX_PREDICTOR_COLORS := 32
  const MAX_PREDICTOR_BITS := 16

  function ValueOr(p: Parm, def: int): int {
    if p.Number? then p.n else def
  }

  /** The bytes of a row, rounded up. */
  function RowBytes(columns: int, colors: int, bits: int): int {
    Quotient(bits * colors * columns + 7, 8)
  }

  /** Division that drops the fraction. */
  function Quotient(a: int, b: int): int
    requires b > 0
  {
    if a < 0 then -(-a / b) else a / b
  }

  predicate InBounds(columns: int, colors: int, bits: int) {
    1 <= columns <= MAX_PREDICTOR_COLUMNS && 1 <= colors <= MAX_PREDICTOR_COLORS && 1 <= bits <= MAX_PREDICTOR_BITS
  }

  /** Parameters are accepted exactly when each is in its bounds and two rows fit the limit. */
  method CheckPredictorParms(columns: Parm, colors: Parm, bits: Parm, limit: int) returns (ok: bool)
    ensures var c, k, b := ValueOr(columns, 1), ValueOr(colors, 1), ValueOr(bits, 8);
      ok <==> InBounds(c, k, b) && 2 * RowBytes(c, k, b) <= limit
  {
    var entries := [(columns, 1, MAX_PREDICTOR_COLUMNS), (colors, 1, MAX_PREDICTOR_COLORS),
                    (bits, 8, MAX_PREDICTOR_BITS)];
    var values: seq<int> := [];
    for i := 0 to 3
      invariant |values| == i
      invariant forall j :: 0 <= j < i ==>
        values[j] == ValueOr(entries[j].0, entries[j].1) && 1 <= values[j] <= entries[j].2
    {
      var (v, def, max) := entries[i];
      if v.Number? && (v.n < 1 || v.n > max) {
        assert !(1 <= ValueOr(entries[i].0, entries[i].1) <= entries[i].2);
        return false;
      }
      values := values + [ValueOr(v, def)];
    }
    assert values[0] == ValueOr(columns, 1) && values[1] == ValueOr(colors, 1) && values[2] == ValueOr(bits, 8);
    return 2 * RowBytes(values[0], values[1], values[2]) <= limit;
  }

  /** An accepted row is at least one byte, fits the limit twice over, and is computed without leaving 32 bits. */
  lemma AcceptedRowsFit(columns: int, colors: int, bits: int, limit: int)
    requires InBounds(columns, colors, bits) && 2 * RowBytes(columns, colors, bits) <= limit
    ensures 1 <= RowBytes(columns, colors, bits) <= limit / 2
    ensures 0 < bits * colors * columns + 7 < 0x8000_0000
    ensures 8 * RowBytes(columns, colors, bits) >= bits * colors * columns > 8 * (RowBytes(columns, colors, bits) - 1)
  {
    Bounded(bits, colors, MAX_PREDICTOR_BITS, MAX_PREDICTOR_COLORS);
    Bounded(bits * colors, columns, MAX_PREDICTOR_BITS * MAX_PREDICTOR_COLORS, MAX_PREDICTOR_COLUMNS);
  }

  lemma Bounded(a: int, b: int, m: int, n: int)
    requires 1 <= a <= m && 1 <= b <= n
    ensures 1 <= a * b <= m * n
  {
    assert a * b <= a * n by {
      MulMono(a, b, n);
    }
    assert n * a <= n * m by {
      MulMono(n, a, m);
    }
  }

  lemma MulMono(a: int, b: int, c: int)
    requires a >= 0 && b <= c
    ensures a * b <= a * c
  {
  }

  // Fax images.

  const MAX_INT64: int := 0x7fff_ffff_ffff_ffff
  const MAX_DIMENSION: int := 0x8000_0000

  /** The size of a fax image's bitmap: one bit a pixel, rows in whole bytes.  None when it cannot be told; the
      greatest size when there is no telling how much a decoder makes of it. */
  function CcittDecodedSize(columns: Parm, rows: Parm, height: int): Option<int> {
    var c := ValueOr(columns, 1728);
    var r := ValueOr(rows, height);
    if r < 0 then Some(MAX_INT64)
    else if c <= 0 || r == 0 then None
    else if c > MAX_DIMENSION || r > MAX_DIMENSION then Some(MAX_INT64)
    else Some((c + 7) / 8 * r)
  }

  /** A size is told unless there are no rows or no columns.  For dimensions up to the bound it is that of rows of as
      few whole bytes as hold the columns, and larger ones and a row count to be found out count as the greatest; no
      step leaves 64 bits. */
  lemma CcittSizeHolds(columns: Parm, rows: Parm, height: int) returns (row: int)
    ensures var size := CcittDecodedSize(columns, rows, height);
      var c, r := ValueOr(columns, 1728), ValueOr(rows, height);
      && (size.None? <==> r == 0 || (r > 0 && c <= 0))
      && (size.Some? ==> 0 < size.value <= MAX_INT64)
      && (0 < c <= MAX_DIMENSION && 0 < r <= MAX_DIMENSION ==>
            size == Some(row * r) && 8 * (row - 1) < c <= 8 * row && c + 7 <= MAX_INT64 && row * r < MAX_INT64)
      && (r < 0 || (r > 0 && c > 0 && (c > MAX_DIMENSION || r > MAX_DIMENSION)) ==> size == Some(MAX_INT64))
  {
    var c, r := ValueOr(columns, 1728), ValueOr(rows, height);
    row := (c + 7) / 8;
    if 0 < c <= MAX_DIMENSION && 0 < r <= MAX_DIMENSION {
      Bounded(row, r, MAX_DIMENSION / 8, MAX_DIMENSION);
    }
  }
}
