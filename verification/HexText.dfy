/** Hexadecimal text as it may be written (section 7.4.2 of ISO 32000-1), and what the readers make of it. */
module HexText {
  import opened FilterReaders
  import opened StageCount

  /** White space that may stand before a digit. */
  datatype Space = Tab | LineFeed | FormFeed | Return | Blank

  function SpaceByte(p: Space): Byte {
    match p
    case Tab => 0x09
    case LineFeed => 0x0a
    case FormFeed => 0x0c
    case Return => 0x0d
    case Blank => 0x20
  }

  function Spaces(ps: seq<Space>): seq<Byte> {
    seq(|ps|, i requires 0 <= i < |ps| => SpaceByte(ps[i]))
  }

  /** A digit with the white space before it, in upper or lower case. */
  datatype Written = Written(before: seq<Space>, value: Digit, upper: bool)

  /** The characters 0 to 9, A to F and a to f. */
  function Character(value: Digit, upper: bool): Byte {
    if upper then
      [0x30, 0x31, 0x32, 0x33, 0x34, 0x35, 0x36, 0x37, 0x38, 0x39, 0x41, 0x42, 0x43, 0x44, 0x45, 0x46][value]
    else
      [0x30, 0x31, 0x32, 0x33, 0x34, 0x35, 0x36, 0x37, 0x38, 0x39, 0x61, 0x62, 0x63, 0x64, 0x65, 0x66][value]
  }

  function DigitText(w: Written): seq<Byte> {
    Spaces(w.before) + [Character(w.value, w.upper)]
  }

  function Text(ws: seq<Written>): seq<Byte> {
    if ws == [] then [] else DigitText(ws[0]) + Text(ws[1..])
  }

  function Values(ws: seq<Written>): seq<Digit> {
    seq(|ws|, i requires 0 <= i < |ws| => ws[i].value)
  }

  /** The bytes of the digits: two to a byte, the higher first, a lone last one followed by zero. */
  predicate AreBytesOf(bytes: seq<Byte>, ds: seq<Digit>) {
    && |bytes| == (|ds| + 1) / 2
    && forall i :: 0 <= i < |bytes| ==> IsByteOf(bytes[i], ds[2 * i], if 2 * i + 1 < |ds| then ds[2 * i + 1] else 0)
  }

  predicate IsByteOf(b: Byte, high: int, low: int) {
    b == 16 * high + low
  }

  /** The 22 digit characters and the five white-space bytes; every other byte is a stop. */
  ghost predicate IsStop(b: Byte) {
    && (forall value: Digit, upper: bool :: b != Character(value, upper))
    && (forall p: Space :: b != SpaceByte(p))
  }

  /** How a text ends: with its input, or with the marker > or another stop, whatever follows. */
  ghost predicate IsEnd(end: seq<Byte>) {
    end == [] || IsStop(end[0])
  }

  lemma {:induction false} SpacesSkipped(ps: seq<Space>, s: seq<Byte>)
    ensures NextDigit(Spaces(ps) + s) == NextDigit(s)
  {
    if ps == [] {
      assert Spaces(ps) + s == s;
    } else {
      var t := Spaces(ps) + s;
      assert t[0] == SpaceByte(ps[0]) && t[1..] == Spaces(ps[1..]) + s;
      SpacesSkipped(ps[1..], s);
    }
  }

  /** A written digit is read as its value, and nothing more is taken. */
  lemma DigitIsRead(w: Written, s: seq<Byte>)
    ensures NextDigit(DigitText(w) + s) == (Some(w.value), s)
  {
    var t := [Character(w.value, w.upper)] + s;
    assert DigitText(w) + s == Spaces(w.before) + t;
    SpacesSkipped(w.before, t);
    assert t[1..] == s;
  }

  /** An end gives no digit; a stop is passed over. */
  lemma EndIsRead(ps: seq<Space>, end: seq<Byte>)
    requires IsEnd(end)
    ensures NextDigit(Spaces(ps) + end) == (None, if end == [] then [] else end[1..])
  {
    SpacesSkipped(ps, end);
    if end != [] {
      StopIsStop(end[0]);
    }
  }

  /** The reader stops at exactly these bytes. */
  lemma StopIsStop(b: Byte)
    ensures IsStop(b) <==> !IsHexSpace(b) && HexValue(b) < 0
  {
    if IsHexSpace(b) {
      var p := if b == 0x09 then Tab else if b == 0x0a then LineFeed else if b == 0x0c then FormFeed
               else if b == 0x0d then Return else Blank;
      assert b == SpaceByte(p);
    } else if HexValue(b) >= 0 {
      var v: Digit := HexValue(b);
      assert b == Character(v, true) || b == Character(v, false);
    }
  }

  lemma {:induction false} PairedAreBytes(ds: seq<Digit>)
    ensures AreBytesOf(Paired(ds), ds)
  {
    if |ds| > 1 {
      PairedAreBytes(ds[2..]);
      var bytes, rest := Paired(ds), Paired(ds[2..]);
      assert bytes == [ByteOf(ds[0], ds[1])] + rest;
      forall i | 0 <= i < |bytes|
        ensures IsByteOf(bytes[i], ds[2 * i], if 2 * i + 1 < |ds| then ds[2 * i + 1] else 0)
      {
        if i > 0 {
          assert bytes[i] == rest[i - 1] && ds[2..][2 * (i - 1)] == ds[2 * i];
        }
      }
    }
  }

  /** However its digits are written, the text up to an end decodes to their bytes, and the end is passed over. */
  lemma {:induction false} TextIsDecoded(ws: seq<Written>, ps: seq<Space>, end: seq<Byte>)
    requires IsEnd(end)
    ensures var s := Text(ws) + Spaces(ps) + end;
      && HexDigits(s) == Values(ws) && AreBytesOf(HexDecoded(s), Values(ws))
      && AfterStop(s) == if end == [] then [] else end[1..]
  {
    hide NextDigit, IsEnd, Paired, AreBytesOf;
    var s := Text(ws) + Spaces(ps) + end;
    PairedAreBytes(Values(ws));
    if ws == [] {
      assert s == Spaces(ps) + end;
      EndIsRead(ps, end);
      assert Values(ws) == [];
    } else {
      var rest := Text(ws[1..]) + Spaces(ps) + end;
      assert s == DigitText(ws[0]) + rest;
      DigitIsRead(ws[0], rest);
      TextIsDecoded(ws[1..], ps, end);
      assert Values(ws) == [ws[0].value] + Values(ws[1..]);
      assert s != [];
    }
  }

  /** What reading on can give of no digits. */
  lemma NoneReadsOn(ps: seq<Space>, end: seq<Byte>)
    requires IsEnd(end)
    ensures HexAll(Text([]) + Spaces(ps) + end) == []
  {
    assert Text([]) + Spaces(ps) + end == Spaces(ps) + end;
    EndIsRead(ps, end);
  }

  /** Of a lone digit: its byte, and what follows its stop. */
  lemma LoneReadsOn(w: Written, ps: seq<Space>, end: seq<Byte>)
    requires IsEnd(end)
    ensures HexAll(DigitText(w) + Spaces(ps) + end) == [ByteOf(w.value, 0)] + HexAll(if end == [] then [] else end[1..])
  {
    hide NextDigit, IsEnd;
    var rest := Spaces(ps) + end;
    var s := DigitText(w) + Spaces(ps) + end;
    assert s == DigitText(w) + rest && s != [];
    DigitIsRead(w, rest);
    EndIsRead(ps, end);
  }

  /** Of two digits: their byte, and what the rest gives. */
  lemma PairReadsOn(v: Written, w: Written, rest: seq<Byte>)
    ensures HexAll(DigitText(v) + (DigitText(w) + rest)) == [ByteOf(v.value, w.value)] + HexAll(rest)
  {
    hide NextDigit;
    DigitIsRead(v, DigitText(w) + rest);
    DigitIsRead(w, rest);
    assert DigitText(v) + (DigitText(w) + rest) != [];
  }

  /** What reading on can give: behind a lone digit and its stop, also what follows; behind an even number, nothing. */
  lemma {:induction false} TextReadsOn(ws: seq<Written>, ps: seq<Space>, end: seq<Byte>)
    requires IsEnd(end)
    ensures HexAll(Text(ws) + Spaces(ps) + end) ==
      HexDecoded(Text(ws) + Spaces(ps) + end) + if |ws| % 2 == 1 && end != [] then HexAll(end[1..]) else []
    decreases |ws|
  {
    hide HexDecoded, HexDigits, HexAll, IsEnd, DigitText, Spaces;
    EmptyReads();
    var s := Text(ws) + Spaces(ps) + end;
    DecodedIsValues(ws, ps, end);
    if ws == [] {
      NoneReadsOn(ps, end);
      assert Values(ws) == [];
    } else if |ws| == 1 {
      assert ws[1..] == [] && Text(ws) == DigitText(ws[0]) + Text([]) == DigitText(ws[0]);
      LoneReadsOn(ws[0], ps, end);
      assert Values(ws) == [ws[0].value];
    } else {
      var rest := Text(ws[2..]) + Spaces(ps) + end;
      assert ws[1..][1..] == ws[2..] && Text(ws) == DigitText(ws[0]) + (DigitText(ws[1]) + Text(ws[2..]));
      assert s == DigitText(ws[0]) + (DigitText(ws[1]) + rest);
      PairReadsOn(ws[0], ws[1], rest);
      TextReadsOn(ws[2..], ps, end);
      DecodedIsValues(ws[2..], ps, end);
      assert Values(ws)[2..] == Values(ws[2..]);
      PairedStep(Values(ws));
    }
  }

  lemma DecodedIsValues(ws: seq<Written>, ps: seq<Space>, end: seq<Byte>)
    requires IsEnd(end)
    ensures HexDecoded(Text(ws) + Spaces(ps) + end) == Paired(Values(ws))
  {
    hide HexDecoded, HexDigits, IsEnd;
    TextIsDecoded(ws, ps, end);
    DecodedIsPaired(Text(ws) + Spaces(ps) + end);
  }

  lemma DecodedIsPaired(s: seq<Byte>)
    ensures HexDecoded(s) == Paired(HexDigits(s))
  {
  }

  lemma EmptyReads()
    ensures HexAll([]) == []
  {
  }

  lemma PairedStep(ds: seq<Digit>)
    requires |ds| > 1
    ensures Paired(ds) == [ByteOf(ds[0], ds[1])] + Paired(ds[2..])
  {
  }

  /** A text is clean exactly when it has an even number of digits, or no digit follows its stop. */
  lemma TextIsClean(ws: seq<Written>, ps: seq<Space>, end: seq<Byte>)
    requires IsEnd(end)
    ensures Clean(Text(ws) + Spaces(ps) + end) <==> |ws| % 2 == 0 || end == [] || HexDigits(end[1..]) == []
  {
    hide IsEnd, NextDigit;
    TextIsDecoded(ws, ps, end);
    assert HexDigits([]) == [];
  }

  /** The verdict on a hexadecimal stage by itself, for clean text: whether half as many bytes as digits, rounded up,
      are within the limit. */
  lemma TextVerdict(ws: seq<Written>, ps: seq<Space>, end: seq<Byte>, limit: nat)
    requires IsEnd(end) && (|ws| % 2 == 0 || end == [] || HexDigits(end[1..]) == [])
    ensures var s, stages := Text(ws) + Spaces(ps) + end, [Modelled(Hex, true)];
      && AllClean(s, stages, limit)
      && VerdictIs(stages, Ideal(s, stages), limit, if (|ws| + 1) / 2 > limit then CeilingExceeded else Within)
  {
    hide HexDecoded, HexDigits, IsEnd, Clean, AreBytesOf;
    var s, stages := Text(ws) + Spaces(ps) + end, [Modelled(Hex, true)];
    TextIsDecoded(ws, ps, end);
    TextIsClean(ws, ps, end);
    BytesCount(HexDecoded(s), Values(ws));
    assert stages[1..] == [];
    JudgeDecides(stages, Ideal(s, stages), limit, if (|ws| + 1) / 2 > limit then CeilingExceeded else Within);
  }

  lemma BytesCount(bytes: seq<Byte>, ds: seq<Digit>)
    requires AreBytesOf(bytes, ds)
    ensures |bytes| == (|ds| + 1) / 2
  {
  }
}
