/** The bfrange blocks of a ToUnicode CMap: ranges of character codes mapped to consecutive UTF-16 sequences, or to
    a list of them. */
module BfRange {
  import opened Utf16

  type Byte = b: int | 0 <= b < 256 witness 0

  /** A token of the block: a hex literal with its bytes, one that is malformed, or a bracketed list. */
  datatype Token = Hex(bytes: seq<Byte>) | Malformed | Bracketed(items: seq<Token>)

  datatype Mapping = Mapping(code: nat, text: seq<int>)

  datatype Error = NotHex | HighBelowLow | SpanTooWide | OddBase

  datatype Result<T> = Ok(value: T) | Err(error: Error)

  const MAX_SPAN := 65536

  // Sequences of units as numbers.

  function Power(n: nat): (p: nat)
    ensures p > 0
  {
    if n == 0 then 1 else 0x1_0000 * Power(n - 1)
  }

  /** The number whose base-65536 digits are the units, the most significant first. */
  function Value(units: seq<CodeUnit>): nat {
    if units == [] then 0 else Value(units[..|units| - 1]) * 0x1_0000 + units[|units| - 1]
  }

  /** The last n base-65536 digits of v. */
  function Digits(v: nat, n: nat): (units: seq<CodeUnit>)
    ensures |units| == n
  {
    if n == 0 then [] else Digits(v / 0x1_0000, n - 1) + [v % 0x1_0000]
  }

  lemma {:induction false} ValueIsBelowPower(units: seq<CodeUnit>)
    ensures Value(units) < Power(|units|)
  {
    if units != [] {
      ValueIsBelowPower(units[..|units| - 1]);
    }
  }

  lemma {:induction false} DigitsOfValue(units: seq<CodeUnit>)
    ensures Digits(Value(units), |units|) == units
  {
    if units != [] {
      var n := |units| - 1;
      DigitsOfValue(units[..n]);
      assert Value(units) / 0x1_0000 == Value(units[..n]);
      assert units == units[..n] + [units[n]];
    }
  }

  lemma {:induction false} ValueOfDigits(v: nat, n: nat)
    requires v < Power(n)
    ensures Value(Digits(v, n)) == v
  {
    if n > 0 {
      ValueOfDigits(v / 0x1_0000, n - 1);
      var d := Digits(v, n);
      assert d[..n - 1] == Digits(v / 0x1_0000, n - 1);
    }
  }

  /** The units after delta is added at the tail and carried upwards, and the carry out of the leading unit. */
  function Added(units: seq<CodeUnit>, delta: nat): (r: (seq<CodeUnit>, nat))
    ensures |r.0| == |units|
  {
    if units == [] then ([], delta)
    else
      var n := |units| - 1;
      var sum := units[n] + delta;
      var upper := Added(units[..n], sum / 0x1_0000);
      (upper.0 + [sum % 0x1_0000], upper.1)
  }

  /** Adding is exact, the carry counting once per whole cycle of the units. */
  lemma {:induction false} AddedIsExact(units: seq<CodeUnit>, delta: nat)
    ensures var r := Added(units, delta);
      Value(r.0) + r.1 * Power(|units|) == Value(units) + delta
  {
    if units != [] {
      var n := |units| - 1;
      var sum := units[n] + delta;
      var upper := Added(units[..n], sum / 0x1_0000);
      AddedIsExact(units[..n], sum / 0x1_0000);
      assert Added(units, delta).0[..n] == upper.0;
      Scale(upper.1, Power(n));
    }
  }

  lemma Scale(a: nat, b: nat)
    ensures a * (0x1_0000 * b) == (a * b) * 0x1_0000
  {
  }

  /** There is no carry exactly when the sum still fits, and then the units are the sum's digits. */
  lemma AddedFits(units: seq<CodeUnit>, delta: nat)
    ensures var r := Added(units, delta);
      && (r.1 == 0 <==> Value(units) + delta < Power(|units|))
      && (r.1 == 0 ==> r.0 == Digits(Value(units) + delta, |units|))
  {
    var r := Added(units, delta);
    AddedIsExact(units, delta);
    ValueIsBelowPower(r.0);
    if r.1 > 0 {
      AtLeastOne(r.1, Power(|units|));
    } else {
      DigitsOfValue(r.0);
    }
  }

  lemma AtLeastOne(a: nat, b: nat)
    requires a > 0
    ensures a * b >= b
  {
  }

  lemma {:induction false} AddedNothing(units: seq<CodeUnit>)
    ensures Added(units, 0) == (units, 0)
  {
    if units != [] {
      var n := |units| - 1;
      AddedNothing(units[..n]);
      assert units == units[..n] + [units[n]];
      assert (units[n] + 0) / 0x1_0000 == 0 && (units[n] + 0) % 0x1_0000 == units[n];
    }
  }

  lemma AddedStep(units: seq<CodeUnit>, j: nat, carry: nat)
    requires j < |units|
    ensures var sum := units[j] + carry;
      var upper := Added(units[..j], sum / 0x1_0000);
      Added(units[..j + 1], carry).0 == upper.0 + [sum % 0x1_0000] && Added(units[..j + 1], carry).1 == upper.1
  {
    assert units[..j + 1][..j] == units[..j];
  }

  /** Adds delta to a copy of the units, from the tail, until nothing is left to carry. */
  method Advance(units: seq<CodeUnit>, delta: nat) returns (advanced: array<CodeUnit>, carry: nat)
    requires units != []
    ensures fresh(advanced)
    ensures (advanced[..], carry) == Added(units, delta)
  {
    hide Added, Power, Value, Digits;
    var n := |units|;
    advanced := new CodeUnit[n](i requires 0 <= i < n => units[i]);
    assert units == units[..n];
    AddedStep(units, n - 1, delta);
    var tail := advanced[n - 1] + delta;
    advanced[n - 1] := tail % 0x1_0000;
    carry := tail / 0x1_0000;
    var j := n - 2;
    ghost var done: seq<CodeUnit> := [tail % 0x1_0000];
    while j >= 0 && carry > 0
      invariant -1 <= j <= n - 2 && |done| == n - 1 - j
      invariant forall i :: 0 <= i <= j ==> advanced[i] == units[i]
      invariant forall i :: j < i < n ==> advanced[i] == done[i - j - 1]
      invariant Added(units, delta).0 == Added(units[..j + 1], carry).0 + done
      invariant Added(units, delta).1 == Added(units[..j + 1], carry).1
    {
      AddedStep(units, j, carry);
      var sum := advanced[j] + carry;
      advanced[j] := sum % 0x1_0000;
      carry := sum / 0x1_0000;
      done := [sum % 0x1_0000] + done;
      j := j - 1;
    }
    if carry == 0 {
      AddedNothing(units[..j + 1]);
    } else {
      AddedToNone(carry);
    }
    Assembled(advanced[..], units[..j + 1], done);
  }

  lemma Assembled(all: seq<CodeUnit>, before: seq<CodeUnit>, done: seq<CodeUnit>)
    requires |all| == |before| + |done|
    requires forall i :: 0 <= i < |before| ==> all[i] == before[i]
    requires forall i :: 0 <= i < |done| ==> all[|before| + i] == done[i]
    ensures all == before + done
  {
  }

  lemma AddedToNone(delta: nat)
    ensures Added([], delta) == ([], delta)
  {
  }

  // Ranges.

  /** The big-endian number of a character code's bytes. */
  function Code(bytes: seq<Byte>): nat {
    if bytes == [] then 0 else Code(bytes[..|bytes| - 1]) * 0x100 + bytes[|bytes| - 1]
  }

  function CodeOf(t: Token): Result<nat> {
    if t.Hex? then Ok(Code(t.bytes)) else Err(NotHex)
  }

  function UnitOf(high: Byte, low: Byte): CodeUnit {
    high * 0x100 + low
  }

  function Units(bytes: seq<Byte>): (units: seq<CodeUnit>)
    requires |bytes| % 2 == 0
    ensures |units| == |bytes| / 2
  {
    seq(|bytes| / 2, i requires 0 <= i < |bytes| / 2 => UnitOf(bytes[2 * i], bytes[2 * i + 1]))
  }

  /** The text of a listed literal: a lone byte, or an odd one at the front, is the low half of its unit. */
  function TextOf(t: Token): seq<int> {
    if !t.Hex? then []
    else if |t.bytes| % 2 == 1 then Decoded(Units([0] + t.bytes))
    else Decoded(Units(t.bytes))
  }

  function Min(a: nat, b: nat): nat {
    if a < b then a else b
  }

  /** How many codes of a range get a text: all of them, or as many as leave the leading unit without a carry. */
  function Emitted(low: nat, high: nat, base: seq<CodeUnit>): nat
    requires low <= high
  {
    ValueIsBelowPower(base);
    Min(high - low + 1, Power(|base|) - Value(base))
  }

  /** The first n codes from low, the k-th mapped to the units of the base's number plus k. */
  function Sequential(low: nat, base: seq<CodeUnit>, n: nat): (r: seq<Mapping>)
    ensures |r| == n
  {
    seq(n, k requires 0 <= k < n => Mapping(low + k, Decoded(Digits(Value(base) + k, |base|))))
  }

  function Listed(low: nat, items: seq<Token>, n: nat): (r: seq<Mapping>)
    requires n <= |items|
    ensures |r| == n
  {
    seq(n, k requires 0 <= k < n => Mapping(low + k, TextOf(items[k])))
  }

  /** The mappings of one range, or what is wrong with it. */
  function RangeOf(low: Token, high: Token, third: Token): Result<seq<Mapping>> {
    if CodeOf(low).Err? || CodeOf(high).Err? then Err(NotHex)
    else
      var l, h := CodeOf(low).value, CodeOf(high).value;
      if h < l then Err(HighBelowLow)
      else if h - l + 1 > MAX_SPAN then Err(SpanTooWide)
      else
        match third
        case Bracketed(items) => Ok(Listed(l, items, Min(h - l + 1, |items|)))
        case Malformed => Err(NotHex)
        case Hex(bytes) =>
          if |bytes| % 2 != 0 then Err(OddBase)
          else if bytes == [] then Ok([])
          else Ok(Sequential(l, Units(bytes), Emitted(l, h, Units(bytes))))
  }

  /** The mappings of the first n ranges of a block, in order, up to the first error. */
  function RangesOf(tokens: seq<Token>, n: nat): Result<seq<Mapping>>
    requires 3 * n <= |tokens|
  {
    if n == 0 then Ok([])
    else
      match RangesOf(tokens, n - 1)
      case Err(e) => Err(e)
      case Ok(before) =>
        match RangeOf(tokens[3 * n - 3], tokens[3 * n - 2], tokens[3 * n - 1])
        case Err(e) => Err(e)
        case Ok(range) => Ok(before + range)
  }

  lemma {:induction false} ErrorStays(tokens: seq<Token>, m: nat, n: nat)
    requires m <= n && 3 * n <= |tokens| && RangesOf(tokens, m).Err?
    ensures RangesOf(tokens, n) == RangesOf(tokens, m)
    decreases n
  {
    if m < n {
      ErrorStays(tokens, m, n - 1);
    }
  }

  /** What the texts of a range are: the units written out are the base's number plus the distance from low, and
      the range stops early only where the next number would need one unit more. */
  lemma SequentialIsExact(low: nat, high: nat, base: seq<CodeUnit>, k: nat)
    requires low <= high && k < Emitted(low, high, base)
    ensures var m := Sequential(low, base, Emitted(low, high, base))[k];
      && m.code == low + k && AreCodes(m.text)
      && |Encode(m.text)| == |base| && Value(Encode(m.text)) == Value(base) + k
    ensures Emitted(low, high, base) < high - low + 1 ==> Value(base) + Emitted(low, high, base) == Power(|base|)
  {
    hide Decoded, Encode, Value, Digits, Power;
    ValueIsBelowPower(base);
    var units := Digits(Value(base) + k, |base|);
    ValueOfDigits(Value(base) + k, |base|);
    DecodeIsLossless(units);
    assert Sequential(low, base, Emitted(low, high, base))[k] == Mapping(low + k, Decoded(units));
  }

  /** Ranges are read three tokens at a time; what is left over is ignored. */
  method ParseBfrange(tokens: seq<Token>) returns (r: Result<seq<Mapping>>)
    ensures r == RangesOf(tokens, |tokens| / 3)
  {
    hide RangeOf;
    var out: seq<Mapping> := [];
    var i := 0;
    while i + 2 < |tokens|
      invariant i % 3 == 0 && i / 3 <= |tokens| / 3
      invariant RangesOf(tokens, i / 3) == Ok(out)
    {
      ghost var n := i / 3 + 1;
      var range := ParseRange(tokens[i], tokens[i + 1], tokens[i + 2]);
      assert RangesOf(tokens, n) == match range case Err(e) => Err(e) case Ok(v) => Ok(out + v);
      if range.Err? {
        ErrorStays(tokens, n, |tokens| / 3);
        return Err(range.error);
      }
      out := out + range.value;
      i := i + 3;
    }
    return Ok(out);
  }

  method ParseRange(lowToken: Token, highToken: Token, third: Token) returns (r: Result<seq<Mapping>>)
    ensures r == RangeOf(lowToken, highToken, third)
  {
    hide Decoded, Value, Digits, Code, Power;
    if !lowToken.Hex? || !highToken.Hex? {
      return Err(NotHex);
    }
    var low, high := Code(lowToken.bytes), Code(highToken.bytes);
    if high < low {
      return Err(HighBelowLow);
    }
    if high - low + 1 > MAX_SPAN {
      return Err(SpanTooWide);
    }
    var out: seq<Mapping> := [];
    match third {
      case Bracketed(items) =>
        var k := low;
        while k <= high && k - low < |items|
          invariant low <= k <= high + 1 && k - low <= |items|
          invariant out == Listed(low, items, k - low)
        {
          out := out + [Mapping(k, TextOf(items[k - low]))];
          k := k + 1;
        }
      case Malformed =>
        return Err(NotHex);
      case Hex(bytes) =>
        if |bytes| % 2 != 0 {
          return Err(OddBase);
        }
        var units := Units(bytes);
        if units == [] {
          return Ok([]);
        }
        out := Expand(low, high, units);
    }
    return Ok(out);
  }

  /** The sequential form: each code's units are the base's with the distance from low added, until the leading
      unit overflows. */
  method Expand(low: nat, high: nat, units: seq<CodeUnit>) returns (out: seq<Mapping>)
    requires low <= high && units != []
    ensures out == Sequential(low, units, Emitted(low, high, units))
  {
    hide Decoded, Value, Digits, Power, Added;
    out := [];
    var k := low;
    ValueIsBelowPower(units);
    while k <= high
      invariant low <= k <= high + 1 && k - low <= Power(|units|) - Value(units)
      invariant out == Sequential(low, units, k - low)
    {
      var advanced, carry := Advance(units, k - low);
      AddedFits(units, k - low);
      if carry > 0 {
        break;
      }
      var text := Decode(advanced[..]);
      out := out + [Mapping(k, text)];
      k := k + 1;
    }
  }
}
