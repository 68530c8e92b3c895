/** UTF-16 code units: reading them as codepoints, with unpaired surrogates kept. */
module Utf16 {

  type CodeUnit = u: int | 0 <= u < 0x1_0000 witness 0

  predicate IsHigh(u: int) {
    0xD800 <= u <= 0xDBFF
  }

  predicate IsLow(u: int) {
    0xDC00 <= u <= 0xDFFF
  }

  /** The codepoint of a surrogate pair. */
  function Pair(high: CodeUnit, low: CodeUnit): (cp: int)
    requires IsHigh(high) && IsLow(low)
    ensures 0x1_0000 <= cp <= 0x10_FFFF
  {
    0x1_0000 + (high - 0xD800) * 0x400 + (low - 0xDC00)
  }

  /** A codepoint, or an unpaired surrogate standing for itself. */
  predicate IsCode(cp: int) {
    0 <= cp <= 0x10_FFFF
  }

  /** The code units that write one codepoint. */
  function EncodeOne(cp: int): seq<CodeUnit>
    requires IsCode(cp)
  {
    if cp < 0x1_0000 then [cp]
    else [0xD800 + (cp - 0x1_0000) / 0x400, 0xDC00 + (cp - 0x1_0000) % 0x400]
  }

  predicate AreCodes(cps: seq<int>) {
    forall i :: 0 <= i < |cps| ==> IsCode(cps[i])
  }

  function Encode(cps: seq<int>): seq<CodeUnit>
    requires AreCodes(cps)
  {
    if cps == [] then [] else EncodeOne(cps[0]) + Encode(cps[1..])
  }

  /** How many units the codepoint at the front takes. */
  function FrontLength(units: seq<CodeUnit>): nat
    requires units != []
  {
    if IsHigh(units[0]) && |units| > 1 && IsLow(units[1]) then 2 else 1
  }

  function Front(units: seq<CodeUnit>): int
    requires units != []
  {
    if FrontLength(units) == 2 then Pair(units[0], units[1]) else units[0]
  }

  /** The codepoints of a unit sequence. */
  function Decoded(units: seq<CodeUnit>): (cps: seq<int>)
    ensures AreCodes(cps)
  {
    if units == [] then [] else [Front(units)] + Decoded(units[FrontLength(units)..])
  }

  /** Reading loses nothing: writing the codepoints again gives the same units, unpaired surrogates included. */
  lemma {:induction false} DecodeIsLossless(units: seq<CodeUnit>)
    ensures Encode(Decoded(units)) == units
  {
    if units != [] {
      var n := FrontLength(units);
      DecodeIsLossless(units[n..]);
      assert EncodeOne(Front(units)) == units[..n];
      assert Decoded(units)[1..] == Decoded(units[n..]);
      assert units == units[..n] + units[n..];
    }
  }

  /** No high surrogate standing for itself comes right before a low one. */
  predicate Separated(cps: seq<int>) {
    forall i :: 0 <= i < |cps| - 1 ==> !(IsHigh(cps[i]) && IsLow(cps[i + 1]))
  }

  lemma {:induction false} DecodedIsSeparated(units: seq<CodeUnit>)
    ensures Separated(Decoded(units))
  {
    if units != [] {
      var rest := units[FrontLength(units)..];
      DecodedIsSeparated(rest);
      assert Decoded(units) == [Front(units)] + Decoded(rest);
    }
  }

  /** Codepoints come back from their units exactly when no two of them read as a pair. */
  lemma {:induction false} EncodeIsReadBack(cps: seq<int>)
    requires AreCodes(cps)
    ensures Decoded(Encode(cps)) == cps <==> Separated(cps)
  {
    if Separated(cps) {
      SeparatedIsReadBack(cps);
    } else if Decoded(Encode(cps)) == cps {
      DecodedIsSeparated(Encode(cps));
    }
  }

  lemma {:induction false} SeparatedIsReadBack(cps: seq<int>)
    requires AreCodes(cps) && Separated(cps)
    ensures Decoded(Encode(cps)) == cps
  {
    if cps != [] {
      var rest := cps[1..];
      SeparatedIsReadBack(rest);
      var units := Encode(cps);
      assert units == EncodeOne(cps[0]) + Encode(rest);
      if rest != [] {
        assert Encode(rest)[0] == EncodeOne(rest[0])[0];
      }
      assert Front(units) == cps[0] && units[FrontLength(units)..] == Encode(rest);
      assert cps == [cps[0]] + rest;
    }
  }

  lemma DecodedStep(units: seq<CodeUnit>, i: nat)
    requires i < |units|
    ensures var n := FrontLength(units[i..]);
      i + n <= |units| && Decoded(units[i..]) == [Front(units[i..])] + Decoded(units[i + n..])
  {
    var n := FrontLength(units[i..]);
    assert units[i..][n..] == units[i + n..];
  }

  /** Reads the units from front to back. */
  method Decode(units: seq<CodeUnit>) returns (cps: seq<int>)
    ensures cps == Decoded(units) && AreCodes(cps) && Encode(cps) == units
  {
    hide Decoded, Encode;
    cps := [];
    var i := 0;
    assert units[0..] == units && units[|units|..] == [];
    while i < |units|
      invariant 0 <= i <= |units|
      invariant Decoded(units) == cps + Decoded(units[i..])
    {
      DecodedStep(units, i);
      var u := units[i];
      if IsHigh(u) {
        if i + 1 < |units| {
          var low := units[i + 1];
          if IsLow(low) {
            cps := cps + [Pair(u, low)];
            i := i + 2;
            continue;
          }
        }
        cps := cps + [u];
        i := i + 1;
        continue;
      }
      if IsLow(u) {
        cps := cps + [u];
        i := i + 1;
        continue;
      }
      cps := cps + [u];
      i := i + 1;
    }
    DecodedNothing();
    DecodeIsLossless(units);
  }

  lemma DecodedNothing()
    ensures Decoded([]) == []
  {
  }
}
