/** A word is read whole, whatever follows it that may. */
module LexerWords {
  import opened ContentLexer
  import opened LexerGrammar

  lemma RegularIsNoBreak(c: char)
    ensures IsRegular(c) <==> !IsBreak(c)
    ensures c in " \t\r\n\0" <==> IsSpace(c)
    ensures IsBound(c) <==> IsGap(c)
    ensures c in "0123456789" <==> IsDigit(c)
  {
  }

  /** One step inside a string. */
  lemma StringStep(s: string, j: nat, depth: nat)
    requires j < |s| && depth > 0
    ensures s[j] !in "()\\" ==> StringEnd(s, j, depth) == StringEnd(s, j + 1, depth)
    ensures s[j] == '(' ==> StringEnd(s, j, depth) == StringEnd(s, j + 1, depth + 1)
    ensures s[j] == ')' ==> StringEnd(s, j, depth) == StringEnd(s, j + 1, depth - 1)
    ensures s[j] == '\\' && j + 2 <= |s| ==> StringEnd(s, j, depth) == StringEnd(s, j + 2, depth)
  {
  }

  lemma {:induction false} BodyIsSkipped(b: Body, s: string, j: nat, depth: nat)
    requires IsBody(b) && depth > 0 && j + |BodyText(b)| <= |s| && s[j..j + |BodyText(b)|] == BodyText(b)
    ensures StringEnd(s, j, depth) == StringEnd(s, j + |BodyText(b)|, depth)
    decreases b, 1
  {
    hide StringEnd;
    match b
    case Nothing =>
    case Plain(c, rest) =>
      FrontIsSkipped([c], BodyText(rest), s, j, depth);
      BodyIsSkipped(rest, s, j + 1, depth);
    case Escaped(c, rest) =>
      FrontIsSkipped(['\\', c], BodyText(rest), s, j, depth);
      BodyIsSkipped(rest, s, j + 2, depth);
    case Nested(inner, rest) =>
      NestedIsSkipped(b, s, j, depth);
  }

  /** A character or an escaped one. */
  lemma FrontIsSkipped(v: string, t: string, s: string, j: nat, depth: nat)
    requires depth > 0 && j + |v + t| <= |s| && s[j..j + |v + t|] == v + t
    requires (|v| == 1 && v[0] !in "()\\") || (|v| == 2 && v[0] == '\\')
    ensures StringEnd(s, j, depth) == StringEnd(s, j + |v|, depth)
    ensures s[j + |v|..j + |v + t|] == t
  {
    hide StringEnd;
    PartsOf(s, j, v, t);
    assert s[j] == v[0];
    StringStep(s, j, depth);
  }

  lemma {:induction false} NestedIsSkipped(b: Body, s: string, j: nat, depth: nat)
    requires b.Nested? && IsBody(b.inner) && IsBody(b.rest) && depth > 0
    requires var t := "(" + BodyText(b.inner) + ")" + BodyText(b.rest); j + |t| <= |s| && s[j..j + |t|] == t
    ensures StringEnd(s, j, depth) == StringEnd(s, j + |BodyText(b.inner)| + 2 + |BodyText(b.rest)|, depth)
    decreases b, 0
  {
    hide StringEnd, BodyText, IsBody;
    NestedParts(s, j, BodyText(b.inner), BodyText(b.rest));
    var n := |BodyText(b.inner)|;
    StringStep(s, j, depth);
    BodyIsSkipped(b.inner, s, j + 1, depth + 1);
    StringStep(s, j + 1 + n, depth + 1);
    BodyIsSkipped(b.rest, s, j + n + 2, depth);
  }

  lemma NestedParts(s: string, j: nat, a: string, b: string)
    requires var t := "(" + a + ")" + b; j + |t| <= |s| && s[j..j + |t|] == t
    ensures s[j] == '(' && s[j + 1..j + 1 + |a|] == a && s[j + 1 + |a|] == ')'
    ensures s[j + |a| + 2..j + |a| + 2 + |b|] == b
  {
    PartsOf(s, j, "(" + a + ")", b);
    assert "(" + a + ")" == "(" + (a + ")");
    PartsOf(s, j, "(", a + ")");
    PartsOf(s, j + 1, a, ")");
  }

  lemma PartsOf(s: string, j: nat, a: string, b: string)
    requires j + |a| + |b| <= |s| && s[j..j + |a + b|] == a + b
    ensures s[j..j + |a|] == a && s[j + |a|..j + |a| + |b|] == b
    ensures forall i :: 0 <= i < |a| ==> s[j + i] == a[i]
    ensures forall i :: 0 <= i < |b| ==> s[j + |a| + i] == b[i]
  {
    var w := s[j..j + |a + b|];
    assert w[..|a|] == s[j..j + |a|] && w[|a|..] == s[j + |a|..j + |a| + |b|];
    assert forall i :: 0 <= i < |w| ==> w[i] == s[j + i];
  }

  /** Whatever follows, a string ends with the parenthesis that closes it. */
  lemma LiteralIsRead(b: Body, tail: string)
    requires IsBody(b)
    ensures LexOne("(" + BodyText(b) + ")" + tail) == One(Str, |BodyText(b)| + 2)
  {
    var t := BodyText(b);
    var s := "(" + t + ")" + tail;
    assert s[1..1 + |t|] == t && s[1 + |t|] == ')';
    BodyIsSkipped(b, s, 1, 1);
    assert StringEnd(s, 1 + |t|, 1) == StringEnd(s, 2 + |t|, 0);
  }

  lemma TailOf(s: string, j: nat, a: string, b: string)
    requires j <= |s| && s[j..] == a + b
    ensures j + |a| <= |s| && s[j..j + |a|] == a && s[j + |a|..] == b && (a != "" ==> s[j] == a[0])
  {
    assert s[j..][..|a|] == a && s[j..][|a|..] == b;
    assert s[j..][..|a|] == s[j..j + |a|];
  }

  lemma OpenEnd(s: string, j: nat, depth: nat)
    requires j <= |s| && depth > 0 && (s[j..] == "" || s[j..] == "\\")
    ensures StringEnd(s, j, depth) == (|s|, false)
  {
    if s[j..] != "" {
      assert s[j] == s[j..][0];
    }
  }

  /** A text that closes fewer parentheses than it opens is a string without end. */
  lemma {:induction false} OpenIsOpen(bodies: seq<Body>, slash: bool, s: string, j: nat, depth: nat)
    requires (forall i :: 0 <= i < |bodies| ==> IsBody(bodies[i])) && depth > 0
    requires j <= |s| && s[j..] == OpenText(bodies, slash)
    ensures StringEnd(s, j, depth) == (|s|, false)
    decreases |bodies|
  {
    hide StringEnd, BodyText, IsBody;
    if bodies == [] {
      OpenEnd(s, j, depth);
    } else {
      var t := BodyText(bodies[0]);
      assert forall i :: 0 <= i < |bodies| - 1 ==> bodies[1..][i] == bodies[i + 1];
      if |bodies| == 1 {
        TailOf(s, j, t, OpenText([], slash));
        BodyIsSkipped(bodies[0], s, j, depth);
        OpenIsOpen([], slash, s, j + |t|, depth);
      } else {
        OpensNext(bodies[0], OpenText(bodies[1..], slash), s, j, depth);
        OpenIsOpen(bodies[1..], slash, s, j + |t| + 1, depth + 1);
      }
    }
  }

  lemma OpensNext(b: Body, rest: string, s: string, j: nat, depth: nat)
    requires IsBody(b) && depth > 0 && j <= |s| && s[j..] == BodyText(b) + "(" + rest
    ensures var k := j + |BodyText(b)| + 1;
      k <= |s| && s[k..] == rest && StringEnd(s, j, depth) == StringEnd(s, k, depth + 1)
  {
    hide StringEnd, BodyText, IsBody;
    var t := BodyText(b);
    assert t + "(" + rest == t + ("(" + rest);
    TailOf(s, j, t, "(" + rest);
    BodyIsSkipped(b, s, j, depth);
    TailOf(s, j + |t|, "(", rest);
    StringStep(s, j + |t|, depth);
  }

  lemma OpenLiteralIsRead(bodies: seq<Body>, slash: bool)
    requires forall i :: 0 <= i < |bodies| ==> IsBody(bodies[i])
    ensures var s := "(" + OpenText(bodies, slash);
      LexOne(s) == Lexed([Piece(Str, 0, |s|)], |s|, true)
  {
    var s := "(" + OpenText(bodies, slash);
    assert s[1..] == OpenText(bodies, slash);
    OpenIsOpen(bodies, slash, s, 1, 1);
  }

  lemma {:induction false} WordEnds(s: string, j: nat, e: nat)
    requires j <= e <= |s| && (forall i :: j <= i < e ==> IsRegular(s[i])) && (e == |s| || !IsRegular(s[e]))
    ensures WordEnd(s, j) == e
    decreases e - j
  {
    if j < e {
      RegularIsNoBreak(s[j]);
      WordEnds(s, j + 1, e);
    } else if e < |s| {
      RegularIsNoBreak(s[e]);
    }
  }

  lemma {:induction false} LineEnds(s: string, j: nat, e: nat)
    requires j <= e <= |s| && (forall i :: j <= i < e ==> s[i] !in "\r\n") && (e == |s| || s[e] in "\r\n")
    ensures LineEnd(s, j) == e
    decreases e - j
  {
    if j < e {
      LineEnds(s, j + 1, e);
    }
  }

  lemma {:induction false} HexEnds(s: string, j: nat, e: nat)
    requires j <= e < |s| && (forall i :: j <= i < e ==> s[i] != '>') && s[e] == '>'
    ensures HexEnd(s, j) == (e + 1, true)
    decreases e - j
  {
    if j < e {
      HexEnds(s, j + 1, e);
    }
  }

  lemma {:induction false} DigitsEnd(s: string, j: nat, e: nat, hasDot: bool)
    requires j <= e <= |s| && forall i :: j <= i < e ==> s[i] in "0123456789"
    ensures NumberEnd(s, j, hasDot) == NumberEnd(s, e, hasDot)
    decreases e - j
  {
    if j < e {
      RegularIsNoBreak(s[j]);
      DigitsEnd(s, j + 1, e, hasDot);
    }
  }

  lemma {:induction false} NoImageEnd(s: string, k: nat, e: nat)
    requires k <= e <= |s| && (forall i :: k <= i < e ==> !EndsImage(s, i)) && EndsImage(s, e)
    ensures ImageEnd(s, k) == Some(e)
    decreases e - k
  {
    if k < e {
      NoImageEnd(s, k + 1, e);
    }
  }

  // How each kind of word is read.

  lemma RemarkIsRead(w: Word, tail: string)
    requires IsWord(w) && w.Remark? && Follows(w, tail)
    ensures LexOne(WordText(w) + tail) == One(Comment, |WordText(w)|)
  {
    var s := WordText(w) + tail;
    LineEnds(s, 1, |WordText(w)|);
  }

  lemma HexesAreRead(w: Word, tail: string)
    requires IsWord(w) && w.Hexes?
    ensures LexOne(WordText(w) + tail) == One(Str, |WordText(w)|)
  {
    var s := WordText(w) + tail;
    assert s[0] == '<' && s[1] == if w.digits == "" then '>' else w.digits[0];
    HexEnds(s, 1, |w.digits| + 1);
  }

  lemma LabelIsRead(w: Word, tail: string)
    requires IsWord(w) && w.Label? && Follows(w, tail)
    ensures LexOne(WordText(w) + tail) == One(Name, |WordText(w)|)
  {
    var s := WordText(w) + tail;
    WordEnds(s, 1, |WordText(w)|);
  }

  lemma MarkIsRead(w: Word, tail: string)
    requires IsWord(w) && w.Mark? && Follows(w, tail)
    ensures LexOne(WordText(w) + tail) == One(Operator, |WordText(w)|)
  {
    var s := WordText(w) + tail;
    if |w.text| == 1 {
      assert s[0] == w.text[0] && s[1..] == tail;
    } else {
      assert s[0] == w.text[0] && s[1] == w.text[1];
    }
  }

  lemma VerbIsRead(w: Word, tail: string)
    requires IsWord(w) && w.Verb? && Follows(w, tail)
    ensures LexOne(WordText(w) + tail) == One(Operator, |WordText(w)|)
  {
    var s, n := w.text + tail, |w.text|;
    assert forall i :: 0 <= i < n ==> s[i] == w.text[i];
    assert tail != "" ==> s[n] == tail[0];
    RegularIsNoBreak(s[0]);
    VerbIsNoNumber(w, tail);
    WordEnds(s, 1, n);
    assert n == 2 ==> s[..2] == w.text;
  }

  lemma VerbIsNoNumber(w: Word, tail: string)
    requires IsWord(w) && w.Verb? && Follows(w, tail)
    ensures !IsNumberStart(w.text + tail, 0)
  {
    var s, n := w.text + tail, |w.text|;
    assert forall i :: 0 <= i < n ==> s[i] == w.text[i];
    assert tail != "" ==> s[n] == tail[0];
    assert w.text[0] in "+-" ==> forall i :: 1 <= i < n ==> w.text[1..][i - 1] == w.text[i];
    forall i | 0 <= i < 3 && i < |s|
      ensures s[i] in "0123456789" <==> IsDigit(s[i])
    {
      RegularIsNoBreak(s[i]);
    }
  }

  /** Where a number ends: past its digits and its point. */
  lemma NumberEnds(s: string, a: nat, b: nat, c: nat, e: nat)
    requires a <= b <= c <= e <= |s| && c <= b + 1
    requires (forall i :: a <= i < b ==> s[i] in "0123456789") && (forall i :: c <= i < e ==> s[i] in "0123456789")
    requires if b < c then s[b] == '.' else c == e
    requires e < |s| ==> s[e] !in "0123456789" && (b < c || s[e] != '.')
    ensures NumberEnd(s, a, false) == e
  {
    DigitsEnd(s, a, b, false);
    DigitsEnd(s, c, e, b < c);
    if e < |s| {
      RegularIsNoBreak(s[e]);
    }
  }

  lemma TwoParts(x: string, y: string)
    ensures (x + y)[..|x|] == x && (x + y)[|x|..|x| + |y|] == y
    ensures forall i, j :: 0 <= i <= j <= |x| ==> (x + y)[i..j] == x[i..j]
  {
    forall i, j | 0 <= i <= j <= |x|
      ensures (x + y)[i..j] == x[i..j]
    {
    }
  }

  /** Where the parts of a text stand. */
  lemma FiveParts(a: string, b: string, c: string, d: string, e: string)
    ensures var s, i := a + b + c + d + e, |a|;
      var j := i + |b|;
      var k := j + |c|;
      var n := k + |d|;
      && |s| == n + |e| && s[0..i] == a && s[i..j] == b && s[j..k] == c && s[k..n] == d && s[n..n + |e|] == e
  {
    var s := a + b + c + d + e;
    TwoParts(a, b);
    TwoParts(a + b, c);
    TwoParts(a + b + c, d);
    TwoParts(a + b + c + d, e);
  }

  lemma SliceAt(s: string, i: nat, j: nat, a: string)
    requires i <= j <= |s| && s[i..j] == a
    ensures forall k :: i <= k < j ==> s[k] == a[k - i]
  {
  }

  lemma NumeralIsRead(w: Word, tail: string)
    requires IsWord(w) && w.Numeral? && Follows(w, tail)
    ensures LexOne(WordText(w) + tail) == One(Number, |WordText(w)|)
  {
    hide LexOne;
    var dot := if w.point then "." else "";
    FiveParts(w.sign, w.whole, dot, w.fraction, tail);
    var s := w.sign + w.whole + dot + w.fraction + tail;
    SliceAt(s, 0, |w.sign|, w.sign);
    SliceAt(s, |w.sign| + |w.whole|, |w.sign| + |w.whole| + |dot|, dot);
    NumeralAt(s, |w.sign|, w.whole, w.point, w.fraction, |WordText(w)|);
  }

  lemma NumeralAt(s: string, a: nat, whole: string, point: bool, fraction: string, e: nat)
    requires a <= 1 && (a == 1 ==> s != "" && s[0] in "+-") && AllDigits(whole) && AllDigits(fraction)
    requires whole != "" || fraction != ""
    requires !point ==> fraction == ""
    requires var b := a + |whole|;
      var c := if point then b + 1 else b;
      && e == c + |fraction| <= |s| && s[a..b] == whole && (point ==> s[b] == '.') && s[c..e] == fraction
    requires e < |s| ==> s[e] !in "0123456789" && (point || s[e] != '.')
    ensures LexOne(s) == One(Number, e)
  {
    hide LexOne, NumberEnd;
    var b := a + |whole|;
    var c := if point then b + 1 else b;
    SliceAt(s, a, b, whole);
    SliceAt(s, c, e, fraction);
    NumberEnds(s, a, b, c, e);
    NumeralStarts(s, a, b, c, e);
  }

  /** A number is not taken for anything else. */
  lemma NumeralStarts(s: string, a: nat, b: nat, c: nat, e: nat)
    requires a <= b <= c <= e <= |s| && a <= 1 && c <= b + 1 && (a < b || c < e)
    requires (forall i :: a <= i < b ==> s[i] in "0123456789") && (forall i :: c <= i < e ==> s[i] in "0123456789")
    requires if b < c then s[b] == '.' else c == e
    requires a == 1 ==> s[0] in "+-"
    requires NumberEnd(s, a, false) == e
    ensures LexOne(s) == One(Number, e)
  {
    hide NumberEnd, LineEnd, WordEnd, HexEnd, StringEnd, LexImage;
    if a < b {
      assert s[a] in "0123456789";
      RegularIsNoBreak(s[a]);
    } else {
      assert s[a] == '.' && s[a + 1] in "0123456789";
      RegularIsNoBreak(s[a + 1]);
    }
    assert IsNumberStart(s, 0);
    assert s[0] == '-' || s[0] == '+' <==> a == 1;
  }

  // Inline images.

  lemma NoEndWithin(s: string, d: nat, e: nat, i: nat)
    requires 2 <= d <= i < e <= |s| && HoldsNoEnd(s[d..e]) && (e < |s| ==> IsBound(s[e]))
    ensures !EndsImage(s, i)
  {
    var data, n := s[d..e], i - d;
    SliceAt(s, d, e, data);
    RegularIsNoBreak(s[i - 1]);
    if i + 2 < |s| {
      RegularIsNoBreak(s[i + 2]);
    }
    if i + 1 == e {
      assert e < |s| ==> s[e] != 'I';
    } else {
      assert !StandsAlone(data, n);
    }
  }

  /** The first EI that ends an image is the one after the data and the white space that bounds it. */
  lemma PictureEnds(s: string, d: nat, e: nat, k: nat)
    requires 2 <= d <= e <= k && k + 2 <= |s| && s[k] == 'E' && s[k + 1] == 'I' && HoldsNoEnd(s[d..e])
    requires (d < e ==> e < k) && IsBound(s[k - 1]) && (forall i :: e <= i < k ==> IsBound(s[i]))
    requires k + 2 < |s| ==> IsBound(s[k + 2])
    ensures EndsImage(s, k) && ImageEnd(s, d) == Some(k)
  {
    hide ImageEnd;
    forall i | d <= i < k
      ensures !EndsImage(s, i)
    {
      if i < e {
        NoEndWithin(s, d, e, i);
      } else {
        assert s[i] != 'E';
      }
    }
    NoImageEnd(s, d, k);
  }

  /** Where data bounded by white space starts and ends. */
  lemma PictureBounds(s: string, first: Gap, last: Gap, d: nat, e: nat, k: nat)
    requires d == 2 + |GapText(first)| <= e <= k == e + |GapText(last)| < |s|
    requires last != Single(Null) && EndsImage(s, k) && StartsData(first, s[d..e])
    requires s[2..d] == GapText(first) && s[e..k] == GapText(last)
    requires (last == NoGap ==> d == e > 2) && (last == Single(LineFeed) && d < e ==> s[e - 1] != '\r')
    requires first == NoGap ==> d < e
    ensures if d < e then DataStart(s) == d && DataEnd(s, d, k) == e else d <= DataStart(s) <= k
    ensures d == e ==> DataEnd(s, DataStart(s), k) == DataStart(s)
  {
    assert d < e ==> s[d] == s[d..e][0];
    assert (d > 2 ==> s[2] == s[2..d][0]) && (d == 4 ==> s[3] == s[2..d][1]);
    assert (e < k ==> s[e] == s[e..k][0]) && (k == e + 2 ==> s[e + 1] == s[e..k][1]);
  }

  lemma PictureIsRead(w: Word, tail: string)
    requires IsWord(w) && w.Picture? && Follows(w, tail)
    ensures var s, d := WordText(w) + tail, 2 + |GapText(w.first)|;
      var e, k := d + |w.data|, |WordText(w)| - 2;
      && s[..2] == "ID" && s[k..k + 2] == "EI" && d <= e <= k && s[d..e] == w.data
      && LexOne(s) == Lexed([Piece(Operator, 0, 2)] + (if w.data == "" then [] else [Piece(Str, d, e)])
                            + [Piece(Operator, k, k + 2)], k + 2, false)
  {
    hide LexOne, HoldsNoEnd, GapText;
    var a, b := GapText(w.first), GapText(w.last);
    FiveParts("ID", a, w.data, b, "EI");
    var v := WordText(w);
    TwoParts(v, tail);
    assert (v + tail)[..2] == v[0..2];
    GapIsBound(w.first);
    GapIsBound(w.last);
    if w.data != "" {
      LastOfData(w, tail);
    }
    PictureIsTaken(v + tail, w.first, w.last, 2 + |a|, 2 + |a| + |w.data|, |v| - 2);
  }

  lemma LastOfData(w: Word, tail: string)
    requires w.Picture? && w.data != ""
    ensures (WordText(w) + tail)[1 + |GapText(w.first)| + |w.data|] == w.data[|w.data| - 1]
  {
  }

  lemma GapIsBound(g: Gap)
    requires g != Single(Null)
    ensures (GapText(g) == "" <==> g == NoGap) && forall i :: 0 <= i < |GapText(g)| ==> IsBound(GapText(g)[i])
  {
  }

  lemma PictureIsTaken(s: string, first: Gap, last: Gap, d: nat, e: nat, k: nat)
    requires d == 2 + |GapText(first)| <= e <= k == e + |GapText(last)| && k + 2 <= |s|
    requires s[..2] == "ID" && s[2..d] == GapText(first) && s[e..k] == GapText(last) && s[k..k + 2] == "EI"
    requires last != Single(Null) && StartsData(first, s[d..e]) && HoldsNoEnd(s[d..e])
    requires k + 2 < |s| ==> IsBound(s[k + 2])
    requires (last == NoGap ==> d == e > 2) && (last == Single(LineFeed) && d < e ==> s[e - 1] != '\r')
    requires first == NoGap ==> d < e
    ensures LexOne(s) == Lexed([Piece(Operator, 0, 2)] + (if d == e then [] else [Piece(Str, d, e)])
                               + [Piece(Operator, k, k + 2)], k + 2, false)
  {
    hide LexOne, EndsImage, ImageEnd, DataStart, DataEnd, HoldsNoEnd, GapText;
    GapIsBound(first);
    GapIsBound(last);
    assert s[k] == s[k..k + 2][0] && s[k + 1] == s[k..k + 2][1];
    assert d > 2 ==> s[d - 1] == s[2..d][d - 3] && s[2] == s[2..d][0];
    assert d < e ==> s[d] == s[d..e][0];
    assert forall i :: e <= i < k ==> s[i] == s[e..k][i - e];
    PictureEnds(s, d, e, k);
    PictureBounds(s, first, last, d, e, k);
    SkipsToEnd(s, d, k);
    IdIsRead(s);
  }

  /** Starting later, but not past it, finds the same end. */
  lemma {:induction false} SkipsToEnd(s: string, d: nat, k: nat)
    requires d <= k <= |s| && ImageEnd(s, d) == Some(k)
    ensures forall d' :: d <= d' <= k ==> ImageEnd(s, d') == Some(k)
    decreases k - d
  {
    hide EndsImage;
    if d < k {
      SkipsToEnd(s, d + 1, k);
    }
  }

  lemma IdIsRead(s: string)
    requires |s| >= 2 && s[..2] == "ID" && (|s| > 2 ==> !IsRegular(s[2]))
    ensures LexOne(s) == LexImage(s)
  {
    hide LexImage, LineEnd, HexEnd, StringEnd, NumberEnd;
    assert s[0] == s[..2][0] && s[1] == s[..2][1];
    WordEnds(s, 1, 2);
  }
}
