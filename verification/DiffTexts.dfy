/** What the comparison texts of the diff tell apart. */
module DiffTexts {
  import opened PdfObjects
  import opened DiffWalk

  /** Two nested values that look the same in a summary: containers of one sort, any two references, or the same
      scalar. */
  predicate LookAlike(x: Obj, y: Obj) {
    match x
    case Dict(_) => y.Dict? || y.Stream?
    case Stream(_) => y.Dict? || y.Stream?
    case Array(_) => y.Array?
    case Ref(_, _) => y.Ref?
    case Scalar(raw) => y == Scalar(raw)
    case Null => y.Null?
  }

  predicate EntriesAlike(a: map<string, Obj>, b: map<string, Obj>) {
    a.Keys == b.Keys && forall k :: k in a ==> LookAlike(a[k], b[k])
  }

  /** Two values with the same keys, or as many elements, whose entries look alike one by one. */
  predicate Alike(x: Obj, y: Obj) {
    match x
    case Dict(m) => y.Dict? && EntriesAlike(m, y.entries)
    case Stream(m) => y.Stream? && EntriesAlike(m, y.entries)
    case Array(a) => y.Array? && |a| == |y.elems| && forall i :: 0 <= i < |a| ==> LookAlike(a[i], y.elems[i])
    case Ref(_, _) => y.Ref?
    case Scalar(raw) => y == Scalar(raw)
    case Null => y.Null?
  }

  /** A text without blanks. */
  predicate IsSolid(s: string) {
    forall i :: 0 <= i < |s| ==> s[i] != ' '
  }

  predicate IsPlain(x: Obj) {
    x.Scalar? ==> IsSolid(x.raw) && x.raw !in {"<<...>>", "[...]", "<ref>", "null"}
  }

  /** No text in the value or in its entries has a blank in it, or is the token for another value. */
  predicate IsTellable(x: Obj) {
    match x
    case Dict(m) => forall k :: k in m ==> IsSolid(k) && IsPlain(m[k])
    case Stream(m) => forall k :: k in m ==> IsSolid(k) && IsPlain(m[k])
    case Array(a) => forall i :: 0 <= i < |a| ==> IsPlain(a[i])
    case _ => IsPlain(x)
  }

  // Words after blanks can be told apart.

  function Listing(words: seq<string>): string {
    if words == [] then "" else Listing(words[..|words| - 1]) + (" " + words[|words| - 1])
  }

  predicate AllSolid(words: seq<string>) {
    forall i :: 0 <= i < |words| ==> IsSolid(words[i])
  }

  lemma LastWord(s: string, a: string, t: string, b: string)
    requires IsSolid(a) && IsSolid(b) && s + (" " + a) == t + (" " + b)
    ensures a == b && s == t
  {
    var x, y := s + (" " + a), t + (" " + b);
    assert x[|s|] == ' ' && y[|t|] == ' ';
    forall i | |s| < i < |x|
      ensures x[i] != ' '
    {
      assert x[i] == a[i - |s| - 1];
    }
    forall i | |t| < i < |y|
      ensures y[i] != ' '
    {
      assert y[i] == b[i - |t| - 1];
    }
    assert |s| == |t|;
    assert s == x[..|s|] && t == y[..|t|];
    assert a == x[|s| + 1..] && b == y[|t| + 1..];
  }

  lemma {:induction false} ListingIsRead(a: seq<string>, b: seq<string>)
    requires AllSolid(a) && AllSolid(b) && Listing(a) == Listing(b)
    ensures a == b
    decreases |a|
  {
    hide IsSolid;
    if a != [] && b != [] {
      var m, n := |a| - 1, |b| - 1;
      LastWord(Listing(a[..m]), a[m], Listing(b[..n]), b[n]);
      ListingIsRead(a[..m], b[..n]);
      assert a == a[..m] + [a[m]] && b == b[..n] + [b[n]];
    }
  }

  lemma ListingPush(words: seq<string>, w: string)
    ensures Listing(words + [w]) == Listing(words) + (" " + w)
  {
    assert (words + [w])[..|words|] == words;
  }

  // The words of the comparison texts.

  function EntryWords(m: map<string, Obj>, keys: seq<string>, n: nat): (words: seq<string>)
    requires n <= |keys| && forall k :: k in keys ==> k in m
    ensures |words| == n + n
  {
    if n == 0 then [] else EntryWords(m, keys, n - 1) + ["/" + keys[n - 1]] + [ShallowValue(m[keys[n - 1]])]
  }

  function ElemWords(a: seq<Obj>, n: nat): (words: seq<string>)
    requires n <= |a|
    ensures |words| == n && forall i :: 0 <= i < n ==> words[i] == ShallowValue(a[i])
  {
    if n == 0 then [] else ElemWords(a, n - 1) + [ShallowValue(a[n - 1])]
  }

  lemma {:induction false} EntriesAreWords(m: map<string, Obj>, keys: seq<string>, n: nat)
    requires n <= |keys| && forall k :: k in keys ==> k in m
    ensures EntriesText(m, keys, n) == Listing(EntryWords(m, keys, n))
  {
    hide ShallowValue, Listing;
    if n > 0 {
      EntriesAreWords(m, keys, n - 1);
      TwoWords(EntryWords(m, keys, n - 1), keys[n - 1], ShallowValue(m[keys[n - 1]]));
    } else {
      NoListing();
    }
  }

  lemma TwoWords(words: seq<string>, k: string, v: string)
    ensures Listing(words + ["/" + k] + [v]) == Listing(words) + " /" + k + " " + v
  {
    hide Listing;
    ListingPush(words, "/" + k);
    ListingPush(words + ["/" + k], v);
    var t := Listing(words);
    assert " " + ("/" + k) == " /" + k;
    assert t + (" /" + k) == t + " /" + k;
    assert t + " /" + k + (" " + v) == t + " /" + k + " " + v;
  }

  lemma {:induction false} ElemsAreWords(a: seq<Obj>, n: nat)
    requires n <= |a|
    ensures ElemsText(a, n) == Listing(ElemWords(a, n))
  {
    hide ShallowValue, Listing;
    if n > 0 {
      ElemsAreWords(a, n - 1);
      OneWord(ElemWords(a, n - 1), ShallowValue(a[n - 1]));
    } else {
      NoListing();
    }
  }

  lemma OneWord(words: seq<string>, v: string)
    ensures Listing(words + [v]) == Listing(words) + " " + v
  {
    hide Listing;
    ListingPush(words, v);
    var t := Listing(words);
    assert t + " " + v == t + (" " + v);
  }

  lemma ShallowIsSolid(x: Obj)
    requires IsPlain(x)
    ensures IsSolid(ShallowValue(x))
  {
  }

  lemma ShallowTells(x: Obj, y: Obj)
    requires IsPlain(x) && IsPlain(y)
    ensures ShallowValue(x) == ShallowValue(y) <==> LookAlike(x, y)
  {
    if x.Scalar? || y.Scalar? {
    } else {
      TokensDiffer();
    }
  }

  lemma TokensDiffer()
    ensures "<<...>>" != "[...]" && "<<...>>" != "<ref>" && "<<...>>" != "null" && "[...]" != "<ref>"
      && "[...]" != "null" && "<ref>" != "null"
  {
    assert |"<<...>>"| == 7 && |"[...]"| == 5 && |"<ref>"| == 5 && |"null"| == 4;
    assert "[...]"[0] != "<ref>"[0];
  }

  /** The words of a whole value; its text is the first of them and the others each after a blank. */
  function Words(x: Obj): seq<string> {
    match x
    case Dict(m) => ["<<"] + EntryWords(m, Sorted(m.Keys), |Sorted(m.Keys)|) + [">>"]
    case Stream(m) => ["<<"] + EntryWords(m, Sorted(m.Keys), |Sorted(m.Keys)|) + [">>"] + ["stream"]
    case Array(a) => ["["] + ElemWords(a, |a|) + ["]"]
    case _ => [ShallowValue(x)]
  }

  lemma {:induction false} FirstWord(first: string, rest: seq<string>)
    ensures Listing([first] + rest) == " " + first + Listing(rest)
    decreases |rest|
  {
    if rest == [] {
      assert [first] + rest == [first] && [first][..0] == [];
      assert "" + (" " + first) == " " + first + "";
    } else {
      var n := |rest| - 1;
      FirstWord(first, rest[..n]);
      assert [first] + rest == [first] + rest[..n] + [rest[n]];
      ListingPush([first] + rest[..n], rest[n]);
      assert " " + first + Listing(rest[..n]) + (" " + rest[n]) == " " + first + (Listing(rest[..n]) + (" " + rest[n]));
    }
  }

  lemma CompareIsWords(x: Obj)
    ensures " " + Compare(x) == Listing(Words(x))
  {
    hide Listing, EntryWords, ElemWords, EntriesText, ElemsText;
    match x
    case Dict(m) => DictIsWords(m);
    case Stream(m) =>
      DictIsWords(m);
      ListingPush(Words(Dict(m)), "stream");
      assert " " + (DictText(m) + " stream") == " " + DictText(m) + (" " + "stream");
    case Array(a) =>
      ElemsAreWords(a, |a|);
      FirstWord("[", ElemWords(a, |a|));
      ListingPush(["["] + ElemWords(a, |a|), "]");
      assert " " + ("[" + ElemsText(a, |a|) + " ]") == " " + "[" + ElemsText(a, |a|) + (" " + "]");
    case _ =>
      FirstWord(Compare(x), []);
      NoListing();
      assert [Compare(x)] + [] == [Compare(x)];
      assert " " + Compare(x) + "" == " " + Compare(x);
  }

  lemma NoListing()
    ensures Listing([]) == ""
  {
  }

  lemma DictIsWords(m: map<string, Obj>)
    ensures " " + DictText(m) == Listing(Words(Dict(m)))
  {
    hide Listing, EntryWords, EntriesText;
    var keys := Sorted(m.Keys);
    EntriesAreWords(m, keys, |keys|);
    FirstWord("<<", EntryWords(m, keys, |keys|));
    ListingPush(["<<"] + EntryWords(m, keys, |keys|), ">>");
    var t := EntriesText(m, keys, |keys|);
    assert " " + ("<<" + t + " >>") == " " + "<<" + t + (" " + ">>");
  }

  lemma {:induction false} EntryWordsAreSolid(m: map<string, Obj>, keys: seq<string>, n: nat)
    requires n <= |keys| && (forall k :: k in keys ==> k in m) && forall k :: k in m ==> IsSolid(k) && IsPlain(m[k])
    ensures AllSolid(EntryWords(m, keys, n))
  {
    hide ShallowValue, IsPlain;
    if n > 0 {
      var k := keys[n - 1];
      EntryWordsAreSolid(m, keys, n - 1);
      ShallowIsSolid(m[k]);
      SlashIsSolid(k);
      hide IsSolid;
    }
  }

  lemma SlashIsSolid(k: string)
    requires IsSolid(k)
    ensures IsSolid("/" + k)
  {
  }

  lemma BracketsAreSolid()
    ensures IsSolid("<<") && IsSolid(">>") && IsSolid("stream") && IsSolid("[") && IsSolid("]")
  {
  }

  lemma SolidInside(open: string, words: seq<string>, close: string)
    requires IsSolid(open) && AllSolid(words) && IsSolid(close)
    ensures AllSolid([open] + words + [close]) && AllSolid([open] + words + [close] + ["stream"])
  {
    BracketsAreSolid();
    hide IsSolid;
  }

  lemma ElemWordsAreSolid(a: seq<Obj>)
    requires forall i :: 0 <= i < |a| ==> IsPlain(a[i])
    ensures AllSolid(ElemWords(a, |a|))
  {
    hide ShallowValue, IsPlain, IsSolid;
    forall i | 0 <= i < |a|
      ensures IsSolid(ShallowValue(a[i]))
    {
      ShallowIsSolid(a[i]);
    }
  }

  lemma WordsAreSolid(x: Obj)
    requires IsTellable(x)
    ensures AllSolid(Words(x))
  {
    hide ShallowValue, IsPlain, IsSolid, EntryWords, ElemWords, AllSolid;
    BracketsAreSolid();
    if x.Dict? || x.Stream? {
      var keys := Sorted(x.entries.Keys);
      EntryWordsAreSolid(x.entries, keys, |keys|);
      SolidInside("<<", EntryWords(x.entries, keys, |keys|), ">>");
    } else if x.Array? {
      ElemWordsAreSolid(x.elems);
      SolidInside("[", ElemWords(x.elems, |x.elems|), "]");
    } else {
      ShallowIsSolid(x);
      OneSolid(ShallowValue(x));
    }
  }

  lemma OneSolid(s: string)
    requires IsSolid(s)
    ensures AllSolid([s])
  {
  }

  /** The words of entries are the same exactly when the keys are and what stands under them looks alike. */
  lemma {:induction false} EntryWordsSame(a: map<string, Obj>, r: seq<string>, b: map<string, Obj>, s: seq<string>,
                                          n: nat)
    requires n <= |r| && n <= |s| && (forall k :: k in r ==> k in a) && forall k :: k in s ==> k in b
    requires (forall k :: k in a ==> IsPlain(a[k])) && forall k :: k in b ==> IsPlain(b[k])
    ensures EntryWords(a, r, n) == EntryWords(b, s, n)
      <==> forall i :: 0 <= i < n ==> r[i] == s[i] && LookAlike(a[r[i]], b[s[i]])
  {
    hide ShallowValue, IsPlain, LookAlike;
    if n > 0 {
      var j, k := r[n - 1], s[n - 1];
      EntryWordsSame(a, r, b, s, n - 1);
      ShallowTells(a[j], b[k]);
      var v, w := EntryWords(a, r, n - 1), EntryWords(b, s, n - 1);
      PushTwo(v, "/" + j, ShallowValue(a[j]), w, "/" + k, ShallowValue(b[k]));
      assert ("/" + j)[1..] == j && ("/" + k)[1..] == k;
    }
  }

  lemma PushTwo(v: seq<string>, x: string, y: string, w: seq<string>, x': string, y': string)
    requires |v| == |w|
    ensures v + [x] + [y] == w + [x'] + [y'] <==> v == w && x == x' && y == y'
  {
    var p, q := v + [x] + [y], w + [x'] + [y'];
    assert p[..|v|] == v && p[|v|] == x && p[|v| + 1] == y;
    assert q[..|w|] == w && q[|w|] == x' && q[|w| + 1] == y';
  }

  lemma KeysTell(a: map<string, Obj>, r: seq<string>, b: map<string, Obj>, s: seq<string>)
    requires (forall k :: k in a <==> k in r) && (forall k :: k in b <==> k in s) && |r| == |s|
    requires forall i :: 0 <= i < |r| ==> r[i] == s[i] && LookAlike(a[r[i]], b[s[i]])
    ensures EntriesAlike(a, b)
  {
    hide LookAlike;
    assert r == s;
    forall k | k in a
      ensures LookAlike(a[k], b[k])
    {
      var i :| 0 <= i < |r| && r[i] == k;
    }
    assert forall k :: k in a.Keys <==> k in b.Keys;
  }

  lemma EntryWordsTell(a: map<string, Obj>, b: map<string, Obj>)
    requires forall k :: k in a ==> IsPlain(a[k])
    requires forall k :: k in b ==> IsPlain(b[k])
    ensures var r, s := Sorted(a.Keys), Sorted(b.Keys);
      EntryWords(a, r, |r|) == EntryWords(b, s, |s|) <==> EntriesAlike(a, b)
  {
    hide ShallowValue, IsPlain, LookAlike, EntryWords;
    var r, s := Sorted(a.Keys), Sorted(b.Keys);
    if |r| == |s| {
      EntryWordsSame(a, r, b, s, |r|);
      if EntryWords(a, r, |r|) == EntryWords(b, s, |s|) {
        KeysTell(a, r, b, s);
      }
    }
  }

  lemma ElemWordsTell(a: seq<Obj>, b: seq<Obj>)
    requires forall i :: 0 <= i < |a| ==> IsPlain(a[i])
    requires forall i :: 0 <= i < |b| ==> IsPlain(b[i])
    ensures ElemWords(a, |a|) == ElemWords(b, |b|)
      <==> |a| == |b| && forall i :: 0 <= i < |a| ==> LookAlike(a[i], b[i])
  {
    hide ShallowValue, IsPlain, LookAlike;
    var v, w := ElemWords(a, |a|), ElemWords(b, |b|);
    if |a| == |b| {
      forall i | 0 <= i < |a|
        ensures v[i] == w[i] <==> LookAlike(a[i], b[i])
      {
        ShallowTells(a[i], b[i]);
      }
    }
  }

  /** Two values have the same comparison text exactly when they look alike, where no text in them has a blank or is
      the token for another value. */
  lemma CompareIsFaithful(x: Obj, y: Obj)
    requires IsTellable(x) && IsTellable(y)
    ensures Compare(x) == Compare(y) <==> Alike(x, y)
  {
    hide Listing, EntryWords, ElemWords, IsPlain, ShallowValue;
    CompareIsWords(x);
    CompareIsWords(y);
    WordsAreSolid(x);
    WordsAreSolid(y);
    if Listing(Words(x)) == Listing(Words(y)) {
      ListingIsRead(Words(x), Words(y));
    }
    assert (" " + Compare(x))[1..] == Compare(x) && (" " + Compare(y))[1..] == Compare(y);
    WordsTell(x, y);
  }

  lemma Bracketed(open: string, v: seq<string>, w: seq<string>, close: seq<string>)
    ensures [open] + v + close == [open] + w + close <==> v == w
  {
    var p, q := [open] + v + close, [open] + w + close;
    if p == q {
      assert |v| == |w|;
      assert v == p[1..1 + |v|] && w == q[1..1 + |w|];
    }
  }

  lemma WordsTell(x: Obj, y: Obj)
    requires IsTellable(x) && IsTellable(y)
    ensures Words(x) == Words(y) <==> Alike(x, y)
  {
    hide Listing, EntryWords, ElemWords, IsPlain, ShallowValue, LookAlike;
    if (x.Dict? && y.Dict?) || (x.Stream? && y.Stream?) {
      var r, s := Sorted(x.entries.Keys), Sorted(y.entries.Keys);
      var v, w := EntryWords(x.entries, r, |r|), EntryWords(y.entries, s, |s|);
      EntryWordsTell(x.entries, y.entries);
      var close := if x.Dict? then [">>"] else [">>"] + ["stream"];
      Bracketed("<<", v, w, close);
      assert x.Stream? ==> Words(x) == ["<<"] + v + close && Words(y) == ["<<"] + w + close;
    } else if x.Array? && y.Array? {
      ElemWordsTell(x.elems, y.elems);
      Bracketed("[", ElemWords(x.elems, |x.elems|), ElemWords(y.elems, |y.elems|), ["]"]);
    } else if IsContainer(x) || IsContainer(y) {
      SortsDiffer(x, y);
    } else {
      OtherTells(x, y);
    }
  }

  lemma OtherTells(x: Obj, y: Obj)
    requires IsPlain(x) && IsPlain(y) && !IsContainer(x) && !IsContainer(y)
    ensures Words(x) == Words(y) <==> Alike(x, y)
  {
    ShallowTells(x, y);
    assert Words(x)[0] == ShallowValue(x) && Words(y)[0] == ShallowValue(y);
  }

  lemma SortsDiffer(x: Obj, y: Obj)
    requires (IsContainer(x) || IsContainer(y)) && !(x.Dict? && y.Dict?) && !(x.Stream? && y.Stream?)
    requires !(x.Array? && y.Array?)
    ensures Words(x) != Words(y) && !Alike(x, y)
  {
    hide EntryWords, ElemWords, ShallowValue;
    var v, w := Words(x), Words(y);
    if IsContainer(x) && IsContainer(y) {
      assert x.Stream? ==> v[|v| - 1] == "stream";
      assert y.Stream? ==> w[|w| - 1] == "stream";
      assert x.Dict? ==> v[|v| - 1] == ">>";
      assert y.Dict? ==> w[|w| - 1] == ">>";
      assert x.Array? ==> v[|v| - 1] == "]";
      assert y.Array? ==> w[|w| - 1] == "]";
      assert |"stream"| == 6 && |">>"| == 2 && |"]"| == 1;
    } else {
      assert |v| == 1 || |w| == 1;
    }
  }

  /** Where a text has a blank, one element can look like two. */
  lemma BlankHidesElements()
    ensures var x, y := Array([Scalar("(a b)")]), Array([Scalar("(a"), Scalar("b)")]);
      Compare(x) == Compare(y) && !Alike(x, y)
  {
    assert ElemsText([Scalar("(a b)")], 1) == " (a b)";
    assert ElemsText([Scalar("(a"), Scalar("b)")], 1) == " (a";
    assert ElemsText([Scalar("(a"), Scalar("b)")], 2) == " (a b)";
  }
}
