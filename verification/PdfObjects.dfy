/** The objects of a PDF document: scalars, references, arrays, dictionaries and streams, and the finite map
    from object numbers to objects that a lookup reads. */
module PdfObjects {

  /** A scalar carries its byte-exact rendering.  A stream is its dictionary. */
  datatype Obj =
    | Null
    | Scalar(raw: string)
    | Ref(num: nat, gen: nat)
    | Array(elems: seq<Obj>)
    | Dict(entries: map<string, Obj>)
    | Stream(entries: map<string, Obj>)

  /** Objects by number, as lookups ignore the generation; a number whose lookup fails is absent. */
  type Store = map<nat, Obj>

  predicate IsContainer(o: Obj) {
    o.Array? || o.Dict? || o.Stream?
  }

  /** The target of a reference, or the value itself when it is not a reference, dangles or is null. */
  function Deref(s: Store, v: Obj): Obj {
    if v.Ref? && v.num in s && !s[v.num].Null? then s[v.num] else v
  }

  /** Byte order of strings. */
  predicate Before(a: string, b: string) {
    if b == "" then false
    else if a == "" then true
    else a[0] < b[0] || (a[0] == b[0] && Before(a[1..], b[1..]))
  }

  lemma {:induction false} BeforeTransitive(a: string, b: string, c: string)
    requires Before(a, b) && Before(b, c)
    ensures Before(a, c)
  {
    if a != "" && a[0] == b[0] && b[0] == c[0] {
      BeforeTransitive(a[1..], b[1..], c[1..]);
    }
  }

  lemma {:induction false} BeforeTotal(a: string, b: string)
    ensures a == b || Before(a, b) || Before(b, a)
    ensures !(Before(a, b) && Before(b, a)) && !Before(a, a)
  {
    if a != "" && b != "" {
      BeforeTotal(a[1..], b[1..]);
      assert a == [a[0]] + a[1..] && b == [b[0]] + b[1..];
    }
    if a != "" {
      BeforeTotal(a[1..], a[1..]);
    }
  }

  /** At place k, where the strings first differ, a has ended or has the smaller byte. */
  predicate DiffersAt(a: string, b: string, k: nat) {
    k <= |a| && k < |b| && a[..k] == b[..k] && (k == |a| || a[k] < b[k])
  }

  /** One string comes before another exactly when it does so at the first place where they differ. */
  lemma {:induction false} BeforeIsByteOrder(a: string, b: string)
    ensures Before(a, b) <==> exists k :: DiffersAt(a, b, k)
  {
    if a == "" || b == "" {
      assert b != "" ==> DiffersAt(a, b, 0);
    } else {
      BeforeIsByteOrder(a[1..], b[1..]);
      if a[0] == b[0] && Before(a[1..], b[1..]) {
        var k: nat :| DiffersAt(a[1..], b[1..], k);
        assert a[..k + 1] == [a[0]] + a[1..][..k] && b[..k + 1] == [b[0]] + b[1..][..k];
        assert DiffersAt(a, b, k + 1);
      } else if a[0] < b[0] {
        assert DiffersAt(a, b, 0);
      }
      if k: nat :| DiffersAt(a, b, k) {
        if k > 0 {
          assert a[0] == a[..k][0] == b[..k][0] == b[0];
          assert a[1..][..k - 1] == a[..k][1..] && b[1..][..k - 1] == b[..k][1..];
          assert DiffersAt(a[1..], b[1..], k - 1);
        }
      }
    }
  }

  predicate IsLeast(s: set<string>, k: string) {
    k in s && forall x | x in s :: x != k ==> Before(k, x)
  }

  lemma {:induction false} LeastExists(s: set<string>)
    requires s != {}
    ensures exists k :: IsLeast(s, k)
    ensures forall k, l :: IsLeast(s, k) && IsLeast(s, l) ==> k == l
    decreases s
  {
    var a :| a in s;
    if s == {a} {
      assert IsLeast(s, a);
    } else {
      LeastExists(s - {a});
      var b :| IsLeast(s - {a}, b);
      BeforeTotal(a, b);
      if Before(a, b) {
        forall x | x in s && x != a
          ensures Before(a, x)
        {
          if x != b {
            BeforeTransitive(a, b, x);
          }
        }
        assert IsLeast(s, a);
      } else {
        assert IsLeast(s, b);
      }
    }
    forall k, l | IsLeast(s, k) && IsLeast(s, l)
      ensures k == l
    {
      BeforeTotal(k, l);
    }
  }

  /** The strings of s in byte order. */
  function Sorted(s: set<string>): (r: seq<string>)
    ensures forall x :: x in r <==> x in s
    ensures forall i, j :: 0 <= i < j < |r| ==> Before(r[i], r[j])
    decreases s
  {
    if s == {} then []
    else
      LeastExists(s);
      var k :| k in s && IsLeast(s, k);
      [k] + Sorted(s - {k})
  }
}
