/** Code-point order on strings and on tuples of strings, and sorted listings of sets. */
module Text {
  import Sorting

  predicate StringLeq(a: string, b: string) {
    a == [] || (b != [] && (a[0] < b[0] || (a[0] == b[0] && StringLeq(a[1..], b[1..]))))
  }

  ghost predicate FirstDifference(a: string, b: string, k: nat) {
    k < |a| && k < |b| && a[..k] == b[..k] && a[k] < b[k]
  }

  lemma SharedStart(a: string, b: string, k: nat)
    requires FirstDifference(a, b, k)
    ensures k > 0 ==> a[0] == b[0]
  {
    if k > 0 { assert a[..k][0] == b[..k][0]; }
  }

  /** The order is that of the first characters that differ, with a prefix first. */
  lemma {:induction false} StringLeqIff(a: string, b: string)
    ensures StringLeq(a, b) <==> a <= b || exists k :: FirstDifference(a, b, k)
  {
    if a != [] && b != [] && a[0] == b[0] {
      StringLeqIff(a[1..], b[1..]);
      assert a == [a[0]] + a[1..] && b == [b[0]] + b[1..];
      if k: nat :| FirstDifference(a[1..], b[1..], k) {
        assert a[..k + 1] == [a[0]] + a[1..][..k] == [b[0]] + b[1..][..k] == b[..k + 1];
        assert FirstDifference(a, b, k + 1);
      }
      if k: nat :| FirstDifference(a, b, k) {
        assert a[1..][..k - 1] == a[..k][1..] == b[..k][1..] == b[1..][..k - 1];
        assert FirstDifference(a[1..], b[1..], k - 1);
      }
    } else if a != [] && b != [] {
      if a[0] < b[0] { assert FirstDifference(a, b, 0); }
      forall k: nat | FirstDifference(a, b, k) ensures k == 0 { SharedStart(a, b, k); }
    }
  }

  /** Tuples of strings compare component by component. */
  predicate TupleLeq(a: seq<string>, b: seq<string>) {
    a == [] || (b != [] && (if a[0] == b[0] then TupleLeq(a[1..], b[1..]) else StringLeq(a[0], b[0])))
  }

  lemma {:induction false} StringLeqTotal(a: string, b: string)
    ensures StringLeq(a, b) || StringLeq(b, a)
    ensures StringLeq(a, b) && StringLeq(b, a) ==> a == b
  {
    if a != [] && b != [] && a[0] == b[0] {
      StringLeqTotal(a[1..], b[1..]);
      assert a == [a[0]] + a[1..] && b == [b[0]] + b[1..];
    }
  }

  lemma {:induction false} StringLeqTransitive(a: string, b: string, c: string)
    requires StringLeq(a, b) && StringLeq(b, c)
    ensures StringLeq(a, c)
  {
    if a != [] && b != [] && c != [] && a[0] == b[0] == c[0] {
      StringLeqTransitive(a[1..], b[1..], c[1..]);
    }
  }

  lemma StringOrder()
    ensures Sorting.TotalPreorder(StringLeq)
    ensures forall a, b :: StringLeq(a, b) && StringLeq(b, a) ==> a == b
  {
    forall a, b ensures StringLeq(a, b) || StringLeq(b, a) { StringLeqTotal(a, b); }
    forall a, b ensures StringLeq(a, b) && StringLeq(b, a) ==> a == b { StringLeqTotal(a, b); }
    forall a, b, c | StringLeq(a, b) && StringLeq(b, c) ensures StringLeq(a, c) {
      StringLeqTransitive(a, b, c);
    }
  }

  lemma {:induction false} TupleLeqTotal(a: seq<string>, b: seq<string>)
    ensures TupleLeq(a, b) || TupleLeq(b, a)
    ensures TupleLeq(a, b) && TupleLeq(b, a) ==> a == b
  {
    if a != [] && b != [] {
      if a[0] == b[0] { TupleLeqTotal(a[1..], b[1..]); } else { StringLeqTotal(a[0], b[0]); }
      assert a == [a[0]] + a[1..] && b == [b[0]] + b[1..];
    }
  }

  lemma {:induction false} TupleLeqTransitive(a: seq<string>, b: seq<string>, c: seq<string>)
    requires TupleLeq(a, b) && TupleLeq(b, c)
    ensures TupleLeq(a, c)
  {
    if a != [] && b != [] && c != [] {
      if a[0] == b[0] == c[0] {
        TupleLeqTransitive(a[1..], b[1..], c[1..]);
      } else {
        StringLeqTotal(a[0], b[0]);
        assert a[0] != b[0] && b[0] != c[0] ==> StringLeq(a[0], b[0]) && StringLeq(b[0], c[0]);
        if a[0] != b[0] && b[0] != c[0] {
          StringLeqTransitive(a[0], b[0], c[0]);
        }
      }
    }
  }

  lemma {:induction false} SmallestExists(s: set<string>) returns (m: string)
    requires s != {}
    ensures m in s && forall x | x in s :: StringLeq(m, x)
  {
    var y :| y in s;
    if s == {y} {
      m := y;
      StringLeqTotal(y, y);
    } else {
      var rest := s - {y};
      assert s == rest + {y} && rest != {};
      var n := SmallestExists(rest);
      StringOrder();
      m := if StringLeq(n, y) then n else y;
    }
  }

  lemma SmallestOf(s: set<string>)
    requires s != {}
    ensures exists m :: m in s && forall x | x in s :: StringLeq(m, x)
  {
    var m := SmallestExists(s);
  }

  /** The elements of a set in ascending order. */
  function SortedStrings(s: set<string>): (r: seq<string>)
    ensures forall x :: x in r <==> x in s
    ensures Sorting.NoDuplicates(r)
  {
    if s == {} then []
    else
      SmallestOf(s);
      StringOrder();
      var m :| m in s && forall x | x in s :: StringLeq(m, x);
      [m] + SortedStrings(s - {m})
  }

  lemma {:induction false} SortedStringsSorted(s: set<string>)
    ensures Sorting.SortedBy(SortedStrings(s), StringLeq)
  {
    if s != {} {
      SmallestOf(s);
      StringOrder();
      var m := SortedStrings(s)[0];
      assert SortedStrings(s) == [m] + SortedStrings(s - {m});
      SortedStringsSorted(s - {m});
    }
  }
}
