/** The stable sort that the source gets from the built-in `sorted`: its result is a
    sorted permutation that keeps the relative order of elements with equal keys. */
module Sorting {

  ghost predicate TotalPreorder<T(!new)>(leq: (T, T) -> bool) {
    && (forall x, y :: leq(x, y) || leq(y, x))
    && (forall x, y, z :: leq(x, y) && leq(y, z) ==> leq(x, z))
  }

  lemma LeqTransitive<T(!new)>(x: T, y: T, z: T, leq: (T, T) -> bool)
    requires TotalPreorder(leq)
    ensures leq(x, y) && leq(y, z) ==> leq(x, z)
  {
  }

  ghost predicate SortedBy<T(!new)>(s: seq<T>, leq: (T, T) -> bool) {
    forall i, j | 0 <= i < j < |s| :: leq(s[i], s[j])
  }

  /** Elements with equal keys are equal: what makes a sort independent of the input order. */
  ghost predicate KeysDistinguish<T(!new)>(s: seq<T>, leq: (T, T) -> bool) {
    forall x, y | x in s && y in s && leq(x, y) && leq(y, x) :: x == y
  }

  function Insert<T>(x: T, s: seq<T>, leq: (T, T) -> bool): (r: seq<T>)
    ensures multiset(r) == multiset{x} + multiset(s)
  {
    if s == [] || leq(x, s[0]) then [x] + s
    else
      assert s == [s[0]] + s[1..];
      [s[0]] + Insert(x, s[1..], leq)
  }

  function Sort<T>(s: seq<T>, leq: (T, T) -> bool): (r: seq<T>)
    ensures multiset(r) == multiset(s)
  {
    if s == [] then []
    else
      assert s == [s[0]] + s[1..];
      Insert(s[0], Sort(s[1..], leq), leq)
  }

  function Zip<A, B>(a: seq<A>, b: seq<B>): (r: seq<(A, B)>)
    requires |a| == |b|
    ensures |r| == |a| && forall i | 0 <= i < |a| :: r[i] == (a[i], b[i])
  {
    seq(|a|, i requires 0 <= i < |a| => (a[i], b[i]))
  }

  ghost predicate NoDuplicates<T(!new)>(s: seq<T>) {
    forall i, j | 0 <= i < j < |s| :: s[i] != s[j]
  }

  lemma NoDuplicatesTail<T(!new)>(s: seq<T>)
    requires s != [] && NoDuplicates(s)
    ensures NoDuplicates(s[1..]) && s[0] !in s[1..]
  {
    forall k | 0 <= k < |s[1..]| ensures s[1..][k] != s[0] { assert s[0] != s[k + 1]; }
  }

  lemma CountInNoDuplicates<T(!new)>(s: seq<T>, x: T)
    requires NoDuplicates(s)
    ensures multiset(s)[x] <= 1
  {
    if x in s {
      var i :| 0 <= i < |s| && s[i] == x;
      assert s == s[..i] + [x] + s[i + 1..];
      assert x !in s[..i] && x !in s[i + 1..];
    }
  }

  lemma PermutationNoDuplicates<T(!new)>(s: seq<T>, t: seq<T>)
    requires multiset(s) == multiset(t) && NoDuplicates(s)
    ensures NoDuplicates(t)
  {
    forall i, j | 0 <= i < j < |t| ensures t[i] != t[j] {
      if t[i] == t[j] {
        assert t == t[..j] + [t[j]] + t[j + 1..];
        assert t[i] in t[..j];
        CountInNoDuplicates(s, t[j]);
      }
    }
  }

  lemma SameElements<T>(s: seq<T>, t: seq<T>)
    requires multiset(s) == multiset(t)
    ensures |s| == |t|
    ensures forall x :: x in s <==> x in t
  {
    assert |multiset(s)| == |s| && |multiset(t)| == |t|;
    forall x ensures x in s <==> x in t {
      assert x in s <==> x in multiset(s);
      assert x in t <==> x in multiset(t);
    }
  }

  lemma {:induction false} InsertSorts<T(!new)>(x: T, s: seq<T>, leq: (T, T) -> bool)
    requires TotalPreorder(leq) && SortedBy(s, leq)
    ensures SortedBy(Insert(x, s, leq), leq)
  {
    if s == [] || leq(x, s[0]) {
      forall k | 0 <= k < |s| ensures leq(x, s[k]) {
        assert k == 0 || leq(s[0], s[k]);
      }
    } else {
      var rest := Insert(x, s[1..], leq);
      InsertSorts(x, s[1..], leq);
      forall k | 0 <= k < |rest| ensures leq(s[0], rest[k]) {
        assert rest[k] in multiset(rest);
        assert rest[k] == x || rest[k] in s[1..];
      }
    }
  }

  lemma {:induction false} SortSorts<T(!new)>(s: seq<T>, leq: (T, T) -> bool)
    requires TotalPreorder(leq)
    ensures SortedBy(Sort(s, leq), leq)
  {
    if s != [] {
      SortSorts(s[1..], leq);
      InsertSorts(s[0], Sort(s[1..], leq), leq);
    }
  }

  lemma SortedHead<T(!new)>(s: seq<T>, x: T, leq: (T, T) -> bool)
    requires TotalPreorder(leq) && SortedBy(s, leq) && x in s
    ensures leq(s[0], x)
  {
    var i :| 0 <= i < |s| && s[i] == x;
    if i == 0 { assert leq(x, x); } else { assert leq(s[0], s[i]); }
  }

  lemma SortedTail<T(!new)>(s: seq<T>, leq: (T, T) -> bool)
    requires SortedBy(s, leq) && s != []
    ensures SortedBy(s[1..], leq)
  {
  }

  lemma TailMultiset<T>(s: seq<T>)
    requires s != []
    ensures multiset(s[1..]) == multiset(s) - multiset{s[0]}
  {
    assert s == [s[0]] + s[1..];
  }

  /** A sorted permutation is unique when equal keys mean equal elements. */
  lemma {:induction false} SortedUnique<T(!new)>(s: seq<T>, t: seq<T>, leq: (T, T) -> bool)
    requires TotalPreorder(leq) && SortedBy(s, leq) && SortedBy(t, leq)
    requires multiset(s) == multiset(t)
    requires KeysDistinguish(s, leq)
    ensures s == t
  {
    hide TotalPreorder;
    SameElements(s, t);
    if s != [] {
      assert s[0] in t && t[0] in s;
      SortedHead(s, t[0], leq);
      SortedHead(t, s[0], leq);
      assert s[0] == t[0];
      TailMultiset(s);
      TailMultiset(t);
      assert KeysDistinguish(s[1..], leq) by {
        forall x, y | x in s[1..] && y in s[1..] && leq(x, y) && leq(y, x) ensures x == y {
          assert x in s && y in s;
        }
      }
      SortedTail(s, leq);
      SortedTail(t, leq);
      hide *;
      SortedUnique(s[1..], t[1..], leq);
      assert s == [s[0]] + s[1..] && t == [t[0]] + t[1..];
    }
  }

  /** Sorting forgets the input order when equal keys mean equal elements. */
  lemma SortOrderIndependent<T(!new)>(s: seq<T>, t: seq<T>, leq: (T, T) -> bool)
    requires TotalPreorder(leq) && multiset(s) == multiset(t) && KeysDistinguish(s, leq)
    ensures Sort(s, leq) == Sort(t, leq)
  {
    SortSorts(s, leq);
    SortSorts(t, leq);
    SameElements(s, Sort(s, leq));
    SortedUnique(Sort(s, leq), Sort(t, leq), leq);
  }

  lemma {:induction false} SortOfSorted<T(!new)>(s: seq<T>, leq: (T, T) -> bool)
    requires SortedBy(s, leq)
    ensures Sort(s, leq) == s
  {
    if s != [] {
      SortOfSorted(s[1..], leq);
      assert |s| > 1 ==> leq(s[0], s[1]);
      assert s == [s[0]] + s[1..];
    }
  }

  lemma SortIdempotent<T(!new)>(s: seq<T>, leq: (T, T) -> bool)
    requires TotalPreorder(leq)
    ensures Sort(Sort(s, leq), leq) == Sort(s, leq)
  {
    SortSorts(s, leq);
    SortOfSorted(Sort(s, leq), leq);
  }

  /** The elements of `s` whose key equals the key of `k`, in order. */
  function SameKey<T>(k: T, s: seq<T>, leq: (T, T) -> bool): (r: seq<T>) {
    if s == [] then []
    else (if leq(k, s[0]) && leq(s[0], k) then [s[0]] else []) + SameKey(k, s[1..], leq)
  }

  lemma {:induction false} InsertStable<T(!new)>(k: T, x: T, s: seq<T>, leq: (T, T) -> bool)
    requires TotalPreorder(leq)
    ensures SameKey(k, Insert(x, s, leq), leq) == SameKey(k, [x] + s, leq)
  {
    if !(s == [] || leq(x, s[0])) {
      var rest := Insert(x, s[1..], leq);
      assert Insert(x, s, leq) == [s[0]] + rest && s == [s[0]] + s[1..];
      InsertStable(k, x, s[1..], leq);
      var head := if leq(k, s[0]) && leq(s[0], k) then [s[0]] else [];
      var inserted := if leq(k, x) && leq(x, k) then [x] else [];
      LeqTransitive(x, k, s[0], leq);
      hide *;
      SameKeyHead(k, s[0], rest, leq);
      SameKeyHead(k, x, s[1..], leq);
      SameKeyHead(k, x, s, leq);
      SameKeyHead(k, s[0], s[1..], leq);
      CommuteHeads(head, inserted, SameKey(k, s[1..], leq));
    }
  }

  lemma CommuteHeads<T>(a: seq<T>, b: seq<T>, c: seq<T>)
    requires a == [] || b == []
    ensures a + (b + c) == b + (a + c)
  {
    assert a == [] ==> a + (b + c) == b + c && a + c == c;
    assert b == [] ==> b + c == c && b + (a + c) == a + c;
  }

  lemma SameKeyHead<T>(k: T, x: T, s: seq<T>, leq: (T, T) -> bool)
    ensures SameKey(k, [x] + s, leq) == (if leq(k, x) && leq(x, k) then [x] else []) + SameKey(k, s, leq)
  {
    assert ([x] + s)[1..] == s;
  }

  /** Stability: sorting keeps the order of elements with equal keys. */
  lemma {:induction false} SortStable<T(!new)>(k: T, s: seq<T>, leq: (T, T) -> bool)
    requires TotalPreorder(leq)
    ensures SameKey(k, Sort(s, leq), leq) == SameKey(k, s, leq)
  {
    if s != [] {
      SortStable(k, s[1..], leq);
      InsertStable(k, s[0], Sort(s[1..], leq), leq);
      assert ([s[0]] + Sort(s[1..], leq))[1..] == Sort(s[1..], leq);
    }
  }
}
