/** Sorting by a comparison function, and the lexicographic order of strings. */
module Ordering {

  /** What a comparison function must satisfy for a sort by it to mean anything. */
  ghost predicate StrictWeakOrder<T(!new)>(less: (T, T) -> bool) {
    && (forall a, b :: less(a, b) ==> !less(b, a))
    && (forall a, b, c :: !less(b, a) && !less(c, b) ==> !less(c, a))
  }

  ghost predicate Sorted<T>(less: (T, T) -> bool, s: seq<T>) {
    forall i, j :: 0 <= i < j < |s| ==> !less(s[j], s[i])
  }

  ghost predicate StrictlySorted<T>(less: (T, T) -> bool, s: seq<T>) {
    forall i, j :: 0 <= i < j < |s| ==> less(s[i], s[j])
  }

  /** `x` placed in front of the first element that is not less than it. */
  function Insert<T>(less: (T, T) -> bool, x: T, s: seq<T>): (r: seq<T>)
    ensures multiset(r) == multiset([x]) + multiset(s)
  {
    if s == [] then [x]
    else if less(s[0], x) then
      assert s == [s[0]] + s[1..];
      [s[0]] + Insert(less, x, s[1..])
    else [x] + s
  }

  /** A stable sort. */
  function SortBy<T>(less: (T, T) -> bool, s: seq<T>): (r: seq<T>)
    ensures multiset(r) == multiset(s)
  {
    if s == [] then []
    else
      assert s == [s[0]] + s[1..];
      Insert(less, s[0], SortBy(less, s[1..]))
  }

  lemma PermutationMembers<T>(a: seq<T>, b: seq<T>)
    requires multiset(a) == multiset(b)
    ensures |a| == |b|
    ensures forall x :: x in a <==> x in b
  {
    assert |a| == |multiset(a)| && |b| == |multiset(b)|;
    assert forall x :: x in a <==> x in multiset(a);
    assert forall x :: x in b <==> x in multiset(b);
  }

  lemma {:induction false} InsertSorted<T(!new)>(less: (T, T) -> bool, x: T, s: seq<T>)
    requires StrictWeakOrder(less) && Sorted(less, s)
    ensures Sorted(less, Insert(less, x, s))
  {
    var r := Insert(less, x, s);
    if s == [] {
    } else if less(s[0], x) {
      var rest := Insert(less, x, s[1..]);
      InsertSorted(less, x, s[1..]);
      forall j | 0 <= j < |rest|
        ensures !less(rest[j], s[0])
      {
        assert rest[j] in multiset(rest);
        assert multiset(rest) == multiset([x]) + multiset(s[1..]);
        assert rest[j] == x || rest[j] in s[1..];
      }
    } else {
      forall j | 0 <= j < |s|
        ensures !less(s[j], x)
      {
        assert j > 0 ==> !less(s[j], s[0]);
      }
    }
  }

  lemma {:induction false} SortBySorted<T(!new)>(less: (T, T) -> bool, s: seq<T>)
    requires StrictWeakOrder(less)
    ensures Sorted(less, SortBy(less, s))
  {
    if s != [] {
      SortBySorted(less, s[1..]);
      InsertSorted(less, s[0], SortBy(less, s[1..]));
    }
  }

  /** The elements that the order does not tell apart from `key`, in their order of appearance. */
  ghost function Equivalents<T>(less: (T, T) -> bool, key: T, s: seq<T>): seq<T> {
    if s == [] then []
    else (if !less(s[0], key) && !less(key, s[0]) then [s[0]] else []) + Equivalents(less, key, s[1..])
  }

  /** Elements that compare equal keep their order. */
  lemma {:induction false} SortByStable<T(!new)>(less: (T, T) -> bool, key: T, s: seq<T>)
    requires StrictWeakOrder(less)
    ensures Equivalents(less, key, SortBy(less, s)) == Equivalents(less, key, s)
  {
    if s != [] {
      SortByStable(less, key, s[1..]);
      InsertStable(less, key, s[0], SortBy(less, s[1..]));
    }
  }

  lemma {:induction false} InsertStable<T(!new)>(less: (T, T) -> bool, key: T, x: T, s: seq<T>)
    requires StrictWeakOrder(less)
    ensures Equivalents(less, key, Insert(less, x, s)) == Equivalents(less, key, [x] + s)
  {
    assert ([x] + s)[1..] == s;
    if s != [] && less(s[0], x) {
      InsertStable(less, key, x, s[1..]);
      assert ([x] + s[1..])[1..] == s[1..];
      assert Insert(less, x, s)[1..] == Insert(less, x, s[1..]);
    }
  }

  lemma SameHead<T>(less: (T, T) -> bool, a: seq<T>, b: seq<T>)
    requires StrictlySorted(less, a) && Sorted(less, b)
    requires multiset(a) == multiset(b) && a != []
    ensures b != [] && a[0] == b[0]
  {
    PermutationMembers(a, b);
    assert b[0] in a && a[0] in b;
    var i :| 0 <= i < |a| && a[i] == b[0];
    var j :| 0 <= j < |b| && b[j] == a[0];
  }

  lemma TailMultiset<T>(s: seq<T>)
    requires s != []
    ensures multiset(s[1..]) == multiset(s) - multiset([s[0]])
  {
    assert s == [s[0]] + s[1..];
  }

  /** A strictly sorted sequence is the only sorted arrangement of its elements. */
  lemma {:induction false} SortedIsUnique<T>(less: (T, T) -> bool, a: seq<T>, b: seq<T>)
    requires StrictlySorted(less, a) && Sorted(less, b)
    requires multiset(a) == multiset(b)
    ensures a == b
  {
    PermutationMembers(a, b);
    if a != [] {
      SameHead(less, a, b);
      TailMultiset(a);
      TailMultiset(b);
      SortedIsUnique(less, a[1..], b[1..]);
    }
  }

  // ----- rearranging -----

  /** The results of `f` on all elements, one after the other. */
  function Flat<T, U>(f: T -> seq<U>, s: seq<T>): seq<U> {
    if s == [] then [] else Flat(f, s[..|s| - 1]) + f(s[|s| - 1])
  }

  lemma {:induction false} FlatConcat<T, U>(f: T -> seq<U>, a: seq<T>, b: seq<T>)
    ensures Flat(f, a + b) == Flat(f, a) + Flat(f, b)
  {
    if b == [] {
      assert a + b == a;
    } else {
      var n := |b| - 1;
      FlatConcat(f, a, b[..n]);
      assert (a + b)[..|a| + n] == a + b[..n];
    }
  }

  lemma FlatOne<T, U>(f: T -> seq<U>, x: T)
    ensures Flat(f, [x]) == f(x)
  {
    assert [x][..0] == [];
    assert [] + f(x) == f(x);
  }

  lemma Removed<T>(a: seq<T>, x: T, b: seq<T>)
    ensures multiset(a + [x] + b) == multiset(a + b) + multiset([x])
    ensures multiset(a + b) == multiset(a + [x] + b) - multiset([x])
  {
    assert multiset(a + [x] + b) == multiset(a + b) + multiset([x]);
  }

  lemma FlatRemoved<T, U>(f: T -> seq<U>, a: seq<T>, x: T, b: seq<T>)
    ensures multiset(Flat(f, a + [x] + b)) == multiset(Flat(f, a + b)) + multiset(f(x))
  {
    FlatConcat(f, a, b);
    FlatConcat(f, a, [x]);
    FlatConcat(f, a + [x], b);
    FlatOne(f, x);
    hide Flat;
  }

  /** Rearranging the elements rearranges the results. */
  lemma {:induction false} FlatPermuted<T, U>(f: T -> seq<U>, a: seq<T>, b: seq<T>)
    requires multiset(a) == multiset(b)
    ensures multiset(Flat(f, a)) == multiset(Flat(f, b))
    decreases |a|
  {
    assert |a| == |b| && (a != [] ==> a[|a| - 1] in b) by {
      PermutationMembers(a, b);
    }
    if a != [] {
      hide Flat;
      var x := a[|a| - 1];
      var k := IndexIn(b, x);
      var rest, left, right := a[..|a| - 1], b[..k], b[k + 1..];
      SplitAt(a, |a| - 1);
      SplitAt(b, k);
      SmallerMultiset(rest, a[|a|..], left, right, x, a, b);
      FlatPermuted(f, rest + a[|a|..], left + right);
      FlatRemoved(f, rest, x, a[|a|..]);
      FlatRemoved(f, left, x, right);
    }
  }

  lemma SplitAt<T>(s: seq<T>, k: nat)
    requires k < |s|
    ensures s == s[..k] + [s[k]] + s[k + 1..]
  {
  }

  lemma SmallerMultiset<T>(a0: seq<T>, a1: seq<T>, b0: seq<T>, b1: seq<T>, x: T, a: seq<T>, b: seq<T>)
    requires a == a0 + [x] + a1 && b == b0 + [x] + b1 && multiset(a) == multiset(b)
    ensures multiset(a0 + a1) == multiset(b0 + b1)
  {
    Removed(a0, x, a1);
    Removed(b0, x, b1);
  }

  lemma IndexIn<T>(s: seq<T>, x: T) returns (k: nat)
    requires x in s
    ensures k < |s| && s[k] == x
  {
    k :| 0 <= k < |s| && s[k] == x;
  }

  /** No two elements have the same key. */
  ghost predicate DistinctBy<T, K>(key: T -> K, s: seq<T>) {
    forall i, j :: 0 <= i < j < |s| ==> key(s[i]) != key(s[j])
  }

  lemma TwiceIn<T>(s: seq<T>, i: nat, j: nat)
    requires i < j < |s| && s[i] == s[j]
    ensures multiset(s)[s[i]] >= 2
  {
    assert s == s[..j] + [s[j]] + s[j + 1..];
    assert s[..j][i] in multiset(s[..j]);
  }

  lemma OnceIn<T, K>(key: T -> K, s: seq<T>, k: nat)
    requires k < |s| && DistinctBy(key, s)
    ensures multiset(s)[s[k]] == 1
  {
    assert s == s[..k] + [s[k]] + s[k + 1..];
    assert s[k] !in s[..k];
    assert s[k] !in s[k + 1..];
    assert s[k] !in multiset(s[..k]) && s[k] !in multiset(s[k + 1..]);
  }

  lemma DistinctPermuted<T, K>(key: T -> K, a: seq<T>, b: seq<T>)
    requires multiset(a) == multiset(b) && DistinctBy(key, a)
    ensures DistinctBy(key, b)
  {
    PermutationMembers(a, b);
    forall i, j | 0 <= i < j < |b|
      ensures key(b[i]) != key(b[j])
    {
      if key(b[i]) == key(b[j]) {
        assert b[i] in a && b[j] in a;
        var k :| 0 <= k < |a| && a[k] == b[i];
        assert b[i] == b[j];
        TwiceIn(b, i, j);
        OnceIn(key, a, k);
      }
    }
  }

  // ----- strings -----

  predicate StringLess(a: string, b: string) {
    if b == "" then false
    else if a == "" then true
    else a[0] < b[0] || (a[0] == b[0] && StringLess(a[1..], b[1..]))
  }

  lemma {:induction false} StringLessTotal(a: string, b: string)
    ensures StringLess(a, b) || StringLess(b, a) || a == b
    ensures !(StringLess(a, b) && StringLess(b, a))
    ensures a == b ==> !StringLess(a, b)
  {
    if a != "" && b != "" {
      StringLessTotal(a[1..], b[1..]);
      assert a == [a[0]] + a[1..] && b == [b[0]] + b[1..];
    }
  }

  lemma {:induction false} StringLessTransitive(a: string, b: string, c: string)
    requires StringLess(a, b) && StringLess(b, c)
    ensures StringLess(a, c)
  {
    if a != "" && a[0] == b[0] == c[0] {
      StringLessTransitive(a[1..], b[1..], c[1..]);
    }
  }
}
