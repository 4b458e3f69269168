/** Sorting by an integer key, and why distinct keys make the result independent of the input order. */
module Sorting {
  function Map<A, B>(f: A -> B, s: seq<A>): (r: seq<B>)
    ensures |r| == |s| && forall i :: 0 <= i < |s| ==> r[i] == f(s[i])
  {
    seq(|s|, i requires 0 <= i < |s| => f(s[i]))
  }

  ghost predicate Sorted<T>(s: seq<T>, key: T -> int) {
    forall i, j :: 0 <= i < j < |s| ==> key(s[i]) <= key(s[j])
  }

  ghost predicate StrictlySorted<T>(s: seq<T>, key: T -> int) {
    forall i, j :: 0 <= i < j < |s| ==> key(s[i]) < key(s[j])
  }

  function Insert<T>(x: T, s: seq<T>, key: T -> int): (r: seq<T>)
    ensures |r| == |s| + 1
  {
    if s == [] || key(x) <= key(s[0]) then [x] + s else [s[0]] + Insert(x, s[1..], key)
  }

  lemma {:induction false} InsertContents<T>(x: T, s: seq<T>, key: T -> int)
    ensures multiset(Insert(x, s, key)) == multiset(s) + multiset{x}
  {
    if s != [] && key(x) > key(s[0]) {
      InsertContents(x, s[1..], key);
      assert s == [s[0]] + s[1..];
    }
  }

  lemma {:induction false} InsertSorted<T>(x: T, s: seq<T>, key: T -> int)
    requires Sorted(s, key)
    ensures Sorted(Insert(x, s, key), key)
    ensures key(Insert(x, s, key)[0]) == if s == [] || key(x) <= key(s[0]) then key(x) else key(s[0])
  {
    if s != [] && key(x) > key(s[0]) {
      InsertSorted(x, s[1..], key);
    }
  }

  function SortBy<T>(s: seq<T>, key: T -> int): (r: seq<T>)
    ensures Sorted(r, key) && multiset(r) == multiset(s) && |r| == |s|
  {
    if s == [] then []
    else
      var rest := SortBy(s[1..], key);
      InsertContents(s[0], rest, key);
      InsertSorted(s[0], rest, key);
      assert s == [s[0]] + s[1..];
      Insert(s[0], rest, key)
  }

  lemma SameFirst<T>(s: seq<T>, t: seq<T>, key: T -> int)
    requires Sorted(s, key) && StrictlySorted(t, key) && multiset(s) == multiset(t)
    requires s != [] && t != []
    ensures s[0] == t[0]
  {
    assert s[0] in multiset(t) && t[0] in multiset(s);
    assert s[0] in t && t[0] in s;
    var j :| 0 <= j < |t| && t[j] == s[0];
    var i :| 0 <= i < |s| && s[i] == t[0];
    assert key(s[0]) <= key(s[i]);
  }

  lemma TailsSorted<T>(s: seq<T>, t: seq<T>, key: T -> int)
    requires Sorted(s, key) && StrictlySorted(t, key) && s != [] && t != []
    ensures Sorted(s[1..], key) && StrictlySorted(t[1..], key)
  {
  }

  /** At most one arrangement of a multiset is strictly sorted, and it is the only sorted one. */
  lemma {:induction false} SortedUnique<T>(s: seq<T>, t: seq<T>, key: T -> int)
    requires Sorted(s, key) && StrictlySorted(t, key) && multiset(s) == multiset(t)
    ensures s == t
  {
    hide Sorted, StrictlySorted;
    assert |s| == |multiset(s)| == |t|;
    if s != [] {
      SameFirst(s, t, key);
      TailsSorted(s, t, key);
      WithoutContents(s, 0);
      WithoutContents(t, 0);
      assert Without(s, 0) == s[1..] && Without(t, 0) == t[1..];
      SortedUnique(s[1..], t[1..], key);
    }
  }

  function Without<T>(t: seq<T>, k: nat): seq<T>
    requires k < |t|
  {
    t[..k] + t[k + 1..]
  }

  lemma WithoutContents<T>(t: seq<T>, k: nat)
    requires k < |t|
    ensures multiset(Without(t, k)) == multiset(t) - multiset{t[k]}
  {
    assert t == t[..k] + ([t[k]] + t[k + 1..]);
    assert multiset(t) == multiset(t[..k] + t[k + 1..]) + multiset{t[k]};
  }

  lemma MapWithout<A, B>(f: A -> B, t: seq<A>, k: nat)
    requires k < |t|
    ensures multiset(Map(f, t)) == multiset(Map(f, Without(t, k))) + multiset{f(t[k])}
  {
    var a, b := Map(f, t[..k]), Map(f, t[k + 1..]);
    assert Map(f, t) == a + ([f(t[k])] + b);
    assert Map(f, Without(t, k)) == a + b;
  }

  lemma {:induction false} MapMultiset<A, B>(f: A -> B, s: seq<A>, t: seq<A>)
    requires multiset(s) == multiset(t)
    ensures multiset(Map(f, s)) == multiset(Map(f, t))
  {
    if s == [] {
      assert |t| == |multiset(t)|;
    } else {
      var n := |s| - 1;
      assert s[n] in multiset(t);
      var k :| 0 <= k < |t| && t[k] == s[n];
      WithoutContents(t, k);
      WithoutContents(s, n);
      MapMultiset(f, Without(s, n), Without(t, k));
      MapWithout(f, t, k);
      MapWithout(f, s, n);
    }
  }
}
