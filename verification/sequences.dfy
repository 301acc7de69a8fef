/** Sequence helpers: the sum of a list of heights with its prefix sums, and
    the Array extension `removeObject`, which removes the LAST element equal
    to the given object. */
module Sequences {

  /** The sum of a list of heights, added up from the front as a running total does. */
  function Sum(s: seq<real>): real
  {
    if s == [] then 0.0 else Sum(s[..|s| - 1]) + s[|s| - 1]
  }

  /** One more step of a running total: the prefix of length k + 1 adds s[k]. */
  lemma SumPrefixStep(s: seq<real>, k: nat)
    requires k < |s|
    ensures Sum(s[..k + 1]) == Sum(s[..k]) + s[k]
  {
    assert s[..k + 1][..k] == s[..k];
  }

  /** Swift's `remove(at:)`: drops the element at index k and keeps the order of the rest. */
  function RemoveAt<T>(s: seq<T>, k: nat): (r: seq<T>)
    requires k < |s|
    ensures |r| == |s| - 1
    ensures forall i :: 0 <= i < k ==> r[i] == s[i]
    ensures forall i :: k <= i < |r| ==> r[i] == s[i + 1]
    ensures multiset(r) == multiset(s) - multiset{s[k]}
  {
    assert s == s[..k] + [s[k]] + s[k + 1..];
    s[..k] + s[k + 1..]
  }

  /** Removing one height takes exactly that height off the sum. */
  lemma {:induction false} SumRemoveAt(s: seq<real>, k: nat)
    requires k < |s|
    ensures Sum(RemoveAt(s, k)) == Sum(s) - s[k]
  {
    var n := |s| - 1;
    if k == n {
      assert RemoveAt(s, k) == s[..n];
    } else {
      var t := s[..n];
      var r := RemoveAt(s, k);
      assert r[..|r| - 1] == RemoveAt(t, k);
      SumRemoveAt(t, k);
    }
  }

  /** Inserting a height anywhere adds it to the sum. */
  lemma SumInsert(s: seq<real>, k: nat, x: real)
    requires k <= |s|
    ensures Sum(s[..k] + [x] + s[k..]) == Sum(s) + x
  {
    var t := s[..k] + [x] + s[k..];
    assert t[..k] == s[..k] && t[k + 1..] == s[k..];
    assert s[..k] + s[k..] == s;
    SumRemoveAt(t, k);
  }

  /** Every element of s with x inserted at k is x or an element of s. */
  lemma InsertMembers<T>(s: seq<T>, k: nat, x: T)
    requires k <= |s|
    ensures forall o :: o in s[..k] + [x] + s[k..] ==> o == x || o in s
  {
    assert s == s[..k] + s[k..];
  }

  /** The index of the last element of s equal to o, or -1 when there is none. */
  function LastIndex<T(==)>(s: seq<T>, o: T): (k: int)
    ensures -1 <= k < |s|
    ensures k < 0 <==> o !in s
    ensures k >= 0 ==> s[k] == o
    ensures forall j :: k < j < |s| ==> s[j] != o
  {
    if s == [] then -1
    else if s[|s| - 1] == o then |s| - 1
    else LastIndex(s[..|s| - 1], o)
  }

  /** Appending an element equal to o makes it the last match; any other element
      leaves the last match where it was. */
  lemma LastIndexAppend<T>(s: seq<T>, x: T, o: T)
    ensures LastIndex(s + [x], o) == if x == o then |s| else LastIndex(s, o)
  {
    assert (s + [x])[..|s|] == s;
  }

  /** s without its last element equal to o; s itself when nothing equals o. */
  function RemoveLast<T(==)>(s: seq<T>, o: T): (r: seq<T>)
    ensures o !in s ==> r == s
    ensures o in s ==> |r| == |s| - 1 && multiset(r) == multiset(s) - multiset{o}
    ensures o in s ==> exists k :: 0 <= k < |s| && s[k] == o && o !in s[k + 1..] && r == s[..k] + s[k + 1..]
  {
    var k := LastIndex(s, o);
    if k < 0 then s
    else
      RemoveAt(s, k)
  }

  /** No element occurs twice. */
  predicate Distinct<T(==)>(s: seq<T>)
  {
    forall i, j :: 0 <= i < j < |s| ==> s[i] != s[j]
  }

  /** In a sequence without repetitions the last match of s[i] is s[i] itself, so
      removing the object removes exactly index i. */
  lemma RemoveLastDistinct<T>(s: seq<T>, i: nat)
    requires Distinct(s) && i < |s|
    ensures LastIndex(s, s[i]) == i
    ensures RemoveLast(s, s[i]) == RemoveAt(s, i)
  {
  }

  /** Removing an element keeps a sequence free of repetitions. */
  lemma RemoveLastKeepsDistinct<T>(s: seq<T>, o: T)
    requires Distinct(s)
    ensures Distinct(RemoveLast(s, o))
  {
    var k := LastIndex(s, o);
    if k >= 0 {
      var r := RemoveAt(s, k);
      forall i, j | 0 <= i < j < |r|
        ensures r[i] != r[j]
      {
        var i' := if i < k then i else i + 1;
        var j' := if j < k then j else j + 1;
        assert r[i] == s[i'] && r[j] == s[j'] && i' < j';
      }
    }
  }

  /** The Array extension `removeObject`: one pass over the array remembers the
      index of the latest element equal to `o`; afterwards that element, if
      any, is removed in place. */
  method RemoveObject<T(==)>(a: seq<T>, o: T) returns (r: seq<T>)
    ensures r == RemoveLast(a, o)
  {
    var index: int := -1;
    var idx := 0;
    while idx < |a|
      invariant 0 <= idx <= |a|
      invariant index == LastIndex(a[..idx], o)
    {
      LastIndexAppend(a[..idx], a[idx], o);
      assert a[..idx + 1] == a[..idx] + [a[idx]];
      if a[idx] == o {
        index := idx;
      }
      idx := idx + 1;
    }
    assert a[..idx] == a;
    if index >= 0 {
      r := RemoveAt(a, index);
    } else {
      r := a;
    }
  }
}
