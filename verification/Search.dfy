/** Binary search over sorted keys, as the standard library's sort.Search does it, and sorting by a
    key, of which callers know only what sort.Slice promises. */
module Search {
  import opened Prelude

  predicate Sorted(keys: seq<nat>) {
    forall i, j :: 0 <= i < j < |keys| ==> keys[i] <= keys[j]
  }

  function Bisect(keys: seq<nat>, key: nat, lo: nat, hi: nat): (r: nat)
    requires lo <= hi <= |keys|
    ensures lo <= r <= hi
    decreases hi - lo
  {
    if lo == hi then lo
    else
      var mid := (lo + hi) / 2;
      if keys[mid] < key then Bisect(keys, key, mid + 1, hi) else Bisect(keys, key, lo, mid)
  }

  /** The first place whose key is not below `key`. */
  function LowerBound(keys: seq<nat>, key: nat): (r: nat)
    ensures r <= |keys|
  {
    Bisect(keys, key, 0, |keys|)
  }

  lemma {:induction false} BisectSplits(keys: seq<nat>, key: nat, lo: nat, hi: nat)
    requires Sorted(keys) && lo <= hi <= |keys|
    requires forall i :: 0 <= i < lo ==> keys[i] < key
    requires forall i :: hi <= i < |keys| ==> keys[i] >= key
    ensures forall i :: 0 <= i < Bisect(keys, key, lo, hi) ==> keys[i] < key
    ensures forall i :: Bisect(keys, key, lo, hi) <= i < |keys| ==> keys[i] >= key
    decreases hi - lo
  {
    if lo < hi {
      var mid := (lo + hi) / 2;
      if keys[mid] < key {
        BisectSplits(keys, key, mid + 1, hi);
      } else {
        BisectSplits(keys, key, lo, mid);
      }
    }
  }

  lemma LowerBoundSplits(keys: seq<nat>, key: nat)
    requires Sorted(keys)
    ensures forall i :: 0 <= i < LowerBound(keys, key) ==> keys[i] < key
    ensures forall i :: LowerBound(keys, key) <= i < |keys| ==> keys[i] >= key
  {
    BisectSplits(keys, key, 0, |keys|);
  }

  ghost predicate SortedBy<T>(s: seq<T>, key: T -> nat) {
    forall i, j :: 0 <= i < j < |s| ==> key(s[i]) <= key(s[j])
  }

  /** The same elements in the order of their keys. The order of equal keys is not promised. */
  method SortBy<T>(s: seq<T>, key: T -> nat) returns (r: seq<T>)
    ensures multiset(r) == multiset(s) && SortedBy(r, key)
  {
    hide SortedBy;
    r := [];
    SortedEmpty(key);
    for i := 0 to |s|
      invariant multiset(r) == multiset(s[..i]) && SortedBy(r, key)
    {
      r := Insert(r, s[i], key);
      assert s[..i + 1] == s[..i] + [s[i]];
    }
    assert s[..|s|] == s;
  }

  lemma SortedEmpty<T>(key: T -> nat)
    ensures SortedBy([], key)
  {
  }

  method Insert<T>(s: seq<T>, x: T, key: T -> nat) returns (r: seq<T>)
    requires SortedBy(s, key)
    ensures multiset(r) == multiset(s) + multiset{x} && SortedBy(r, key)
  {
    hide SortedBy;
    var k := |s|;
    while k > 0 && key(s[k - 1]) > key(x)
      invariant 0 <= k <= |s|
      invariant forall j :: k <= j < |s| ==> key(s[j]) > key(x)
    {
      k := k - 1;
    }
    assert s == s[..k] + s[k..];
    r := s[..k] + [x] + s[k..];
    StaysSorted(s, x, key, k);
  }

  lemma StaysSorted<T>(s: seq<T>, x: T, key: T -> nat, k: nat)
    requires SortedBy(s, key) && k <= |s|
    requires forall j :: k <= j < |s| ==> key(s[j]) > key(x)
    requires k > 0 ==> key(s[k - 1]) <= key(x)
    ensures SortedBy(s[..k] + [x] + s[k..], key)
  {
  }

  /** Every sequence has a sorted order. */
  lemma {:induction false} SortExists<T>(s: seq<T>, key: T -> nat) returns (r: seq<T>)
    ensures multiset(r) == multiset(s) && SortedBy(r, key)
  {
    hide SortedBy;
    SortedEmpty(key);
    r := [];
    if s != [] {
      var n := |s| - 1;
      var low := SortExists(s[..n], key);
      var k := PlaceFor(low, s[n], key, |low|);
      StaysSorted(low, s[n], key, k);
      assert low == low[..k] + low[k..];
      assert s == s[..n] + [s[n]];
      r := low[..k] + [s[n]] + low[k..];
    }
  }

  lemma {:induction false} PlaceFor<T>(s: seq<T>, x: T, key: T -> nat, k: nat) returns (r: nat)
    requires k <= |s| && forall j :: k <= j < |s| ==> key(s[j]) > key(x)
    ensures r <= |s| && (forall j :: r <= j < |s| ==> key(s[j]) > key(x)) && (r > 0 ==> key(s[r - 1]) <= key(x))
  {
    r := k;
    if k > 0 && key(s[k - 1]) > key(x) {
      r := PlaceFor(s, x, key, k - 1);
    }
  }

  /** A sequence has no duplicates exactly when it holds nothing more than once. */
  lemma {:induction false} NoDupIsOnce<T>(s: seq<T>)
    ensures NoDup(s) <==> forall x :: multiset(s)[x] <= 1
  {
    if s != [] {
      var n := |s| - 1;
      assert s == s[..n] + [s[n]];
      NoDupIsOnce(s[..n]);
      assert forall x :: x != s[n] ==> multiset(s)[x] == multiset(s[..n])[x];
      assert multiset(s)[s[n]] == multiset(s[..n])[s[n]] + 1;
      if NoDup(s) {
        assert s[n] !in s[..n];
      } else if NoDup(s[..n]) {
        var i, j :| 0 <= i < j < |s| && s[i] == s[j];
        assert s[i] in s[..n];
      }
    }
  }

  /** Distinct elements stay distinct in any other order. */
  lemma NoDupAnyOrder<T>(s: seq<T>, t: seq<T>)
    requires NoDup(s) && multiset(s) == multiset(t)
    ensures NoDup(t)
  {
    NoDupIsOnce(s);
    NoDupIsOnce(t);
  }
}
