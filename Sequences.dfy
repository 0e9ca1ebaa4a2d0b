/** Sequence operations standing in for the MongoDB cursor calls (`sort`, `limit`, `delete_one`). */
module Sequences {
  import opened Options

  function Reverse<T>(s: seq<T>): (r: seq<T>)
    ensures |r| == |s|
    ensures forall i :: 0 <= i < |s| ==> r[i] == s[|s| - 1 - i]
  {
    if s == [] then [] else Reverse(s[1..]) + [s[0]]
  }

  lemma ReverseReverse<T>(s: seq<T>)
    ensures Reverse(Reverse(s)) == s
  {
    var r := Reverse(Reverse(s));
    assert |r| == |s|;
    forall i | 0 <= i < |s| ensures r[i] == s[i] { }
  }

  lemma ReversePrepend<T>(x: T, s: seq<T>)
    ensures Reverse([x] + s) == Reverse(s) + [x]
  {
    assert ([x] + s)[1..] == s;
  }

  lemma ReverseAppend<T>(s: seq<T>, x: T)
    ensures Reverse(s + [x]) == [x] + Reverse(s)
  {
    var r := Reverse(s + [x]);
    assert |r| == |[x] + Reverse(s)|;
    forall i | 0 <= i < |r| ensures r[i] == ([x] + Reverse(s))[i] { }
  }

  /** One more element of the prefix comes first in its reversal. */
  lemma ReversePrefix<T>(s: seq<T>, j: nat)
    requires j < |s|
    ensures Reverse(s[..j + 1]) == [s[j]] + Reverse(s[..j])
  {
    assert s[..j + 1] == s[..j] + [s[j]];
    ReverseAppend(s[..j], s[j]);
  }

  function Min(a: nat, b: nat): nat {
    if a < b then a else b
  }

  /** The last `k` elements (all of them when there are fewer), in their stored order. */
  function Newest<T>(s: seq<T>, k: nat): (r: seq<T>)
    ensures |r| == Min(k, |s|)
    ensures forall i :: 0 <= i < |r| ==> r[i] == s[|s| - |r| + i]
  {
    s[|s| - Min(k, |s|)..]
  }

  /** `sort(key, -1).limit(k)` on a collection stored in key order: the newest first. */
  function NewestFirst<T>(s: seq<T>, k: nat): (r: seq<T>)
    ensures |r| == Min(k, |s|)
    ensures forall i :: 0 <= i < |r| ==> r[i] == s[|s| - 1 - i]
  {
    Reverse(Newest(s, k))
  }

  /** The elements are stored in non-decreasing order of `key`. */
  ghost predicate SortedBy<T>(s: seq<T>, key: T -> int) {
    forall i, j :: 0 <= i < j < |s| ==> key(s[i]) <= key(s[j])
  }

  /** Everything below the `k` newest has a key no larger than any of them. */
  lemma NewestDominate<T>(s: seq<T>, key: T -> int, k: nat)
    requires SortedBy(s, key)
    ensures forall i, j :: 0 <= i < |s| - Min(k, |s|) && 0 <= j < Min(k, |s|) ==>
              key(s[i]) <= key(Newest(s, k)[j])
  {
    var r := Newest(s, k);
    forall i, j | 0 <= i < |s| - Min(k, |s|) && 0 <= j < Min(k, |s|) ensures key(s[i]) <= key(r[j]) {
      assert r[j] == s[|s| - |r| + j];
    }
  }

  /**
   * On a sorted sequence the last `k` elements stay sorted, and every
   * element left out has a key no larger than any kept one.
   */
  lemma NewestWindow<T>(s: seq<T>, key: T -> int, k: nat)
    requires SortedBy(s, key)
    ensures SortedBy(Newest(s, k), key)
    ensures forall i :: 0 <= i < |s| ==>
              s[i] in Newest(s, k) || forall j :: 0 <= j < |Newest(s, k)| ==> key(s[i]) <= key(Newest(s, k)[j])
  {
    NewestSorted(s, key, k);
    NewestDominate(s, key, k);
    var r := Newest(s, k);
    forall i | 0 <= i < |s| && i >= |s| - |r| ensures s[i] in r {
      assert r[i - (|s| - |r|)] == s[i];
    }
  }

  lemma NewestSorted<T>(s: seq<T>, key: T -> int, k: nat)
    requires SortedBy(s, key)
    ensures SortedBy(Newest(s, k), key)
  {
    SortedSuffix(s, key, |s| - Min(k, |s|));
  }

  lemma SortedSuffix<T>(s: seq<T>, key: T -> int, m: nat)
    requires m <= |s| && SortedBy(s, key)
    ensures SortedBy(s[m..], key)
  {
    var r := s[m..];
    forall a, b | 0 <= a < b < |r| ensures key(r[a]) <= key(r[b]) {
      assert r[a] == s[m + a] && r[b] == s[m + b];
    }
  }

  lemma SortedAppend<T>(s: seq<T>, key: T -> int, x: T)
    requires SortedBy(s, key)
    requires forall i :: 0 <= i < |s| ==> key(s[i]) <= key(x)
    ensures SortedBy(s + [x], key)
  {
    var t := s + [x];
    forall i, j | 0 <= i < j < |t| ensures key(t[i]) <= key(t[j]) {
      if j < |s| { assert t[i] == s[i] && t[j] == s[j]; } else { assert t[i] == s[i]; }
    }
  }

  /** Replacing elements by ones with the same key keeps the order. */
  lemma SortedSameKeys<T>(s: seq<T>, t: seq<T>, key: T -> int)
    requires |s| == |t| && SortedBy(s, key)
    requires forall i :: 0 <= i < |s| ==> key(t[i]) == key(s[i])
    ensures SortedBy(t, key)
  {
  }

  /** `delete_one`: the element at position i taken out, the others kept in order. */
  function RemoveAt<T>(s: seq<T>, i: nat): (r: seq<T>)
    requires i < |s|
    ensures |r| == |s| - 1
    ensures forall j :: 0 <= j < i ==> r[j] == s[j]
    ensures forall j :: i <= j < |r| ==> r[j] == s[j + 1]
  {
    s[..i] + s[i + 1..]
  }

  lemma SortedRemoveAt<T>(s: seq<T>, key: T -> int, i: nat)
    requires i < |s| && SortedBy(s, key)
    ensures SortedBy(RemoveAt(s, i), key)
  {
    var r := RemoveAt(s, i);
    forall a, b | 0 <= a < b < |r| ensures key(r[a]) <= key(r[b]) {
      var a' := if a < i then a else a + 1;
      var b' := if b < i then b else b + 1;
      assert r[a] == s[a'] && r[b] == s[b'];
    }
  }

  /** The first position holding `x`, as a query on a unique-looking key finds it. */
  function IndexOf<T(==)>(s: seq<T>, x: T): (r: Option<nat>)
    ensures r.Some? ==> r.value < |s| && s[r.value] == x && forall j :: 0 <= j < r.value ==> s[j] != x
    ensures r.None? ==> forall j :: 0 <= j < |s| ==> s[j] != x
  {
    if s == [] then None
    else if s[0] == x then Some(0)
    else
      match IndexOf(s[1..], x)
      case None => None
      case Some(k) => Some(k + 1)
  }
}
