/** Generic helpers over sequences: the document store's collections are
    sequences in natural (insertion) order, and every query of the store is a
    filter or a first-match search over one of them. */
module Collections {

  datatype Option<+T> = None | Some(value: T)

  /** The elements of `s` that satisfy `f`, in their original order
      (a `find` with a filter document). */
  function Filter<T(!new)>(s: seq<T>, f: T -> bool): (r: seq<T>)
    ensures |r| <= |s|
    ensures forall x :: x in r <==> x in s && f(x)
  {
    if s == [] then []
    else if f(s[0]) then [s[0]] + Filter(s[1..], f)
    else Filter(s[1..], f)
  }

  /** The index of the first element of `s` that satisfies `f` (a `findOne`
      over a collection in natural order). */
  function IndexWhere<T(!new)>(s: seq<T>, f: T -> bool): (r: Option<nat>)
    ensures r.Some? ==> r.value < |s| && f(s[r.value])
    ensures r.Some? ==> forall j :: 0 <= j < r.value ==> !f(s[j])
    ensures r.None? <==> forall j :: 0 <= j < |s| ==> !f(s[j])
    ensures r.None? <==> forall x :: x in s ==> !f(x)
  {
    if s == [] then None
    else if f(s[0]) then Some(0)
    else
      match IndexWhere(s[1..], f)
      case None =>
        assert forall j :: 1 <= j < |s| ==> s[j] == s[1..][j - 1];
        None
      case Some(k) =>
        assert forall j :: 1 <= j <= k + 1 ==> s[j] == s[1..][j - 1];
        Some(k + 1)
  }

  /** No two positions of `s` carry the same key (a unique index). */
  ghost predicate DistinctKeys<T, K>(s: seq<T>, key: T -> K) {
    forall i, j :: 0 <= i < |s| && 0 <= j < |s| && i != j ==> key(s[i]) != key(s[j])
  }

  /** No element of `s` carries the key `k`. */
  ghost predicate KeyFree<T, K>(s: seq<T>, key: T -> K, k: K) {
    forall i :: 0 <= i < |s| ==> key(s[i]) != k
  }

  /** No two positions of `s` hold the same element. */
  ghost predicate NoDuplicates<T>(s: seq<T>) {
    forall i, j :: 0 <= i < |s| && 0 <= j < |s| && i != j ==> s[i] != s[j]
  }

  /** Distinct keys imply distinct elements. */
  lemma DistinctKeysNoDuplicates<T, K>(s: seq<T>, key: T -> K)
    requires DistinctKeys(s, key)
    ensures NoDuplicates(s)
  {
    forall i, j | 0 <= i < |s| && 0 <= j < |s| && i != j ensures s[i] != s[j] {
      assert key(s[i]) != key(s[j]);
    }
  }

  /** Removing the elements that fail a test keeps a unique index unique. */
  lemma {:induction false} FilterKeepsDistinctKeys<T(!new), K>(s: seq<T>, f: T -> bool, key: T -> K)
    requires DistinctKeys(s, key)
    ensures DistinctKeys(Filter(s, f), key)
  {
    if s != [] {
      var tail := s[1..];
      assert DistinctKeys(tail, key) by {
        forall i, j | 0 <= i < |tail| && 0 <= j < |tail| && i != j
          ensures key(tail[i]) != key(tail[j])
        {
          assert tail[i] == s[i + 1] && tail[j] == s[j + 1];
        }
      }
      FilterKeepsDistinctKeys(tail, f, key);
      if f(s[0]) {
        var r := Filter(s, f);
        var rest := Filter(tail, f);
        assert r == [s[0]] + rest;
        forall y | y in rest ensures key(y) != key(s[0]) {
          var k :| 0 <= k < |tail| && tail[k] == y;
          assert y == s[k + 1];
        }
        forall i, j | 0 <= i < |r| && 0 <= j < |r| && i != j ensures key(r[i]) != key(r[j]) {
          if i == 0 {
            assert r[j] == rest[j - 1] && r[j] in rest;
          } else if j == 0 {
            assert r[i] == rest[i - 1] && r[i] in rest;
          } else {
            assert r[i] == rest[i - 1] && r[j] == rest[j - 1];
          }
        }
      }
    }
  }

  /** The set of elements of `s` that satisfy `f`. */
  ghost function Matching<T(!new)>(s: seq<T>, f: T -> bool): set<T> {
    set x | x in s && f(x)
  }

  /** On a sequence without repeated elements, the length of a filter is the
      number of distinct elements that pass it (a `countDocuments`). */
  lemma {:induction false} FilterLengthIsCardinality<T(!new)>(s: seq<T>, f: T -> bool)
    requires NoDuplicates(s)
    ensures |Filter(s, f)| == |Matching(s, f)|
  {
    if s == [] {
      assert Matching(s, f) == {};
    } else {
      var tail := s[1..];
      assert NoDuplicates(tail) by {
        forall i, j | 0 <= i < |tail| && 0 <= j < |tail| && i != j ensures tail[i] != tail[j] {
          assert tail[i] == s[i + 1] && tail[j] == s[j + 1];
        }
      }
      FilterLengthIsCardinality(tail, f);
      var rest := Matching(tail, f);
      var all := Matching(s, f);
      assert s[0] !in tail by {
        forall k | 0 <= k < |tail| ensures tail[k] != s[0] {
          assert tail[k] == s[k + 1];
        }
      }
      assert forall x :: x in s <==> x == s[0] || x in tail;
      if f(s[0]) {
        assert all == rest + {s[0]};
      } else {
        assert all == rest;
      }
    }
  }

  /** `s` without its element at position `i` (a `deleteOne` of a loaded document). */
  function RemoveAt<T>(s: seq<T>, i: nat): (r: seq<T>)
    requires i < |s|
    ensures |r| == |s| - 1
    ensures forall k :: 0 <= k < i ==> r[k] == s[k]
    ensures forall k :: i <= k < |r| ==> r[k] == s[k + 1]
  {
    s[..i] + s[i + 1..]
  }

  /** What `RemoveAt` keeps: every element at another position. */
  lemma RemoveAtKeepsOthers<T>(s: seq<T>, i: nat, k: nat)
    requires i < |s| && k < |s| && k != i
    ensures s[k] in RemoveAt(s, i)
  {
    var r := RemoveAt(s, i);
    if k < i { assert r[k] == s[k]; } else { assert r[k - 1] == s[k]; }
  }

  /** What `RemoveAt` loses: nothing but the element at position `i`. */
  lemma RemovedAtOnlyFrom<T>(s: seq<T>, i: nat, x: T)
    requires i < |s| && x in RemoveAt(s, i)
    ensures exists k :: 0 <= k < |s| && k != i && s[k] == x
  {
    var r := RemoveAt(s, i);
    var m :| 0 <= m < |r| && r[m] == x;
    if m < i { assert s[m] == x; } else { assert s[m + 1] == x; }
  }

  lemma RemoveAtKeepsDistinctKeys<T, K>(s: seq<T>, i: nat, key: T -> K)
    requires i < |s| && DistinctKeys(s, key)
    ensures DistinctKeys(RemoveAt(s, i), key)
  {
    var r := RemoveAt(s, i);
    forall a, b | 0 <= a < |r| && 0 <= b < |r| && a != b ensures key(r[a]) != key(r[b]) {
      var a' := if a < i then a else a + 1;
      var b' := if b < i then b else b + 1;
      assert r[a] == s[a'] && r[b] == s[b'];
    }
  }

  lemma AppendKeepsDistinctKeys<T, K>(s: seq<T>, x: T, key: T -> K)
    requires DistinctKeys(s, key) && KeyFree(s, key, key(x))
    ensures DistinctKeys(s + [x], key)
  {
  }

  lemma UpdateKeepsDistinctKeys<T, K>(s: seq<T>, i: nat, x: T, key: T -> K)
    requires i < |s| && DistinctKeys(s, key) && key(x) == key(s[i])
    ensures DistinctKeys(s[i := x], key)
  {
  }
}
