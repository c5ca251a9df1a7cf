/**
 * Python's `list.sort(key=..., reverse=True)` as `select_best_quality` uses it
 * (main.py:458-460): the list ends up in descending key order, it keeps the same
 * elements, and elements with equal keys keep their original relative order, because
 * Python's sort is stable and `reverse=True` preserves that stability.
 */
module Sorting {
  import opened Wrappers

  /** A sort key: a pair compared lexicographically, as Python compares tuples. A key made of a
      single number uses `minor == 0`. */
  datatype Key = Key(major: nat, minor: nat)

  /** `a > b` in tuple order. */
  predicate Above(a: Key, b: Key) {
    a.major > b.major || (a.major == b.major && a.minor > b.minor)
  }

  /** Descending order: no later element has a larger key than an earlier one. */
  predicate SortedDesc<T>(s: seq<T>, key: T -> Key) {
    forall i, j :: 0 <= i < j < |s| ==> !Above(key(s[j]), key(s[i]))
  }

  /** Puts `x` into a descending list just before the first element whose key is strictly smaller,
      so that `x` comes after every element with the same key. */
  function Insert<T>(x: T, s: seq<T>, key: T -> Key): (r: seq<T>)
    ensures |r| == |s| + 1
    ensures multiset(r) == multiset(s) + multiset{x}
    ensures forall i :: 0 <= i < |r| ==> r[i] == x || r[i] in s
  {
    if s == [] then [x]
    else if Above(key(x), key(s[0])) then [x] + s
    else
      var r := [s[0]] + Insert(x, s[1..], key);
      assert s == [s[0]] + s[1..];
      r
  }

  /** The sort: each element, taken in order, is inserted into the sorted list of the ones
      before it. The result is a descending permutation of the input. */
  function SortDesc<T>(s: seq<T>, key: T -> Key): (r: seq<T>)
    ensures multiset(r) == multiset(s)
    ensures SortedDesc(r, key)
  {
    if s == [] then []
    else
      var sorted := SortDesc(s[..|s| - 1], key);
      InsertSorted(s[|s| - 1], sorted, key);
      LastSplit(s);
      Insert(s[|s| - 1], sorted, key)
  }

  /** A non-empty list is its prefix without the last element, then that element. */
  lemma LastSplit<T>(s: seq<T>)
    requires s != []
    ensures s == s[..|s| - 1] + [s[|s| - 1]]
  {
  }

  /** Every element of a descending list has a key no larger than its head's. */
  lemma HeadIsLargest<T>(s: seq<T>, key: T -> Key, y: T)
    requires SortedDesc(s, key) && y in s
    ensures !Above(key(y), key(s[0]))
  {
    var j :| 0 <= j < |s| && s[j] == y;
    if j > 0 {
      assert !Above(key(s[j]), key(s[0]));
    }
  }

  /** Insertion keeps a list sorted. */
  lemma {:induction false} InsertSorted<T>(x: T, s: seq<T>, key: T -> Key)
    requires SortedDesc(s, key)
    ensures SortedDesc(Insert(x, s, key), key)
  {
    if s != [] {
      if Above(key(x), key(s[0])) {
        var r := Insert(x, s, key);
        forall i, j | 0 <= i < j < |r| ensures !Above(key(r[j]), key(r[i])) {
          if i == 0 {
            HeadIsLargest(s, key, r[j]);
          } else {
            assert r[i] == s[i - 1] && r[j] == s[j - 1];
          }
        }
      } else {
        InsertSorted(x, s[1..], key);
        var t := Insert(x, s[1..], key);
        var r := Insert(x, s, key);
        assert r == [s[0]] + t;
        forall j | 0 <= j < |t| ensures !Above(key(t[j]), key(s[0])) {
          if t[j] != x {
            HeadIsLargest(s, key, t[j]);
          }
        }
        forall i, j | 0 <= i < j < |r| ensures !Above(key(r[j]), key(r[i])) {
          if i > 0 {
            assert r[i] == t[i - 1] && r[j] == t[j - 1];
          } else {
            assert r[j] == t[j - 1];
          }
        }
      }
    }
  }

  /** The test "has key `k`". */
  function KeyIs<T>(key: T -> Key, k: Key): T -> bool {
    x => key(x) == k
  }

  /** The elements of `s` whose key is `k`, in their order in `s`. */
  function WithKey<T>(s: seq<T>, key: T -> Key, k: Key): seq<T> {
    Filter(s, KeyIs(key, k))
  }

  /** In a descending list whose head is below `x`, no element has the key of `x`. */
  lemma NoneWithKey<T>(x: T, s: seq<T>, key: T -> Key)
    requires SortedDesc(s, key) && s != [] && Above(key(x), key(s[0]))
    ensures WithKey(s, key, key(x)) == []
  {
    forall j | 0 <= j < |s| ensures !KeyIs(key, key(x))(s[j]) {
      HeadIsLargest(s, key, s[j]);
    }
    FilterHead(s, KeyIs(key, key(x)));
  }

  /** Inserting `x` puts it after the elements already there with the same key. */
  lemma {:induction false} InsertStable<T>(x: T, s: seq<T>, key: T -> Key, k: Key)
    requires SortedDesc(s, key)
    ensures WithKey(Insert(x, s, key), key, k) == WithKey(s, key, k) + WithKey([x], key, k)
  {
    var p := KeyIs(key, k);
    if s == [] {
    } else if Above(key(x), key(s[0])) {
      FilterAppend([x], s, p);
      if key(x) == k {
        NoneWithKey(x, s, key);
      }
    } else {
      var rest := s[1..];
      InsertStable(x, rest, key, k);
      assert Insert(x, s, key) == [s[0]] + Insert(x, rest, key);
      FilterAppend([s[0]], Insert(x, rest, key), p);
      HeadSplit(s);
      FilterAppend([s[0]], rest, p);
    }
  }

  lemma HeadSplit<T>(s: seq<T>)
    requires s != []
    ensures s == [s[0]] + s[1..]
  { }

  /** Stability: for every key, the elements with that key appear in the sorted list in the
      same order as in the input. */
  lemma {:induction false} SortStable<T>(s: seq<T>, key: T -> Key, k: Key)
    ensures WithKey(SortDesc(s, key), key, k) == WithKey(s, key, k)
  {
    if s != [] {
      var init := s[..|s| - 1];
      var x := s[|s| - 1];
      SortStable(init, key, k);
      InsertStable(x, SortDesc(init, key), key, k);
      assert SortDesc(s, key) == Insert(x, SortDesc(init, key), key);
      LastSplit(s);
      FilterAppend(init, [x], KeyIs(key, k));
    }
  }

  /** The head of the sorted list is the first element of the input, in input order, among
      those with the largest key: every element's key is at most its key, and every earlier
      element's key differs from it. */
  lemma FirstOfSort<T>(s: seq<T>, key: T -> Key) returns (i: nat)
    requires s != []
    ensures i < |s| && SortDesc(s, key)[0] == s[i]
    ensures forall j :: 0 <= j < |s| ==> !Above(key(s[j]), key(s[i]))
    ensures forall j :: 0 <= j < i ==> key(s[j]) != key(s[i])
  {
    var r := SortDesc(s, key);
    var k := key(r[0]);
    var p := KeyIs(key, k);
    assert |r| == |s| by {
      assert |multiset(r)| == |multiset(s)|;
    }
    FilterHead(r, p);
    SortStable(s, key, k);
    FilterHead(s, p);
    i := FirstIndex(s, p).value;
    forall j | 0 <= j < |s| ensures !Above(key(s[j]), key(s[i])) {
      assert s[j] in multiset(r);
      HeadIsLargest(r, key, s[j]);
    }
  }
}
