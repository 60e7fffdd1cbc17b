/** `Array.prototype.sort` with a comparator of the form `key(b) - key(a)`,
    as the commits endpoint uses it (src/app/api/commits/route.ts, the merge
    sort of commits by instant and the ranking of a day's repositories by
    count). The language guarantees a stable sort, so the result is fixed by
    the input: non-increasing keys, the same elements, and elements with equal
    keys in their input order. It is written here as an insertion sort. */
module StableSort {

  /** Non-increasing by key. */
  ghost predicate SortedDesc<T>(s: seq<T>, key: T -> int) {
    forall i, j :: 0 <= i < j < |s| ==> key(s[i]) >= key(s[j])
  }

  /** The elements of `s` whose key is `k`, in their order in `s`. */
  function WithKey<T>(s: seq<T>, key: T -> int, k: int): seq<T>
    decreases |s|
  {
    if s == [] then []
    else (if key(s[0]) == k then [s[0]] else []) + WithKey(s[1..], key, k)
  }

  /** Inserts `x` after every element whose key is at least `x`'s. */
  function Insert<T>(s: seq<T>, x: T, key: T -> int): seq<T>
    decreases |s|
  {
    if s == [] then [x]
    else if key(s[0]) < key(x) then [x] + s
    else [s[0]] + Insert(s[1..], x, key)
  }

  /** The stable sort, non-increasing by key. */
  function SortByKeyDesc<T>(s: seq<T>, key: T -> int): seq<T>
    decreases |s|
  {
    if s == [] then []
    else Insert(SortByKeyDesc(s[..|s| - 1], key), s[|s| - 1], key)
  }

  lemma {:induction false} WithKeyAppend<T>(a: seq<T>, b: seq<T>, key: T -> int, k: int)
    ensures WithKey(a + b, key, k) == WithKey(a, key, k) + WithKey(b, key, k)
    decreases |a|
  {
    if a == [] {
      assert a + b == b;
    } else {
      WithKeyAppend(a[1..], b, key, k);
      assert (a + b)[1..] == a[1..] + b;
    }
  }

  /** Inserting adds one element, and keeps every key below any bound that
      both the sequence and `x` respect. */
  lemma {:induction false} InsertBounded<T>(s: seq<T>, x: T, key: T -> int, b: int)
    requires forall i :: 0 <= i < |s| ==> key(s[i]) <= b
    requires key(x) <= b
    ensures |Insert(s, x, key)| == |s| + 1
    ensures forall i :: 0 <= i < |Insert(s, x, key)| ==> key(Insert(s, x, key)[i]) <= b
    decreases |s|
  {
    if s != [] && key(s[0]) >= key(x) {
      InsertBounded(s[1..], x, key, b);
    }
  }

  /** Inserting into a sorted sequence keeps it sorted. */
  lemma {:induction false} InsertSorted<T>(s: seq<T>, x: T, key: T -> int)
    requires SortedDesc(s, key)
    ensures SortedDesc(Insert(s, x, key), key)
    decreases |s|
  {
    if s != [] && key(s[0]) >= key(x) {
      InsertSorted(s[1..], x, key);
      var rest := Insert(s[1..], x, key);
      InsertBounded(s[1..], x, key, key(s[0]));
      assert Insert(s, x, key) == [s[0]] + rest;
    }
  }

  /** Inserting adds exactly `x` to the multiset of elements. */
  lemma {:induction false} InsertMultiset<T>(s: seq<T>, x: T, key: T -> int)
    ensures multiset(Insert(s, x, key)) == multiset(s) + multiset{x}
    decreases |s|
  {
    if s != [] {
      assert s == [s[0]] + s[1..];
      if key(s[0]) >= key(x) {
        InsertMultiset(s[1..], x, key);
      }
    }
  }

  /** In a sorted sequence, `x` goes after the elements that share its key. */
  lemma {:induction false} InsertWithKey<T>(s: seq<T>, x: T, key: T -> int, k: int)
    requires SortedDesc(s, key)
    ensures WithKey(Insert(s, x, key), key, k) == WithKey(s, key, k) + (if key(x) == k then [x] else [])
    decreases |s|
  {
    if s == [] {
    } else if key(s[0]) < key(x) {
      assert Insert(s, x, key)[1..] == s;
      if key(x) == k {
        NoneWithLargerKey(s, key, k);
      }
    } else {
      var tail := if key(x) == k then [x] else [];
      var head := if key(s[0]) == k then [s[0]] else [];
      var rest := Insert(s[1..], x, key);
      assert SortedDesc(s[1..], key) by {
        forall i, j | 0 <= i < j < |s[1..]| ensures key(s[1..][i]) >= key(s[1..][j]) {
          assert s[1..][i] == s[i + 1] && s[1..][j] == s[j + 1];
        }
      }
      InsertWithKey(s[1..], x, key, k);
      assert Insert(s, x, key) == [s[0]] + rest;
      assert ([s[0]] + rest)[1..] == rest;
      calc {
        WithKey(Insert(s, x, key), key, k);
        head + WithKey(rest, key, k);
        head + (WithKey(s[1..], key, k) + tail);
        (head + WithKey(s[1..], key, k)) + tail;
        WithKey(s, key, k) + tail;
      }
    }
  }

  /** A sorted sequence whose first key is below `k` holds no element with
      key `k`. */
  lemma {:induction false} NoneWithLargerKey<T>(s: seq<T>, key: T -> int, k: int)
    requires SortedDesc(s, key) && (s == [] || key(s[0]) < k)
    ensures WithKey(s, key, k) == []
    decreases |s|
  {
    if s != [] {
      if |s| > 1 {
        assert key(s[1]) <= key(s[0]);
      }
      assert SortedDesc(s[1..], key) by {
        forall i, j | 0 <= i < j < |s[1..]| ensures key(s[1..][i]) >= key(s[1..][j]) {
          assert s[1..][i] == s[i + 1] && s[1..][j] == s[j + 1];
        }
      }
      NoneWithLargerKey(s[1..], key, k);
    }
  }

  /** The sort is non-increasing by key. */
  lemma {:induction false} SortByKeyDescSorted<T>(s: seq<T>, key: T -> int)
    ensures SortedDesc(SortByKeyDesc(s, key), key)
    decreases |s|
  {
    if s != [] {
      var init, last := s[..|s| - 1], s[|s| - 1];
      SortByKeyDescSorted(init, key);
      InsertSorted(SortByKeyDesc(init, key), last, key);
    }
  }

  /** The sort is a permutation of its input. */
  lemma {:induction false} SortByKeyDescPermutes<T>(s: seq<T>, key: T -> int)
    ensures multiset(SortByKeyDesc(s, key)) == multiset(s)
    decreases |s|
  {
    if s != [] {
      var init, last := s[..|s| - 1], s[|s| - 1];
      SortByKeyDescPermutes(init, key);
      InsertMultiset(SortByKeyDesc(init, key), last, key);
      assert s == init + [last];
    }
  }

  /** The sort is stable: the elements sharing any one key keep their input
      order. */
  lemma {:induction false} SortByKeyDescStable<T>(s: seq<T>, key: T -> int)
    ensures forall k :: WithKey(SortByKeyDesc(s, key), key, k) == WithKey(s, key, k)
    decreases |s|
  {
    if s != [] {
      var init, last := s[..|s| - 1], s[|s| - 1];
      SortByKeyDescStable(init, key);
      SortByKeyDescSorted(init, key);
      assert s == init + [last];
      forall k ensures WithKey(SortByKeyDesc(s, key), key, k) == WithKey(s, key, k) {
        InsertWithKey(SortByKeyDesc(init, key), last, key, k);
        WithKeyAppend(init, [last], key, k);
      }
    }
  }

  /** Sorting keeps the length. */
  lemma SortByKeyDescLength<T>(s: seq<T>, key: T -> int)
    ensures |SortByKeyDesc(s, key)| == |s|
  {
    SortByKeyDescPermutes(s, key);
    assert |multiset(SortByKeyDesc(s, key))| == |multiset(s)|;
  }
}
