/** A stable sort by an integer key, as JavaScript's `Array.prototype.sort`
    with the comparator `(a, b) => key(a) - key(b)`: an insertion sort that
    places each element before the equal ones that follow it. */
module Sorting {
  import opened Sequences

  /** Keys never decrease along the list. */
  predicate Ascending<T>(s: seq<T>, key: T -> int)
  {
    forall i, j :: 0 <= i < j < |s| ==> key(s[i]) <= key(s[j])
  }

  /** In an ascending list the first key is the least and the last the
      greatest. */
  lemma AscendingEnds<T>(s: seq<T>, key: T -> int)
    requires Ascending(s, key)
    requires |s| > 0
    ensures forall i :: 0 <= i < |s| ==> key(s[0]) <= key(s[i]) <= key(s[|s| - 1])
  {
  }

  /** Puts `x` before the first element whose key is not smaller. */
  function Insert<T>(x: T, s: seq<T>, key: T -> int): (r: seq<T>)
    ensures |r| == |s| + 1
  {
    if |s| == 0 then [x]
    else if key(x) <= key(s[0]) then [x] + s
    else
      var rest := Insert(x, s[1..], key);
      assert s == [s[0]] + s[1..];
      [s[0]] + rest
  }

  /** The sorted list: same elements, ascending keys. */
  function Sort<T>(s: seq<T>, key: T -> int): (r: seq<T>)
    ensures |r| == |s|
  {
    if |s| == 0 then []
    else
      assert s == [s[0]] + s[1..];
      Insert(s[0], Sort(s[1..], key), key)
  }

  /** Inserting adds exactly one copy of `x`. */
  lemma {:induction false} InsertPermutes<T>(x: T, s: seq<T>, key: T -> int)
    ensures multiset(Insert(x, s, key)) == multiset(s) + multiset{x}
  {
    if |s| > 0 && key(x) > key(s[0]) {
      InsertPermutes(x, s[1..], key);
      assert s == [s[0]] + s[1..];
    }
  }

  /** Inserting into an ascending list keeps it ascending. */
  lemma {:induction false} InsertAscending<T>(x: T, s: seq<T>, key: T -> int)
    requires Ascending(s, key)
    ensures Ascending(Insert(x, s, key), key)
  {
    if |s| > 0 && key(x) > key(s[0]) {
      var rest := Insert(x, s[1..], key);
      InsertAscending(x, s[1..], key);
      InsertPermutes(x, s[1..], key);
      forall k | 0 <= k < |rest|
        ensures key(s[0]) <= key(rest[k])
      {
        assert rest[k] in multiset(rest);
        if rest[k] != x {
          assert rest[k] in multiset(s[1..]);
        }
      }
    }
  }

  /** Sorting permutes: every value keeps its number of copies. */
  lemma {:induction false} SortPermutes<T>(s: seq<T>, key: T -> int)
    ensures multiset(Sort(s, key)) == multiset(s)
  {
    if |s| > 0 {
      SortPermutes(s[1..], key);
      InsertPermutes(s[0], Sort(s[1..], key), key);
      assert s == [s[0]] + s[1..];
    }
  }

  /** The sorted list is ascending. */
  lemma {:induction false} SortAscending<T>(s: seq<T>, key: T -> int)
    ensures Ascending(Sort(s, key), key)
  {
    if |s| > 0 {
      SortAscending(s[1..], key);
      InsertAscending(s[0], Sort(s[1..], key), key);
    }
  }

  /** The elements whose key is `k`. */
  function KeyIs<T>(key: T -> int, k: int): T -> bool
  {
    (x: T) => key(x) == k
  }

  /** The elements whose key is at least `k`. */
  function KeyAtLeast<T>(key: T -> int, k: int): T -> bool
  {
    (x: T) => key(x) >= k
  }

  lemma {:induction false} InsertKeyIs<T(!new)>(x: T, s: seq<T>, key: T -> int, k: int)
    ensures Filter(Insert(x, s, key), KeyIs(key, k))
         == (if key(x) == k then [x] else []) + Filter(s, KeyIs(key, k))
  {
    var p := KeyIs(key, k);
    if |s| == 0 || key(x) <= key(s[0]) {
      assert Insert(x, s, key) == [x] + s;
      FilterCons(x, s, p);
    } else {
      var rest := Insert(x, s[1..], key);
      InsertKeyIs(x, s[1..], key, k);
      assert Insert(x, s, key) == [s[0]] + rest;
      FilterCons(s[0], rest, p);
      assert s == [s[0]] + s[1..];
      FilterCons(s[0], s[1..], p);
      var tail := Filter(s[1..], p);
      var mine: seq<T> := if p(x) then [x] else [];
      if p(s[0]) {
        assert Filter(s, p) == [s[0]] + tail;
        assert Filter(Insert(x, s, key), p) == [s[0]] + Filter(rest, p);
        assert !p(x);
        assert mine + Filter(s, p) == Filter(s, p);
      } else {
        assert Filter(s, p) == tail;
        assert Filter(Insert(x, s, key), p) == Filter(rest, p);
      }
    }
  }

  /** The sort is stable: the elements sharing one key keep their order. */
  lemma {:induction false} SortStable<T(!new)>(s: seq<T>, key: T -> int, k: int)
    ensures Filter(Sort(s, key), KeyIs(key, k)) == Filter(s, KeyIs(key, k))
  {
    if |s| > 0 {
      SortStable(s[1..], key, k);
      InsertKeyIs(s[0], Sort(s[1..], key), key, k);
      assert s == [s[0]] + s[1..];
      FilterCons(s[0], s[1..], KeyIs(key, k));
    }
  }

  lemma {:induction false} InsertKeyAtLeast<T(!new)>(x: T, s: seq<T>, key: T -> int, k: int)
    ensures Filter(Insert(x, s, key), KeyAtLeast(key, k))
         == if key(x) >= k then Insert(x, Filter(s, KeyAtLeast(key, k)), key)
            else Filter(s, KeyAtLeast(key, k))
  {
    var p := KeyAtLeast(key, k);
    if |s| == 0 {
      assert Insert(x, s, key) == [x] + s;
      FilterCons(x, s, p);
      assert Filter(s, p) == [];
    } else if key(x) <= key(s[0]) {
      assert Insert(x, s, key) == [x] + s;
      FilterCons(x, s, p);
      assert s == [s[0]] + s[1..];
      FilterCons(s[0], s[1..], p);
      if p(x) {
        assert p(s[0]);
        var f := Filter(s, p);
        assert Insert(x, f, key) == [x] + f;
      }
    } else {
      var rest := Insert(x, s[1..], key);
      InsertKeyAtLeast(x, s[1..], key, k);
      assert Insert(x, s, key) == [s[0]] + rest;
      FilterCons(s[0], rest, p);
      assert s == [s[0]] + s[1..];
      FilterCons(s[0], s[1..], p);
      var tail := Filter(s[1..], p);
      if p(s[0]) {
        var f := [s[0]] + tail;
        assert Filter(s, p) == f;
        assert Filter(Insert(x, s, key), p) == [s[0]] + Filter(rest, p);
        if p(x) {
          assert f[1..] == tail;
          assert Insert(x, f, key) == [s[0]] + Insert(x, tail, key);
        }
      } else {
        assert Filter(s, p) == tail;
        assert Filter(Insert(x, s, key), p) == Filter(rest, p);
      }
    }
  }

  /** Sorting then keeping the elements with a key at least `k` is the same
      as keeping them first and sorting afterwards. */
  lemma {:induction false} SortThenFilter<T(!new)>(s: seq<T>, key: T -> int, k: int)
    ensures Filter(Sort(s, key), KeyAtLeast(key, k)) == Sort(Filter(s, KeyAtLeast(key, k)), key)
  {
    var p := KeyAtLeast(key, k);
    if |s| > 0 {
      SortThenFilter(s[1..], key, k);
      InsertKeyAtLeast(s[0], Sort(s[1..], key), key, k);
      assert s == [s[0]] + s[1..];
      FilterCons(s[0], s[1..], p);
      var tail := Filter(s[1..], p);
      if p(s[0]) {
        var f := [s[0]] + tail;
        assert Filter(s, p) == f;
        assert f[1..] == tail;
        assert Sort(f, key) == Insert(s[0], Sort(tail, key), key);
      } else {
        assert Filter(s, p) == tail;
      }
    }
  }

  lemma {:induction false} SumInsert<T>(x: T, s: seq<T>, key: T -> int, f: T -> real)
    ensures Sum(Insert(x, s, key), f) == f(x) + Sum(s, f)
  {
    if |s| == 0 || key(x) <= key(s[0]) {
      assert Insert(x, s, key) == [x] + s;
      assert ([x] + s)[1..] == s;
    } else {
      var rest := Insert(x, s[1..], key);
      SumInsert(x, s[1..], key, f);
      assert Insert(x, s, key) == [s[0]] + rest;
      assert ([s[0]] + rest)[1..] == rest;
    }
  }

  /** Sorting does not change a sum. */
  lemma {:induction false} SumSorted<T>(s: seq<T>, key: T -> int, f: T -> real)
    ensures Sum(Sort(s, key), f) == Sum(s, f)
  {
    if |s| > 0 {
      SumSorted(s[1..], key, f);
      SumInsert(s[0], Sort(s[1..], key), key, f);
    }
  }
}
