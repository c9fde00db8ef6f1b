/** A stable sort on an integer key. JavaScript's `Array.prototype.sort`
    is required to be stable, and the tracker calls it with comparators of
    the form `(a, b) => key(a) - key(b)`; this module defines that sort once,
    as an insertion sort, and proves what it promises: the result is
    ordered by key, is a permutation of the input, and elements with equal
    keys keep their input order. */
module StableSort {
  import opened Collections

  /** Keys never decrease along `s`. */
  predicate Sorted<T>(s: seq<T>, key: T -> int)
  {
    forall i, j :: 0 <= i < j < |s| ==> key(s[i]) <= key(s[j])
  }

  /** Inserts `x` into sorted `s` after every element whose key is at most
      `key(x)`, which is what keeps the sort stable. */
  function Insert<T(!new)>(x: T, s: seq<T>, key: T -> int): (r: seq<T>)
    requires Sorted(s, key)
    ensures Sorted(r, key)
    ensures multiset(r) == multiset(s) + multiset{x}
    ensures forall y :: y in r <==> y == x || y in s
    decreases |s|
  {
    if |s| == 0 then [x]
    else if key(x) < key(s[0]) then [x] + s
    else
      var rest := Insert(x, s[1..], key);
      assert s == [s[0]] + s[1..];
      assert forall j :: 0 <= j < |rest| ==> key(s[0]) <= key(rest[j]) by {
        forall j | 0 <= j < |rest|
          ensures key(s[0]) <= key(rest[j])
        {
          assert rest[j] in rest;
          if rest[j] != x {
            var k :| 0 <= k < |s[1..]| && s[1..][k] == rest[j];
            assert s[k + 1] == rest[j];
          }
        }
      }
      [s[0]] + rest
  }

  /** Sorts `s` by `key`: the last element is inserted into the sorted
      prefix, after all elements already there with an equal key. */
  function Sort<T(!new)>(s: seq<T>, key: T -> int): (r: seq<T>)
    ensures Sorted(r, key)
    ensures multiset(r) == multiset(s)
    ensures |r| == |s|
    decreases |s|
  {
    if |s| == 0 then []
    else
      var init := s[..|s| - 1];
      assert s == init + [s[|s| - 1]];
      assert multiset(s) == multiset(init) + multiset{s[|s| - 1]};
      Insert(s[|s| - 1], Sort(init, key), key)
  }

  lemma {:induction false} InsertBeforeAll<T(!new)>(x: T, s: seq<T>, key: T -> int)
    requires Sorted(s, key)
    requires forall i :: 0 <= i < |s| ==> key(x) < key(s[i])
    ensures Insert(x, s, key) == [x] + s
  {
  }

  lemma {:induction false} InsertAfterAll<T(!new)>(x: T, s: seq<T>, key: T -> int)
    requires Sorted(s, key)
    requires forall i :: 0 <= i < |s| ==> key(s[i]) <= key(x)
    ensures Insert(x, s, key) == s + [x]
    decreases |s|
  {
    if |s| > 0 {
      InsertAfterAll(x, s[1..], key);
      assert s == [s[0]] + s[1..];
    }
  }

  lemma {:induction false} FilterSorted<T(!new)>(s: seq<T>, p: T -> bool, key: T -> int)
    requires Sorted(s, key)
    ensures Sorted(Filter(s, p), key)
    decreases |s|
  {
    if |s| > 0 {
      FilterSorted(s[1..], p, key);
      FilterMembers(s[1..], p);
      var rest := Filter(s[1..], p);
      if p(s[0]) {
        var r := [s[0]] + rest;
        forall i, j | 0 <= i < j < |r|
          ensures key(r[i]) <= key(r[j])
        {
          if i == 0 {
            assert r[j] in s[1..];
            var k :| 0 <= k < |s[1..]| && s[1..][k] == r[j];
            assert s[k + 1] == r[j];
          } else {
            assert r[i] == rest[i - 1] && r[j] == rest[j - 1];
          }
        }
      }
    }
  }

  /** Every element of `Filter(s, p)` has a key at least that of the head of sorted `s`. */
  lemma FilterAboveHead<T(!new)>(s: seq<T>, p: T -> bool, key: T -> int, bound: int)
    requires Sorted(s, key)
    requires |s| > 0 && bound < key(s[0])
    ensures forall i :: 0 <= i < |Filter(s, p)| ==> bound < key(Filter(s, p)[i])
  {
    var fs := Filter(s, p);
    FilterMembers(s, p);
    forall i | 0 <= i < |fs|
      ensures bound < key(fs[i])
    {
      assert fs[i] in s;
      var k :| 0 <= k < |s| && s[k] == fs[i];
      assert key(s[0]) <= key(s[k]);
    }
  }

  /** Filtering commutes with insertion into a sorted sequence. */
  lemma {:induction false} FilterInsert<T(!new)>(x: T, s: seq<T>, p: T -> bool, key: T -> int)
    requires Sorted(s, key)
    ensures Sorted(Filter(s, p), key)
    ensures Filter(Insert(x, s, key), p)
         == if p(x) then Insert(x, Filter(s, p), key) else Filter(s, p)
    decreases |s|
  {
    FilterSorted(s, p, key);
    if |s| == 0 {
    } else if key(x) < key(s[0]) {
      FilterInsertFront(x, s, p, key);
    } else {
      var tail := s[1..];
      FilterSorted(tail, p, key);
      FilterInsert(x, tail, p, key);
      FilterInsertBehind(x, s, p, key);
    }
  }

  lemma FilterInsertFront<T(!new)>(x: T, s: seq<T>, p: T -> bool, key: T -> int)
    requires Sorted(s, key) && Sorted(Filter(s, p), key)
    requires |s| > 0 && key(x) < key(s[0])
    ensures Filter(Insert(x, s, key), p)
         == if p(x) then Insert(x, Filter(s, p), key) else Filter(s, p)
  {
    assert Insert(x, s, key) == [x] + s;
    assert ([x] + s)[1..] == s;
    if p(x) {
      FilterAboveHead(s, p, key, key(x));
      InsertBeforeAll(x, Filter(s, p), key);
    }
  }

  lemma FilterInsertBehind<T(!new)>(x: T, s: seq<T>, p: T -> bool, key: T -> int)
    requires |s| > 0 && key(s[0]) <= key(x)
    requires Sorted(s, key) && Sorted(Filter(s, p), key) && Sorted(Filter(s[1..], p), key)
    requires Filter(Insert(x, s[1..], key), p)
          == if p(x) then Insert(x, Filter(s[1..], p), key) else Filter(s[1..], p)
    ensures Filter(Insert(x, s, key), p)
         == if p(x) then Insert(x, Filter(s, p), key) else Filter(s, p)
  {
    var ins := Insert(x, s[1..], key);
    FilterInsertedBehind(x, s, p, key);
    if p(s[0]) {
      KeptHead(x, s, p, key);
    } else {
      FilterCons(s, p);
      assert [] + Filter(s[1..], p) == Filter(s[1..], p);
    }
  }

  /** Inserting behind the head keeps the head, and so does the filter if
      it accepts the head. */
  lemma FilterInsertedBehind<T(!new)>(x: T, s: seq<T>, p: T -> bool, key: T -> int)
    requires |s| > 0 && key(s[0]) <= key(x)
    requires Sorted(s, key)
    ensures Filter(Insert(x, s, key), p)
         == (if p(s[0]) then [s[0]] else []) + Filter(Insert(x, s[1..], key), p)
  {
    var ins := Insert(x, s[1..], key);
    var whole := [s[0]] + ins;
    assert Insert(x, s, key) == whole;
    assert whole[0] == s[0] && whole[1..] == ins;
    FilterCons(whole, p);
  }

  lemma KeptHead<T(!new)>(x: T, s: seq<T>, p: T -> bool, key: T -> int)
    requires |s| > 0 && key(s[0]) <= key(x) && p(s[0])
    requires Sorted(Filter(s, p), key) && Sorted(Filter(s[1..], p), key)
    ensures Filter(s, p) == [s[0]] + Filter(s[1..], p)
    ensures p(x) ==> Insert(x, Filter(s, p), key) == [s[0]] + Insert(x, Filter(s[1..], p), key)
  {
    var ft := Filter(s[1..], p);
    var fs := [s[0]] + ft;
    assert Filter(s, p) == fs;
    assert fs[0] == s[0] && fs[1..] == ft;
  }

  /** Sorting commutes with filtering: the elements of the sorted sequence
      that satisfy `p` are exactly the sorted elements of `s` that do. */
  lemma {:induction false} SortFilter<T(!new)>(s: seq<T>, p: T -> bool, key: T -> int)
    ensures Filter(Sort(s, key), p) == Sort(Filter(s, p), key)
    decreases |s|
  {
    if |s| > 0 {
      var init, last := s[..|s| - 1], s[|s| - 1];
      assert s == init + [last];
      SortFilter(init, p, key);
      FilterInsert(last, Sort(init, key), p, key);
      FilterConcat(init, [last], p);
      var fi := Filter(init, p);
      if p(last) {
        assert Filter([last], p) == [last];
        var fs := fi + [last];
        assert fs[..|fs| - 1] == fi;
      } else {
        assert Filter([last], p) == [];
        assert fi + [] == fi;
      }
    }
  }

  /** Sorting an already sorted sequence changes nothing. */
  lemma {:induction false} SortSorted<T(!new)>(s: seq<T>, key: T -> int)
    requires Sorted(s, key)
    ensures Sort(s, key) == s
    decreases |s|
  {
    if |s| > 0 {
      var init, last := s[..|s| - 1], s[|s| - 1];
      SortSorted(init, key);
      InsertAfterAll(last, init, key);
      assert init + [last] == s;
    }
  }

  /** Stability: among elements that `p` singles out and that share one key,
      the sort keeps the input order. */
  lemma {:induction false} SortStable<T(!new)>(s: seq<T>, p: T -> bool, key: T -> int)
    requires forall x, y :: p(x) && p(y) ==> key(x) == key(y)
    ensures Filter(Sort(s, key), p) == Filter(s, p)
  {
    SortFilter(s, p, key);
    var fs := Filter(s, p);
    FilterMembers(s, p);
    assert Sorted(fs, key) by {
      forall i, j | 0 <= i < j < |fs|
        ensures key(fs[i]) <= key(fs[j])
      {
        assert fs[i] in fs && fs[j] in fs;
      }
    }
    SortSorted(fs, key);
  }
}
