/**
 * `Array.prototype.sort(compare)`, which is stable (ECMAScript 2019 and
 * later): a comparator returns a number whose sign says which of two
 * elements goes first, and elements that compare equal keep their order.
 *
 * `StableSort` is insertion sort under such a comparator. For a consistent
 * comparator it yields the one permutation of its input that is sorted and
 * keeps every group of tied elements in input order, which is what the
 * browser's sort yields.
 */
module Sorting {
  import opened Seqs

  function Sign(x: int): int {
    if x < 0 then -1 else if x == 0 then 0 else 1
  }

  /**
   * A consistent comparator: swapping the arguments flips the sign, and
   * "goes no later than" (`cmp(a, b) <= 0`) is transitive.
   */
  ghost predicate IsComparator<T(!new)>(cmp: (T, T) -> int) {
    forall a, b, c :: ComparatorAt(cmp, a, b, c)
  }

  /** The two comparator laws at one triple of elements. */
  ghost predicate ComparatorAt<T>(cmp: (T, T) -> int, a: T, b: T, c: T) {
    && Sign(cmp(a, b)) == -Sign(cmp(b, a))
    && (cmp(a, b) <= 0 && cmp(b, c) <= 0 ==> cmp(a, c) <= 0)
  }

  /** No element goes strictly before one that precedes it. */
  ghost predicate Sorted<T>(s: seq<T>, cmp: (T, T) -> int) {
    forall i, j :: 0 <= i < j < |s| ==> cmp(s[i], s[j]) <= 0
  }

  /** The elements of `s` that tie with `x`, in the order of `s`. */
  function Ties<T(!new)>(s: seq<T>, cmp: (T, T) -> int, x: T): seq<T> {
    Filter(s, e => cmp(e, x) == 0)
  }

  /** Inserts `x` into `s` before the first element that `x` goes strictly before. */
  function Insert<T>(x: T, s: seq<T>, cmp: (T, T) -> int): (r: seq<T>)
    ensures multiset(r) == multiset(s) + multiset{x}
    decreases |s|
  {
    if s == [] then [x]
    else if cmp(x, s[0]) < 0 then [x] + s
    else
      assert s == [s[0]] + s[1..];
      [s[0]] + Insert(x, s[1..], cmp)
  }

  /** Stable sort: a permutation of `s`. */
  function StableSort<T>(s: seq<T>, cmp: (T, T) -> int): (r: seq<T>)
    ensures multiset(r) == multiset(s)
    decreases |s|
  {
    if s == [] then []
    else
      assert s == s[..|s| - 1] + [s[|s| - 1]];
      Insert(s[|s| - 1], StableSort(s[..|s| - 1], cmp), cmp)
  }

  lemma SignFlip<T(!new)>(cmp: (T, T) -> int, a: T, b: T)
    requires IsComparator(cmp)
    ensures cmp(a, b) >= 0 ==> cmp(b, a) <= 0
    ensures cmp(a, b) <= 0 ==> cmp(b, a) >= 0
    ensures cmp(a, b) == 0 ==> cmp(b, a) == 0
  {
    assert ComparatorAt(cmp, a, b, a);
  }

  lemma LeTrans<T(!new)>(cmp: (T, T) -> int, a: T, b: T, c: T)
    requires IsComparator(cmp)
    requires cmp(a, b) <= 0 && cmp(b, c) <= 0
    ensures cmp(a, c) <= 0
  {
    assert ComparatorAt(cmp, a, b, c);
  }

  /** "Strictly before" followed by "no later than" is "strictly before". */
  lemma StrictThenLe<T(!new)>(cmp: (T, T) -> int, a: T, b: T, c: T)
    requires IsComparator(cmp)
    requires cmp(a, b) < 0 && cmp(b, c) <= 0
    ensures cmp(a, c) < 0
  {
    if cmp(a, c) >= 0 {
      SignFlip(cmp, a, c);
      LeTrans(cmp, b, c, a);
      SignFlip(cmp, b, a);
    }
  }

  /** Elements tied with the same `y` are tied with each other. */
  lemma TiesWithSame<T(!new)>(cmp: (T, T) -> int, a: T, b: T, y: T)
    requires IsComparator(cmp)
    requires cmp(a, y) == 0 && cmp(b, y) == 0
    ensures cmp(a, b) <= 0
  {
    SignFlip(cmp, b, y);
    LeTrans(cmp, a, y, b);
  }

  /** Inserting into a sorted sequence keeps it sorted. */
  lemma {:induction false} InsertSorted<T(!new)>(x: T, s: seq<T>, cmp: (T, T) -> int)
    requires IsComparator(cmp) && Sorted(s, cmp)
    ensures Sorted(Insert(x, s, cmp), cmp)
    decreases |s|
  {
    if s != [] {
      var r := Insert(x, s, cmp);
      if cmp(x, s[0]) < 0 {
        forall j | 1 <= j < |r| ensures cmp(x, r[j]) < 0 {
          if j > 1 {
            StrictThenLe(cmp, x, s[0], s[j - 1]);
          }
        }
      } else {
        var rest := Insert(x, s[1..], cmp);
        InsertSorted(x, s[1..], cmp);
        SignFlip(cmp, x, s[0]);
        forall j | 0 <= j < |rest| ensures cmp(s[0], rest[j]) <= 0 {
          assert rest[j] in multiset(rest);
          if rest[j] != x {
            assert rest[j] in multiset(s[1..]);
            var k :| 0 <= k < |s[1..]| && s[1..][k] == rest[j];
            assert s[k + 1] == rest[j];
          }
        }
        assert r == [s[0]] + rest;
      }
    }
  }

  /** The result of `StableSort` is sorted. */
  lemma {:induction false} StableSortSorted<T(!new)>(s: seq<T>, cmp: (T, T) -> int)
    requires IsComparator(cmp)
    ensures Sorted(StableSort(s, cmp), cmp)
    decreases |s|
  {
    if s != [] {
      StableSortSorted(s[..|s| - 1], cmp);
      InsertSorted(s[|s| - 1], StableSort(s[..|s| - 1], cmp), cmp);
    }
  }

  /** Nothing that `x` goes strictly before ties with an element that `x` ties with. */
  lemma NoTiesAfter<T(!new)>(x: T, s: seq<T>, cmp: (T, T) -> int, y: T)
    requires IsComparator(cmp) && Sorted(s, cmp)
    requires s != [] && cmp(x, s[0]) < 0 && cmp(x, y) == 0
    ensures Ties(s, cmp, y) == []
  {
    forall e | e in s ensures cmp(e, y) != 0 {
      var k :| 0 <= k < |s| && s[k] == e;
      if k > 0 {
        StrictThenLe(cmp, x, s[0], e);
      }
      if cmp(e, y) == 0 {
        TiesWithSame(cmp, e, x, y);
        SignFlip(cmp, e, x);
      }
    }
    FilterNonePass(s, e => cmp(e, y) == 0);
  }

  /** Inserting adds `x` at the end of the group of elements it ties with. */
  lemma {:induction false} InsertTies<T(!new)>(x: T, s: seq<T>, cmp: (T, T) -> int, y: T)
    requires IsComparator(cmp) && Sorted(s, cmp)
    ensures Ties(Insert(x, s, cmp), cmp, y) == Ties(s, cmp, y) + (if cmp(x, y) == 0 then [x] else [])
    decreases |s|
  {
    var p := e => cmp(e, y) == 0;
    if s == [] {
      FilterCons(x, [], p);
    } else if cmp(x, s[0]) < 0 {
      assert Insert(x, s, cmp) == [x] + s;
      FilterCons(x, s, p);
      if cmp(x, y) == 0 {
        NoTiesAfter(x, s, cmp, y);
      }
    } else {
      var rest := Insert(x, s[1..], cmp);
      assert Insert(x, s, cmp) == [s[0]] + rest;
      assert Sorted(s[1..], cmp) by {
        forall i, j | 0 <= i < j < |s[1..]| ensures cmp(s[1..][i], s[1..][j]) <= 0 {
          assert s[1..][i] == s[i + 1] && s[1..][j] == s[j + 1];
        }
      }
      InsertTies(x, s[1..], cmp, y);
      FilterCons(s[0], rest, p);
      FilterCons(s[0], s[1..], p);
      assert s == [s[0]] + s[1..];
    }
  }

  /** Stability: every group of tied elements keeps its input order. */
  lemma {:induction false} StableSortStable<T(!new)>(s: seq<T>, cmp: (T, T) -> int)
    requires IsComparator(cmp)
    ensures forall y :: Ties(StableSort(s, cmp), cmp, y) == Ties(s, cmp, y)
    decreases |s|
  {
    if s != [] {
      var init, last := s[..|s| - 1], s[|s| - 1];
      StableSortStable(init, cmp);
      StableSortSorted(init, cmp);
      assert s == init + [last];
      forall y ensures Ties(StableSort(s, cmp), cmp, y) == Ties(s, cmp, y) {
        InsertTies(last, StableSort(init, cmp), cmp, y);
        FilterAppend(init, [last], e => cmp(e, y) == 0);
        FilterCons(last, [], e => cmp(e, y) == 0);
      }
    }
  }

  /** An element that goes no earlier than all of `s` is inserted at the end. */
  lemma {:induction false} InsertAtEnd<T>(x: T, s: seq<T>, cmp: (T, T) -> int)
    requires forall k :: 0 <= k < |s| ==> cmp(x, s[k]) >= 0
    ensures Insert(x, s, cmp) == s + [x]
    decreases |s|
  {
    if s != [] {
      InsertAtEnd(x, s[1..], cmp);
      assert s == [s[0]] + s[1..];
    }
  }

  /** Sorting an already sorted sequence changes nothing. */
  lemma {:induction false} StableSortOfSorted<T(!new)>(s: seq<T>, cmp: (T, T) -> int)
    requires IsComparator(cmp) && Sorted(s, cmp)
    ensures StableSort(s, cmp) == s
    decreases |s|
  {
    if s != [] {
      var init, last := s[..|s| - 1], s[|s| - 1];
      assert Sorted(init, cmp) by {
        forall i, j | 0 <= i < j < |init| ensures cmp(init[i], init[j]) <= 0 {
          assert init[i] == s[i] && init[j] == s[j];
        }
      }
      StableSortOfSorted(init, cmp);
      forall k | 0 <= k < |init| ensures cmp(last, init[k]) >= 0 {
        assert init[k] == s[k];
        assert cmp(s[k], last) <= 0;
        SignFlip(cmp, s[k], last);
      }
      InsertAtEnd(last, init, cmp);
      assert s == init + [last];
    }
  }

  /** Sorting twice is sorting once. */
  lemma StableSortIdempotent<T(!new)>(s: seq<T>, cmp: (T, T) -> int)
    requires IsComparator(cmp)
    ensures StableSort(StableSort(s, cmp), cmp) == StableSort(s, cmp)
  {
    StableSortSorted(s, cmp);
    StableSortOfSorted(StableSort(s, cmp), cmp);
  }
}
