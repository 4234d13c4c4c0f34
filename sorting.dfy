/**
 * Stable sorting and "first least element", the two library behaviours
 * every ranking of the café relies on.
 *
 * `Array.prototype.sort` (stable since the 2019 edition of ECMA-262) and
 * Python's `sorted` are stable sorts: for a comparator that is a total
 * preorder their result is the unique permutation that is ordered and keeps
 * equivalent elements in input order. `Sort` is an insertion sort with that
 * behaviour, and the lemmas below prove the three properties. `FirstLeast`
 * is the index Python's `min` returns and the element a stable sort puts
 * first.
 */
module Sorting {

  /** `le` is total and transitive (so also reflexive). */
  ghost predicate TotalPreorder<T(!new)>(le: (T, T) -> bool) {
    && (forall a, b :: le(a, b) || le(b, a))
    && (forall a, b, c :: le(a, b) && le(b, c) ==> le(a, c))
  }

  ghost predicate Sorted<T>(s: seq<T>, le: (T, T) -> bool) {
    forall i, j :: 0 <= i < j < |s| ==> le(s[i], s[j])
  }

  predicate Equivalent<T>(le: (T, T) -> bool, a: T, b: T) {
    le(a, b) && le(b, a)
  }

  /** The elements of `s` equivalent to `x`, in the order of `s`. */
  function Equivalents<T>(s: seq<T>, le: (T, T) -> bool, x: T): seq<T> {
    if s == [] then []
    else (if Equivalent(le, s[0], x) then [s[0]] else []) + Equivalents(s[1..], le, x)
  }

  /** Puts `x` in front of the first element it is not after. */
  function Insert<T>(x: T, s: seq<T>, le: (T, T) -> bool): (r: seq<T>)
    ensures multiset(r) == multiset(s) + multiset{x}
    ensures |r| == |s| + 1
  {
    if s == [] then [x]
    else if le(x, s[0]) then [x] + s
    else
      assert s == [s[0]] + s[1..];
      [s[0]] + Insert(x, s[1..], le)
  }

  /** Stable insertion sort by `le`. */
  function Sort<T>(s: seq<T>, le: (T, T) -> bool): (r: seq<T>)
    ensures multiset(r) == multiset(s)
    ensures |r| == |s|
  {
    if s == [] then []
    else
      assert s == [s[0]] + s[1..];
      Insert(s[0], Sort(s[1..], le), le)
  }

  /**
   * The index of the first element that is `le` every element: Python's
   * `min`, which replaces its candidate only by a strictly smaller one.
   */
  function FirstLeast<T(!new)>(s: seq<T>, le: (T, T) -> bool): (k: nat)
    requires s != []
    requires TotalPreorder(le)
    ensures k < |s|
    ensures forall j :: 0 <= j < |s| ==> le(s[k], s[j])
    ensures forall i :: 0 <= i < k ==> !le(s[i], s[k])
  {
    if |s| == 1 then 0
    else
      var k := 1 + FirstLeast(s[1..], le);
      if le(s[0], s[k]) then 0 else k
  }

  lemma {:induction false} InsertSorted<T(!new)>(x: T, s: seq<T>, le: (T, T) -> bool)
    requires TotalPreorder(le)
    requires Sorted(s, le)
    ensures Sorted(Insert(x, s, le), le)
  {
    if s != [] && !le(x, s[0]) {
      InsertSorted(x, s[1..], le);
      var t := Insert(x, s[1..], le);
      assert forall y :: y in multiset(t) ==> y == x || y in s[1..];
      forall j | 0 <= j < |t| ensures le(s[0], t[j]) {
        assert t[j] in multiset(t);
      }
    }
  }

  lemma {:induction false} SortSorted<T(!new)>(s: seq<T>, le: (T, T) -> bool)
    requires TotalPreorder(le)
    ensures Sorted(Sort(s, le), le)
  {
    if s != [] {
      SortSorted(s[1..], le);
      InsertSorted(s[0], Sort(s[1..], le), le);
    }
  }

  lemma {:induction false} InsertEquivalents<T(!new)>(y: T, s: seq<T>, le: (T, T) -> bool, x: T)
    requires TotalPreorder(le)
    ensures Equivalents(Insert(y, s, le), le, x)
         == (if Equivalent(le, y, x) then [y] else []) + Equivalents(s, le, x)
  {
    if s == [] {
    } else if le(y, s[0]) {
      assert ([y] + s)[1..] == s;
    } else {
      InsertEquivalents(y, s[1..], le, x);
      NotBothEquivalent(y, s[0], le, x);
      EquivalentsShuffle(s[0], Insert(y, s[1..], le), y, Equivalents(s[1..], le, x), le, x);
    }
  }

  /** An element strictly after `y` and `y` itself are never both equivalent to the same `x`. */
  lemma NotBothEquivalent<T(!new)>(y: T, z: T, le: (T, T) -> bool, x: T)
    requires TotalPreorder(le) && !le(y, z)
    ensures !(Equivalent(le, y, x) && Equivalent(le, z, x))
  {
  }

  /**
   * Putting `a` in front of `t`, whose equivalents are those of `y` followed by
   * `rest`, when `a` and `y` are not both equivalent to `x`.
   */
  lemma EquivalentsShuffle<T>(a: T, t: seq<T>, y: T, rest: seq<T>, le: (T, T) -> bool, x: T)
    requires Equivalents(t, le, x) == (if Equivalent(le, y, x) then [y] else []) + rest
    requires !(Equivalent(le, y, x) && Equivalent(le, a, x))
    ensures Equivalents([a] + t, le, x)
         == (if Equivalent(le, y, x) then [y] else []) + ((if Equivalent(le, a, x) then [a] else []) + rest)
  {
    EquivalentsCons(a, t, le, x);
    if Equivalent(le, y, x) {
      assert [] + ([y] + rest) == [y] + ([] + rest);
    } else {
      assert [] + rest == rest;
    }
  }

  lemma EquivalentsCons<T>(a: T, s: seq<T>, le: (T, T) -> bool, x: T)
    ensures Equivalents([a] + s, le, x) == (if Equivalent(le, a, x) then [a] else []) + Equivalents(s, le, x)
  {
    assert ([a] + s)[1..] == s;
  }

  /** Stability: equivalent elements leave the sort in the order they came in. */
  lemma {:induction false} SortStable<T(!new)>(s: seq<T>, le: (T, T) -> bool, x: T)
    requires TotalPreorder(le)
    ensures Equivalents(Sort(s, le), le, x) == Equivalents(s, le, x)
  {
    if s != [] {
      SortStable(s[1..], le, x);
      InsertEquivalents(s[0], Sort(s[1..], le), le, x);
    }
  }

  /** The head of the stable sort is the first least element. */
  lemma {:induction false} SortHead<T(!new)>(s: seq<T>, le: (T, T) -> bool)
    requires TotalPreorder(le)
    requires s != []
    ensures Sort(s, le)[0] == s[FirstLeast(s, le)]
  {
    if |s| > 1 {
      SortHead(s[1..], le);
    }
  }

  /** Everything a caller needs: a sorted permutation that keeps equivalents in order. */
  lemma SortCorrect<T(!new)>(s: seq<T>, le: (T, T) -> bool)
    requires TotalPreorder(le)
    ensures multiset(Sort(s, le)) == multiset(s)
    ensures Sorted(Sort(s, le), le)
    ensures forall x :: Equivalents(Sort(s, le), le, x) == Equivalents(s, le, x)
  {
    SortSorted(s, le);
    forall x ensures Equivalents(Sort(s, le), le, x) == Equivalents(s, le, x) {
      SortStable(s, le, x);
    }
  }
}
