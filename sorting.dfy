/**
 * `Array.prototype.sort` with a comparator, which is stable: elements the
 * comparator calls equal keep their input order. It is modelled as an
 * insertion sort over a relation `before(a, b)`, "a belongs strictly before
 * b", which is the comparator returning a negative number for (a, b).
 */
module Sorting {
  import opened Seqs

  /**
   * What a comparator must provide for sorting to be meaningful: `before`
   * is asymmetric and its complement is transitive (ties form classes).
   */
  ghost predicate StrictWeakOrder<T(!new)>(before: (T, T) -> bool) {
    && (forall a, b :: before(a, b) ==> !before(b, a))
    && (forall a, b, c :: !before(a, b) && !before(b, c) ==> !before(a, c))
  }

  /** No element belongs strictly before an element that precedes it. */
  predicate Sorted<T>(s: seq<T>, before: (T, T) -> bool) {
    forall i, j :: 0 <= i < j < |s| ==> !before(s[j], s[i])
  }

  /** Neither of `e` and `p` belongs before the other. */
  function TiedWith<T>(before: (T, T) -> bool, p: T): T -> bool {
    e => !before(e, p) && !before(p, e)
  }

  /** Places `x` in front of the first element of `t` that does not belong strictly before it. */
  function Insert<T>(x: T, t: seq<T>, before: (T, T) -> bool): (r: seq<T>)
    ensures multiset(r) == multiset(t) + multiset{x}
    decreases |t|
  {
    if t == [] then [x]
    else if before(t[0], x) then
      assert t == [t[0]] + t[1..];
      [t[0]] + Insert(x, t[1..], before)
    else [x] + t
  }

  /** The sorted arrangement of `s`: a permutation of it. */
  function Sort<T>(s: seq<T>, before: (T, T) -> bool): (r: seq<T>)
    ensures multiset(r) == multiset(s)
    decreases |s|
  {
    if s == [] then []
    else
      assert s == [s[0]] + s[1..];
      Insert(s[0], Sort(s[1..], before), before)
  }

  lemma SortLength<T>(s: seq<T>, before: (T, T) -> bool)
    ensures |Sort(s, before)| == |s|
  {
    assert |multiset(Sort(s, before))| == |multiset(s)|;
  }

  /** Sorting keeps exactly the elements it was given. */
  lemma SortMembers<T>(s: seq<T>, before: (T, T) -> bool)
    ensures forall x :: x in Sort(s, before) <==> x in s
  {
    var r := Sort(s, before);
    assert forall x :: x in r <==> x in multiset(r);
    assert forall x :: x in s <==> x in multiset(s);
  }

  /** The elements of `Insert(x, t)` are `x` and those of `t`. */
  lemma InsertMembers<T>(x: T, t: seq<T>, before: (T, T) -> bool, e: T)
    requires e in Insert(x, t, before)
    ensures e == x || e in t
  {
    assert e in multiset(Insert(x, t, before));
  }

  /** Putting `t[0]` in front of a sorted insertion into `t[1..]` keeps it sorted, when `t[0]` belongs before `x`. */
  lemma PrependKeepsSorted<T(!new)>(x: T, t: seq<T>, before: (T, T) -> bool)
    requires StrictWeakOrder(before)
    requires t != [] && Sorted(t, before) && before(t[0], x)
    requires Sorted(Insert(x, t[1..], before), before)
    ensures Sorted([t[0]] + Insert(x, t[1..], before), before)
  {
    var u := Insert(x, t[1..], before);
    var r := [t[0]] + u;
    forall i, j | 0 <= i < j < |r| ensures !before(r[j], r[i]) {
      if i == 0 {
        assert r[j] == u[j - 1] && r[j] in u;
        InsertMembers(x, t[1..], before, r[j]);
        if r[j] != x {
          var k :| 0 <= k < |t[1..]| && t[1..][k] == r[j];
          assert t[k + 1] == r[j];
        }
      } else {
        assert r[i] == u[i - 1] && r[j] == u[j - 1];
      }
    }
  }

  /** Putting `x` in front of a sorted `t` whose head does not belong before it keeps it sorted. */
  lemma PlaceInFrontSorted<T(!new)>(x: T, t: seq<T>, before: (T, T) -> bool)
    requires StrictWeakOrder(before)
    requires t != [] && Sorted(t, before) && !before(t[0], x)
    ensures Sorted([x] + t, before)
  {
    var r := [x] + t;
    forall i, j | 0 <= i < j < |r| ensures !before(r[j], r[i]) {
      if i == 0 && j > 1 {
        assert !before(r[j], t[0]);
      }
    }
  }

  lemma {:induction false} InsertSorted<T(!new)>(x: T, t: seq<T>, before: (T, T) -> bool)
    requires StrictWeakOrder(before)
    requires Sorted(t, before)
    ensures Sorted(Insert(x, t, before), before)
    decreases |t|
  {
    if t != [] {
      if before(t[0], x) {
        assert Sorted(t[1..], before);
        InsertSorted(x, t[1..], before);
        PrependKeepsSorted(x, t, before);
      } else {
        PlaceInFrontSorted(x, t, before);
      }
    }
  }

  /** The result of `Sort` is sorted. */
  lemma {:induction false} SortSorted<T(!new)>(s: seq<T>, before: (T, T) -> bool)
    requires StrictWeakOrder(before)
    ensures Sorted(Sort(s, before), before)
    decreases |s|
  {
    if s != [] {
      SortSorted(s[1..], before);
      InsertSorted(s[0], Sort(s[1..], before), before);
    }
  }

  /** Whatever belongs before an element tied with `p` belongs before `p` too, so is not tied with it. */
  lemma BeforeTiedIsNotTied<T(!new)>(a: T, x: T, before: (T, T) -> bool, p: T)
    requires StrictWeakOrder(before)
    requires before(a, x) && TiedWith(before, p)(x)
    ensures !TiedWith(before, p)(a)
  {
    assert !before(p, x);
  }

  /** Prefixes at most one of which is non-empty can be put on in either order. */
  lemma PrefixesCommute<T>(a: seq<T>, u: seq<T>, t: seq<T>, rest: seq<T>, h0: seq<T>, head: seq<T>)
    requires h0 == [] || head == []
    requires a == h0 + u && u == head + rest && t == h0 + rest
    ensures a == head + t
  {
    if h0 == [] {
      assert a == u && t == rest;
    } else {
      assert head + t == t;
      assert a == h0 + rest;
    }
  }

  /** The tied elements of `[y] + u`, when `y` and `x` are not both tied and `u` is `rest` with `x` inserted. */
  lemma StableStep<T(!new)>(x: T, y: T, rest: seq<T>, u: seq<T>, tie: T -> bool)
    requires tie(x) ==> !tie(y)
    requires Filter(u, tie) == (if tie(x) then [x] else []) + Filter(rest, tie)
    ensures Filter([y] + u, tie) == (if tie(x) then [x] else []) + Filter([y] + rest, tie)
  {
    FilterCons(y, u, tie);
    FilterCons(y, rest, tie);
    PrefixesCommute(Filter([y] + u, tie), Filter(u, tie), Filter([y] + rest, tie), Filter(rest, tie),
                    if tie(y) then [y] else [], if tie(x) then [x] else []);
  }

  lemma {:induction false} InsertStable<T(!new)>(x: T, t: seq<T>, before: (T, T) -> bool, p: T)
    requires StrictWeakOrder(before)
    requires Sorted(t, before)
    ensures Filter(Insert(x, t, before), TiedWith(before, p))
         == (if TiedWith(before, p)(x) then [x] else []) + Filter(t, TiedWith(before, p))
    decreases |t|
  {
    if t == [] {
      FilterCons(x, [], TiedWith(before, p));
    } else if before(t[0], x) {
      assert Sorted(t[1..], before);
      InsertStable(x, t[1..], before, p);
      if TiedWith(before, p)(x) {
        BeforeTiedIsNotTied(t[0], x, before, p);
      }
      StableStep(x, t[0], t[1..], Insert(x, t[1..], before), TiedWith(before, p));
      assert t == [t[0]] + t[1..];
    } else {
      FilterCons(x, t, TiedWith(before, p));
    }
  }

  /**
   * Stability: the elements tied with any `p` appear in the output in the
   * same order as in the input.
   */
  lemma {:induction false} SortStable<T(!new)>(s: seq<T>, before: (T, T) -> bool, p: T)
    requires StrictWeakOrder(before)
    ensures Filter(Sort(s, before), TiedWith(before, p)) == Filter(s, TiedWith(before, p))
    decreases |s|
  {
    if s != [] {
      var tie := TiedWith(before, p);
      SortStable(s[1..], before, p);
      SortSorted(s[1..], before);
      InsertStable(s[0], Sort(s[1..], before), before, p);
      FilterCons(s[0], s[1..], tie);
      assert s == [s[0]] + s[1..];
    }
  }

  /** Sorting an already sorted sequence leaves it as it is. */
  lemma {:induction false} SortOfSorted<T>(s: seq<T>, before: (T, T) -> bool)
    requires Sorted(s, before)
    ensures Sort(s, before) == s
    decreases |s|
  {
    if s != [] {
      assert Sorted(s[1..], before);
      SortOfSorted(s[1..], before);
      if |s| > 1 {
        assert !before(s[1], s[0]);
      }
      assert s == [s[0]] + s[1..];
    }
  }
}
