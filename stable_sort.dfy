/**
 * A stable sort over a total preorder.
 *
 * Python's `sorted(xs, key=...)` and `list.sort(key=..., reverse=...)` are
 * stable: elements that compare equal keep their input order.  A stable sort
 * has exactly one possible result, which `SortBy` (insertion sort) computes.
 * `le(a, b)` reads "a may come before b".
 */
module StableSort {

  ghost predicate IsTotalPreorder<T(!new)>(le: (T, T) -> bool)
  {
    && (forall a, b :: le(a, b) || le(b, a))
    && (forall a, b, c :: le(a, b) && le(b, c) ==> le(a, c))
  }

  ghost predicate SortedBy<T>(s: seq<T>, le: (T, T) -> bool)
  {
    forall i, j :: 0 <= i < j < |s| ==> le(s[i], s[j])
  }

  /** `a` and `b` compare equal under `le`. */
  predicate Tied<T>(le: (T, T) -> bool, a: T, b: T)
  {
    le(a, b) && le(b, a)
  }

  /** The elements of `s` that tie with `v`, in their order in `s`. */
  function TiedWith<T>(s: seq<T>, v: T, le: (T, T) -> bool): (r: seq<T>)
    ensures |r| <= |s|
  {
    if s == [] then []
    else (if Tied(le, s[0], v) then [s[0]] else []) + TiedWith(s[1..], v, le)
  }

  /** Inserts `x` in front of the first element it may precede. */
  function Insert<T>(x: T, s: seq<T>, le: (T, T) -> bool): (r: seq<T>)
    ensures multiset(r) == multiset(s) + multiset{x}
  {
    if s == [] || le(x, s[0]) then [x] + s
    else
      assert s == [s[0]] + s[1..];
      [s[0]] + Insert(x, s[1..], le)
  }

  function SortBy<T>(s: seq<T>, le: (T, T) -> bool): (r: seq<T>)
    ensures multiset(r) == multiset(s)
    ensures |r| == |s|
  {
    if s == [] then []
    else
      assert s == [s[0]] + s[1..];
      Insert(s[0], SortBy(s[1..], le), le)
  }

  lemma {:induction false} InsertSorted<T(!new)>(x: T, s: seq<T>, le: (T, T) -> bool)
    requires IsTotalPreorder(le) && SortedBy(s, le)
    ensures SortedBy(Insert(x, s, le), le)
  {
    if s == [] || le(x, s[0]) {
    } else {
      var tail := Insert(x, s[1..], le);
      InsertSorted(x, s[1..], le);
      forall j | 0 <= j < |tail|
        ensures le(s[0], tail[j])
      {
        assert tail[j] in multiset(tail);
        if tail[j] != x {
          assert tail[j] in multiset(s[1..]);
          var k :| 0 <= k < |s[1..]| && s[1..][k] == tail[j];
          assert s[k + 1] == tail[j];
        }
      }
    }
  }

  /** The result of `SortBy` is ordered by `le`. */
  lemma {:induction false} SortBySorted<T(!new)>(s: seq<T>, le: (T, T) -> bool)
    requires IsTotalPreorder(le)
    ensures SortedBy(SortBy(s, le), le)
  {
    if s != [] {
      SortBySorted(s[1..], le);
      InsertSorted(s[0], SortBy(s[1..], le), le);
    }
  }

  lemma {:induction false} InsertStable<T(!new)>(x: T, s: seq<T>, v: T, le: (T, T) -> bool)
    requires IsTotalPreorder(le)
    ensures TiedWith(Insert(x, s, le), v, le)
            == (if Tied(le, x, v) then [x] else []) + TiedWith(s, v, le)
  {
    if s == [] || le(x, s[0]) {
      assert Insert(x, s, le)[1..] == s;
    } else {
      InsertStable(x, s[1..], v, le);
      InsertBehindStable(x, s, v, le);
    }
  }

  /** The step of `InsertStable` where `x` goes past the head of `s`. */
  lemma InsertBehindStable<T(!new)>(x: T, s: seq<T>, v: T, le: (T, T) -> bool)
    requires IsTotalPreorder(le) && s != [] && !le(x, s[0])
    requires TiedWith(Insert(x, s[1..], le), v, le)
             == (if Tied(le, x, v) then [x] else []) + TiedWith(s[1..], v, le)
    ensures TiedWith(Insert(x, s, le), v, le)
            == (if Tied(le, x, v) then [x] else []) + TiedWith(s, v, le)
  {
    PassedHeadNotTied(x, s[0], v, le);
    TiedWithBehind(x, s, v, le);
  }

  /** An element that `x` is not `le` cannot be tied with something tied with `x`. */
  lemma PassedHeadNotTied<T(!new)>(x: T, h: T, v: T, le: (T, T) -> bool)
    requires IsTotalPreorder(le) && !le(x, h)
    ensures Tied(le, x, v) ==> !Tied(le, h, v)
  {
  }

  lemma TiedWithBehind<T>(x: T, s: seq<T>, v: T, le: (T, T) -> bool)
    requires s != [] && !le(x, s[0])
    requires Tied(le, x, v) ==> !Tied(le, s[0], v)
    requires TiedWith(Insert(x, s[1..], le), v, le)
             == (if Tied(le, x, v) then [x] else []) + TiedWith(s[1..], v, le)
    ensures TiedWith(Insert(x, s, le), v, le)
            == (if Tied(le, x, v) then [x] else []) + TiedWith(s, v, le)
  {
    var r := Insert(x, s, le);
    assert r == [s[0]] + Insert(x, s[1..], le);
    assert r[0] == s[0] && r[1..] == Insert(x, s[1..], le);
    var h := if Tied(le, s[0], v) then [s[0]] else [];
    assert TiedWith(r, v, le) == h + TiedWith(r[1..], v, le);
    assert TiedWith(s, v, le) == h + TiedWith(s[1..], v, le);
    SwapFronts(h, if Tied(le, x, v) then [x] else [], TiedWith(s[1..], v, le));
  }

  /** Two prefixes, one of them empty, commute in front of `rest`. */
  lemma SwapFronts<T>(h: seq<T>, t: seq<T>, rest: seq<T>)
    requires h == [] || t == []
    ensures h + (t + rest) == t + (h + rest)
  {
  }

  /** `SortBy` is stable: for every `v`, the elements tied with `v` keep their input order. */
  lemma {:induction false} SortByStable<T(!new)>(s: seq<T>, v: T, le: (T, T) -> bool)
    requires IsTotalPreorder(le)
    ensures TiedWith(SortBy(s, le), v, le) == TiedWith(s, v, le)
  {
    if s != [] {
      SortByStable(s[1..], v, le);
      InsertStable(s[0], SortBy(s[1..], le), v, le);
    }
  }

  lemma {:induction false} TiedWithPrefix<T>(s: seq<T>, n: nat, v: T, le: (T, T) -> bool)
    requires n <= |s|
    ensures TiedWith(s[..n], v, le) <= TiedWith(s, v, le)
  {
    if n > 0 {
      TiedWithPrefix(s[1..], n - 1, v, le);
      assert s[..n][1..] == s[1..][..n - 1];
    }
  }
}
