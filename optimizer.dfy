/**
 * The pass scheduler: weighted interval scheduling over candidate passes
 * (the best pairwise non-overlapping subset) and an unconstrained top-K list.
 *
 * Instants are integers; weights are reals.  Two passes do not overlap when
 * one ends no later than the other starts (half-open intervals).
 */
module Optimizer {
  import opened Wrappers
  import opened StableSort
  import opened TimeArith

  /** A candidate pass, already clipped to the query window. */
  datatype PassItem = PassItem(
    id: int,
    satelliteId: int,
    groundStationId: int,
    startTs: int,
    endTs: int,
    durationS: int,
    maxElevDeg: real)

  /** The two metric names `weight` understands. */
  datatype Metric = Duration | MaxElev

  datatype ScheduleError = UnknownMetric(name: string)

  /** The name test of `weight`: "duration", "max_elev", or an error for any other name. */
  function ParseMetric(name: string): (m: Option<Metric>)
    ensures m.Some? <==> name == "duration" || name == "max_elev"
    ensures m.Some? ==> (m.value == Duration <==> name == "duration")
  {
    if name == "duration" then Some(Duration)
    else if name == "max_elev" then Some(MaxElev)
    else None
  }

  function Weight(p: PassItem, m: Metric): real
  {
    match m
    case Duration => p.durationS as real
    case MaxElev => p.maxElevDeg
  }

  predicate Proper(p: PassItem)
  {
    p.startTs < p.endTs
  }

  ghost predicate AllProper(s: seq<PassItem>)
  {
    forall i :: 0 <= i < |s| ==> Proper(s[i])
  }

  /** The overlap rule: `a` and `b` do not overlap when one ends by the time the other starts. */
  predicate Disjoint(a: PassItem, b: PassItem)
  {
    a.endTs <= b.startTs || b.endTs <= a.startTs
  }

  ghost predicate PairwiseDisjoint(s: seq<PassItem>)
  {
    forall i, j :: 0 <= i < j < |s| ==> Disjoint(s[i], s[j])
  }

  /** Every pass ends no later than any later pass starts. */
  ghost predicate Chained(s: seq<PassItem>)
  {
    forall i, j :: 0 <= i < j < |s| ==> s[i].endTs <= s[j].startTs
  }

  function TotalWeight(s: seq<PassItem>, m: Metric): real
  {
    if s == [] then 0.0 else TotalWeight(s[..|s| - 1], m) + Weight(s[|s| - 1], m)
  }

  /** Sort order of the scheduler: by (end, start), ascending. */
  predicate ByEndThenStart(a: PassItem, b: PassItem)
  {
    a.endTs < b.endTs || (a.endTs == b.endTs && a.startTs <= b.startTs)
  }

  /** Sort order of the top-K list: by weight, descending. */
  function ByWeightDescending(m: Metric): (PassItem, PassItem) -> bool
  {
    (a: PassItem, b: PassItem) => Weight(a, m) >= Weight(b, m)
  }

  lemma ByEndThenStartIsTotalPreorder()
    ensures IsTotalPreorder(ByEndThenStart)
  {
  }

  lemma ByWeightDescendingIsTotalPreorder(m: Metric)
    ensures IsTotalPreorder(ByWeightDescending(m))
  {
  }

  function Reversed<T>(s: seq<T>): (r: seq<T>)
    ensures |r| == |s|
  {
    if s == [] then [] else [s[|s| - 1]] + Reversed(s[..|s| - 1])
  }

  // ---------------------------------------------------------------------
  // The dynamic program, as functions of the sorted list `items`.
  // ---------------------------------------------------------------------

  /**
   * One more than the index of the last of `items[..i]` that ends by `t`,
   * or 0 when none does.
   */
  function LastEndingBy(items: seq<PassItem>, i: nat, t: int): (k: nat)
    requires i <= |items|
    ensures k <= i
    ensures forall j :: k <= j < i ==> items[j].endTs > t
    ensures k > 0 ==> items[k - 1].endTs <= t
  {
    if i == 0 then 0
    else if items[i - 1].endTs <= t then i
    else LastEndingBy(items, i - 1, t)
  }

  /** `p_idx[i] + 1`: how many passes precede pass `i` without overlapping it. */
  function Pred(items: seq<PassItem>, i: nat): nat
    requires i < |items|
  {
    LastEndingBy(items, i, items[i].startTs)
  }

  /** `dp[n - 1]`: the best score using the first `n` passes. */
  function Best(items: seq<PassItem>, m: Metric, n: nat): real
    requires n <= |items|
    decreases n
  {
    if n == 0 then 0.0
    else
      var incl := Weight(items[n - 1], m) + Best(items, m, Pred(items, n - 1));
      var excl := Best(items, m, n - 1);
      if incl > excl then incl else excl
  }

  /** `take[i]`: including pass `i` beats excluding it strictly (ties exclude). */
  predicate Taken(items: seq<PassItem>, m: Metric, i: nat)
    requires i < |items|
  {
    Weight(items[i], m) + Best(items, m, Pred(items, i)) > Best(items, m, i)
  }

  /** The passes the backward walk picks from the first `n`, in ascending order. */
  function Chosen(items: seq<PassItem>, m: Metric, n: nat): seq<PassItem>
    requires n <= |items|
    decreases n
  {
    if n == 0 then []
    else if Taken(items, m, n - 1) then Chosen(items, m, Pred(items, n - 1)) + [items[n - 1]]
    else Chosen(items, m, n - 1)
  }

  /** The schedule `best_non_overlapping_weighted` returns for a known metric. */
  function Schedule(passes: seq<PassItem>, m: Metric): (seq<PassItem>, real)
  {
    var items := SortBy(passes, ByEndThenStart);
    (Chosen(items, m, |items|), Best(items, m, |items|))
  }

  // ---------------------------------------------------------------------
  // The source's procedures.
  // ---------------------------------------------------------------------

  /** `bisect.bisect_right`: the number of elements of the sorted `a` that are `<= x`. */
  method BisectRight(a: seq<int>, x: int) returns (lo: nat)
    requires forall i, j :: 0 <= i < j < |a| ==> a[i] <= a[j]
    ensures lo <= |a|
    ensures forall k :: 0 <= k < lo ==> a[k] <= x
    ensures forall k :: lo <= k < |a| ==> x < a[k]
  {
    lo := 0;
    var hi := |a|;
    while lo < hi
      invariant 0 <= lo <= hi <= |a|
      invariant forall k :: 0 <= k < lo ==> a[k] <= x
      invariant forall k :: hi <= k < |a| ==> x < a[k]
    {
      var mid := (lo + hi) / 2;
      if x < a[mid] {
        hi := mid;
      } else {
        lo := mid + 1;
      }
    }
  }

  /**
   * `best_non_overlapping_weighted`: the maximum-weight set of pairwise
   * non-overlapping passes, in ascending order, and its score.
   */
  method BestNonOverlapping(passes: seq<PassItem>, metricName: string)
    returns (r: Result<(seq<PassItem>, real), ScheduleError>)
    requires AllProper(passes)
    ensures passes == [] ==> r == Success(([], 0.0))
    ensures passes != [] && ParseMetric(metricName).None? ==> r == Failure(UnknownMetric(metricName))
    ensures passes != [] && ParseMetric(metricName).Some? ==>
              r == Success(Schedule(passes, ParseMetric(metricName).value))
    ensures r.Success? && passes != [] ==>
              var m := ParseMetric(metricName).value;
              var (chosen, score) := r.value;
              && Chained(chosen)
              && multiset(chosen) <= multiset(passes)
              && score == TotalWeight(chosen, m)
              && (forall sub :: multiset(sub) <= multiset(passes) && PairwiseDisjoint(sub)
                                ==> TotalWeight(sub, m) <= score)
  {
    var items := SortBy(passes, ByEndThenStart);
    var n := |items|;
    if n == 0 {
      return Success(([], 0.0));
    }
    // `weight` raises on the first pass it scores when the name is unknown.
    var metric := ParseMetric(metricName);
    if metric.None? {
      return Failure(UnknownMetric(metricName));
    }
    var m := metric.value;
    ByEndThenStartIsTotalPreorder();
    SortBySorted(passes, ByEndThenStart);
    assert AllProper(items) by {
      forall i | 0 <= i < n ensures Proper(items[i]) {
        assert items[i] in multiset(passes);
      }
    }

    var pIdx := Predecessors(items);
    var dp, take := FillTable(items, m, pIdx);
    var chosen := Reconstruct(items, m, pIdx, take);
    r := Success((chosen, dp[n - 1]));
    ScheduleIsFeasible(passes, m);
    forall sub | multiset(sub) <= multiset(passes) && PairwiseDisjoint(sub)
      ensures TotalWeight(sub, m) <= dp[n - 1]
    {
      ScheduleIsOptimal(passes, m, sub);
    }
  }

  /**
   * The `p_idx` loop: for each pass, the index of the last pass ending by
   * its start, or -1.  The list is written slot by slot, as in the source.
   */
  method Predecessors(items: seq<PassItem>) returns (pIdx: seq<int>)
    requires AllProper(items) && SortedBy(items, ByEndThenStart)
    ensures |pIdx| == |items|
    ensures forall k :: 0 <= k < |items| ==> pIdx[k] == Pred(items, k) - 1
  {
    var n := |items|;
    var ends := seq(n, k requires 0 <= k < n => items[k].endTs);
    assert forall k :: 0 <= k < n ==> ends[k] == items[k].endTs;
    assert forall a, b :: 0 <= a < b < n ==> ends[a] <= ends[b] by {
      forall a, b | 0 <= a < b < n ensures ends[a] <= ends[b] {
        assert ByEndThenStart(items[a], items[b]);
      }
    }
    pIdx := seq(n, _ => -1);
    for i := 0 to n
      invariant |pIdx| == n
      invariant forall k :: 0 <= k < i ==> pIdx[k] == Pred(items, k) - 1
    {
      var j := BisectRight(ends, items[i].startTs);
      BisectIsPred(items, i, j);
      pIdx := pIdx[i := j as int - 1];
    }
  }

  /** The `dp` / `take` loop: best score of each prefix, and whether its last pass is taken. */
  method FillTable(items: seq<PassItem>, m: Metric, pIdx: seq<int>) returns (dp: seq<real>, take: seq<bool>)
    requires |pIdx| == |items|
    requires forall k :: 0 <= k < |items| ==> pIdx[k] == Pred(items, k) - 1
    ensures |dp| == |items| && |take| == |items|
    ensures forall k :: 0 <= k < |items| ==> dp[k] == Best(items, m, k + 1)
    ensures forall k :: 0 <= k < |items| ==> take[k] == Taken(items, m, k)
  {
    var n := |items|;
    dp := seq(n, _ => 0.0);
    take := seq(n, _ => false);
    for i := 0 to n
      invariant TableUpTo(items, m, dp, take, i)
    {
      var incl := Weight(items[i], m) + (if pIdx[i] >= 0 then dp[pIdx[i]] else 0.0);
      var excl := if i > 0 then dp[i - 1] else 0.0;
      var better := incl > excl;
      TableStep(items, m, pIdx, dp, take, i, incl, excl);
      dp := dp[i := if better then incl else excl];
      take := take[i := better];
    }
  }

  /** The first `i` entries of `dp` and `take` are filled in. */
  ghost predicate TableUpTo(items: seq<PassItem>, m: Metric, dp: seq<real>, take: seq<bool>, i: nat)
  {
    && i <= |items| && |dp| == |items| && |take| == |items|
    && (forall k :: 0 <= k < i ==> dp[k] == Best(items, m, k + 1))
    && (forall k :: 0 <= k < i ==> take[k] == Taken(items, m, k))
  }

  /** One turn of the `dp` / `take` loop fills in entry `i`. */
  lemma TableStep(items: seq<PassItem>, m: Metric, pIdx: seq<int>, dp: seq<real>, take: seq<bool>,
                  i: nat, incl: real, excl: real)
    requires |pIdx| == |items| && i < |items|
    requires forall k :: 0 <= k < |items| ==> pIdx[k] == Pred(items, k) - 1
    requires TableUpTo(items, m, dp, take, i)
    requires pIdx[i] < i
    requires incl == Weight(items[i], m) + (if pIdx[i] >= 0 then dp[pIdx[i]] else 0.0)
    requires excl == if i > 0 then dp[i - 1] else 0.0
    ensures TableUpTo(items, m, dp[i := if incl > excl then incl else excl], take[i := incl > excl], i + 1)
  {
    assert incl == Weight(items[i], m) + Best(items, m, Pred(items, i));
    assert excl == Best(items, m, i);
    BestStep(items, m, i);
    ExtendTable(items, m, dp, take, i, if incl > excl then incl else excl, incl > excl);
  }

  lemma ExtendTable(items: seq<PassItem>, m: Metric, dp: seq<real>, take: seq<bool>, i: nat, v: real, b: bool)
    requires i < |items| && TableUpTo(items, m, dp, take, i)
    requires v == Best(items, m, i + 1) && b == Taken(items, m, i)
    ensures TableUpTo(items, m, dp[i := v], take[i := b], i + 1)
  {
  }

  /** One entry of the table: the better of including and excluding pass `i`. */
  lemma BestStep(items: seq<PassItem>, m: Metric, i: nat)
    requires i < |items|
    ensures var incl := Weight(items[i], m) + Best(items, m, Pred(items, i));
            var excl := Best(items, m, i);
            && Best(items, m, i + 1) == (if incl > excl then incl else excl)
            && Taken(items, m, i) == (incl > excl)
  {
  }

  /** The backward walk over `take` and `p_idx`, reversed into ascending order. */
  method Reconstruct(items: seq<PassItem>, m: Metric, pIdx: seq<int>, take: seq<bool>)
    returns (chosen: seq<PassItem>)
    requires |pIdx| == |items| && |take| == |items|
    requires forall k :: 0 <= k < |items| ==> pIdx[k] == Pred(items, k) - 1
    requires forall k :: 0 <= k < |items| ==> take[k] == Taken(items, m, k)
    ensures chosen == Chosen(items, m, |items|)
  {
    var n := |items|;
    var picked: seq<PassItem> := [];
    var i := n - 1;
    while i >= 0
      invariant WalkInv(items, m, n, i, picked)
      decreases i
    {
      WalkStep(items, m, n, i, picked);
      if take[i] {
        picked := picked + [items[i]];
        i := pIdx[i];
      } else {
        i := i - 1;
      }
    }
    chosen := Reversed(picked);
  }

  /** The walk so far: the picks, reversed, finish what the walk from `i` down still picks. */
  ghost predicate WalkInv(items: seq<PassItem>, m: Metric, n: nat, i: int, picked: seq<PassItem>)
  {
    -1 <= i < n <= |items| && Chosen(items, m, n) == Chosen(items, m, i + 1) + Reversed(picked)
  }

  /** `top_k_passes`: the `k` heaviest passes, heaviest first, ties in input order. */
  function TopK(passes: seq<PassItem>, metricName: string, k: int): (r: Result<seq<PassItem>, ScheduleError>)
    ensures k <= 0 ==> r == Success([])
    ensures r.Failure? <==> k > 0 && passes != [] && ParseMetric(metricName).None?
    ensures r.Success? ==> |r.value| == Min(Max(k, 0), |passes|)
    ensures r.Success? ==> multiset(r.value) <= multiset(passes)
  {
    if k <= 0 then Success([])
    else if passes == [] then Success([])
    else
      match ParseMetric(metricName)
      case None => Failure(UnknownMetric(metricName))
      case Some(m) =>
        var sorted := SortBy(passes, ByWeightDescending(m));
        var n := Min(k, |passes|);
        assert sorted == sorted[..n] + sorted[n..];
        Success(sorted[..n])
  }

  // ---------------------------------------------------------------------
  // Lemmas.
  // ---------------------------------------------------------------------

  /** One step of the backward walk keeps "picks so far + walk from here" equal to the whole pick. */
  lemma WalkStep(items: seq<PassItem>, m: Metric, n: nat, i: nat, picked: seq<PassItem>)
    requires WalkInv(items, m, n, i, picked)
    ensures Pred(items, i) <= i
    ensures Taken(items, m, i) ==> WalkInv(items, m, n, Pred(items, i) - 1, picked + [items[i]])
    ensures !Taken(items, m, i) ==> WalkInv(items, m, n, i - 1, picked)
  {
    if Taken(items, m, i) {
      var c := Chosen(items, m, Pred(items, i));
      assert Chosen(items, m, i + 1) == c + [items[i]];
      ReversedAppend(picked, items[i]);
      ShiftOne(c, items[i], Reversed(picked));
    }
  }

  lemma ShiftOne<T>(a: seq<T>, x: T, r: seq<T>)
    ensures (a + [x]) + r == a + ([x] + r)
  {
  }

  lemma ReversedAppend<T>(s: seq<T>, x: T)
    ensures Reversed(s + [x]) == [x] + Reversed(s)
  {
    assert (s + [x])[..|s|] == s;
  }

  /** On proper passes sorted by end, `bisect_right(ends, start)` is the predecessor count. */
  lemma BisectIsPred(items: seq<PassItem>, i: nat, c: nat)
    requires AllProper(items)
    requires i < |items| && c <= |items|
    requires forall k :: 0 <= k < c ==> items[k].endTs <= items[i].startTs
    requires forall k :: c <= k < |items| ==> items[i].startTs < items[k].endTs
    ensures c == Pred(items, i)
  {
    assert Proper(items[i]);
    assert c <= i;
    LastEndingByUnique(items, i, items[i].startTs, c);
  }

  /** `LastEndingBy` is the one split point of `items[..i]` into ends `<= t` then ends `> t`. */
  lemma {:induction false} LastEndingByUnique(items: seq<PassItem>, i: nat, t: int, c: nat)
    requires c <= i <= |items|
    requires forall k :: 0 <= k < c ==> items[k].endTs <= t
    requires forall k :: c <= k < i ==> items[k].endTs > t
    ensures c == LastEndingBy(items, i, t)
    decreases i
  {
    if c < i {
      LastEndingByUnique(items, i - 1, t, c);
    }
  }

  /** `dp` never decreases. */
  lemma {:induction false} BestMonotone(items: seq<PassItem>, m: Metric, a: nat, b: nat)
    requires a <= b <= |items|
    ensures Best(items, m, a) <= Best(items, m, b)
    decreases b
  {
    if a < b {
      BestMonotone(items, m, a, b - 1);
    }
  }

  lemma {:induction false} ChosenScore(items: seq<PassItem>, m: Metric, n: nat)
    requires n <= |items|
    ensures TotalWeight(Chosen(items, m, n), m) == Best(items, m, n)
    decreases n
  {
    if n > 0 {
      ChosenScore(items, m, WalkNext(items, m, n));
      ScoreStep(items, m, n);
    }
  }

  lemma ScoreStep(items: seq<PassItem>, m: Metric, n: nat)
    requires 0 < n <= |items|
    requires TotalWeight(Chosen(items, m, WalkNext(items, m, n)), m) == Best(items, m, WalkNext(items, m, n))
    ensures TotalWeight(Chosen(items, m, n), m) == Best(items, m, n)
  {
    if Taken(items, m, n - 1) {
      var p := Pred(items, n - 1);
      var s := Chosen(items, m, p) + [items[n - 1]];
      assert Chosen(items, m, n) == s;
      assert s[..|s| - 1] == Chosen(items, m, p);
    } else {
      assert Chosen(items, m, n) == Chosen(items, m, n - 1);
    }
  }

  /** The picks are drawn from the first `n` sorted passes. */
  lemma {:induction false} ChosenFromPrefix(items: seq<PassItem>, m: Metric, n: nat)
    requires n <= |items|
    ensures multiset(Chosen(items, m, n)) <= multiset(items[..n])
    decreases n
  {
    if n > 0 {
      ChosenFromPrefix(items, m, WalkNext(items, m, n));
      PrefixStep(items, m, n);
    }
  }

  /** Where the backward walk goes from `n`: past the predecessor of a taken pass, else one back. */
  function WalkNext(items: seq<PassItem>, m: Metric, n: nat): (k: nat)
    requires 0 < n <= |items|
    ensures k < n
  {
    if Taken(items, m, n - 1) then Pred(items, n - 1) else n - 1
  }

  lemma PrefixStep(items: seq<PassItem>, m: Metric, n: nat)
    requires 0 < n <= |items|
    requires multiset(Chosen(items, m, WalkNext(items, m, n))) <= multiset(items[..WalkNext(items, m, n)])
    ensures multiset(Chosen(items, m, n)) <= multiset(items[..n])
  {
    if Taken(items, m, n - 1) {
      TakenPrefix(items, m, n);
    } else {
      SkippedPrefix(items, m, n);
    }
  }

  /** The step of `ChosenFromPrefix` when pass `n - 1` is taken. */
  lemma TakenPrefix(items: seq<PassItem>, m: Metric, n: nat)
    requires 0 < n <= |items| && Taken(items, m, n - 1)
    requires multiset(Chosen(items, m, Pred(items, n - 1))) <= multiset(items[..Pred(items, n - 1)])
    ensures multiset(Chosen(items, m, n)) <= multiset(items[..n])
  {
    var p := Pred(items, n - 1);
    assert Chosen(items, m, n) == Chosen(items, m, p) + [items[n - 1]];
    SnocWithinPrefix(Chosen(items, m, n), Chosen(items, m, p), items, p, n);
  }

  /** The step of `ChosenFromPrefix` when pass `n - 1` is skipped. */
  lemma SkippedPrefix(items: seq<PassItem>, m: Metric, n: nat)
    requires 0 < n <= |items| && !Taken(items, m, n - 1)
    requires multiset(Chosen(items, m, n - 1)) <= multiset(items[..n - 1])
    ensures multiset(Chosen(items, m, n)) <= multiset(items[..n])
  {
    assert Chosen(items, m, n) == Chosen(items, m, n - 1);
    WithinLongerPrefix(Chosen(items, m, n), items, n);
  }

  /** A sub-multiset of `s[..p]` followed by `s[n - 1]` is a sub-multiset of `s[..n]`. */
  lemma SnocWithinPrefix<T>(c: seq<T>, d: seq<T>, s: seq<T>, p: nat, n: nat)
    requires p < n <= |s| && c == d + [s[n - 1]]
    requires multiset(d) <= multiset(s[..p])
    ensures multiset(c) <= multiset(s[..n])
  {
    assert s[..n] == s[..p] + s[p..n - 1] + [s[n - 1]];
    assert multiset(s[..n]) == multiset(s[..p]) + multiset(s[p..n - 1]) + multiset{s[n - 1]};
  }

  /** A sub-multiset of `s[..n - 1]` is a sub-multiset of `s[..n]`. */
  lemma WithinLongerPrefix<T>(c: seq<T>, s: seq<T>, n: nat)
    requires 0 < n <= |s|
    requires multiset(c) <= multiset(s[..n - 1])
    ensures multiset(c) <= multiset(s[..n])
  {
    assert s[..n] == s[..n - 1] + [s[n - 1]];
    assert multiset(s[..n]) == multiset(s[..n - 1]) + multiset{s[n - 1]};
  }

  /** In a sorted list, every pass before `LastEndingBy(items, i, t)` ends by `t`. */
  lemma PrefixEndsBy(items: seq<PassItem>, i: nat, t: int)
    requires i <= |items| && SortedBy(items, ByEndThenStart)
    ensures forall y :: y in items[..LastEndingBy(items, i, t)] ==> y.endTs <= t
  {
    var p := LastEndingBy(items, i, t);
    forall y | y in items[..p]
      ensures y.endTs <= t
    {
      var q :| 0 <= q < p && items[q] == y;
      assert ByEndThenStart(items[q], items[p - 1]);
    }
  }

  /** Each pick ends no later than the next pick starts. */
  lemma {:induction false} ChosenChained(items: seq<PassItem>, m: Metric, n: nat)
    requires n <= |items| && SortedBy(items, ByEndThenStart)
    ensures Chained(Chosen(items, m, n))
    decreases n
  {
    if n > 0 {
      ChosenChained(items, m, WalkNext(items, m, n));
      ChainedStep(items, m, n);
    }
  }

  lemma ChainedStep(items: seq<PassItem>, m: Metric, n: nat)
    requires 0 < n <= |items| && SortedBy(items, ByEndThenStart)
    requires Chained(Chosen(items, m, WalkNext(items, m, n)))
    ensures Chained(Chosen(items, m, n))
  {
    if Taken(items, m, n - 1) {
      ChosenChainedStep(items, m, n);
    } else {
      assert Chosen(items, m, n) == Chosen(items, m, n - 1);
    }
  }

  /** Appending pass `n - 1` to the picks before its predecessor keeps them chained. */
  lemma ChosenChainedStep(items: seq<PassItem>, m: Metric, n: nat)
    requires 0 < n <= |items| && SortedBy(items, ByEndThenStart)
    requires Taken(items, m, n - 1)
    requires Chained(Chosen(items, m, Pred(items, n - 1)))
    ensures Chained(Chosen(items, m, n))
  {
    var x := items[n - 1];
    var p := Pred(items, n - 1);
    var prefix := Chosen(items, m, p);
    assert Chosen(items, m, n) == prefix + [x];
    ChosenFromPrefix(items, m, p);
    PrefixEndsBy(items, n - 1, x.startTs);
    forall y | y in prefix
      ensures y.endTs <= x.startTs
    {
      assert y in multiset(items[..p]);
    }
    ChainedSnoc(prefix, x);
  }

  lemma ChainedSnoc(s: seq<PassItem>, x: PassItem)
    requires Chained(s)
    requires forall y :: y in s ==> y.endTs <= x.startTs
    ensures Chained(s + [x])
  {
    var t := s + [x];
    forall i, j | 0 <= i < j < |t|
      ensures t[i].endTs <= t[j].startTs
    {
      if j == |s| {
        assert t[i] in s;
      }
    }
  }

  lemma {:induction false} TotalWeightRemove(s: seq<PassItem>, k: nat, m: Metric)
    requires k < |s|
    ensures TotalWeight(s, m) == TotalWeight(s[..k] + s[k + 1..], m) + Weight(s[k], m)
    decreases |s|
  {
    var last := |s| - 1;
    if k == last {
      assert s[..k] + s[k + 1..] == s[..last];
    } else {
      var init := s[..last];
      TotalWeightRemove(init, k, m);
      var rest := s[..k] + s[k + 1..];
      assert rest[..|rest| - 1] == init[..k] + init[k + 1..];
      assert rest[|rest| - 1] == s[last];
    }
  }

  /** Removing one pass from a pairwise non-overlapping list keeps it so. */
  lemma RemoveKeepsDisjoint(s: seq<PassItem>, k: nat)
    requires k < |s| && PairwiseDisjoint(s) && AllProper(s)
    ensures PairwiseDisjoint(s[..k] + s[k + 1..]) && AllProper(s[..k] + s[k + 1..])
    ensures forall y :: y in s[..k] + s[k + 1..] ==> Disjoint(s[k], y)
  {
    var rest := s[..k] + s[k + 1..];
    forall a | 0 <= a < |rest|
      ensures rest[a] == s[if a < k then a else a + 1]
    {
    }
  }

  /** Passes of the sorted prefix that end by `t` all lie in `items[..LastEndingBy(..)]`. */
  lemma EndingByInPrefix(items: seq<PassItem>, i: nat, t: int, sub: seq<PassItem>)
    requires i <= |items|
    requires multiset(sub) <= multiset(items[..i])
    requires forall y :: y in sub ==> y.endTs <= t
    ensures multiset(sub) <= multiset(items[..LastEndingBy(items, i, t)])
  {
    var p := LastEndingBy(items, i, t);
    var front, back := items[..p], items[p..i];
    assert items[..i] == front + back;
    forall y | y in multiset(sub)
      ensures multiset(sub)[y] <= multiset(front)[y]
    {
      assert y in sub;
      assert y !in back;
    }
  }

  /** Optimality: no pairwise non-overlapping choice from the first `n` passes beats `dp`. */
  lemma {:induction false} BestIsOptimal(items: seq<PassItem>, m: Metric, n: nat, sub: seq<PassItem>)
    requires n <= |items| && SortedBy(items, ByEndThenStart)
    requires AllProper(sub) && PairwiseDisjoint(sub)
    requires multiset(sub) <= multiset(items[..n])
    ensures TotalWeight(sub, m) <= Best(items, m, n)
    decreases n
  {
    if n == 0 {
      assert |multiset(sub)| == 0;
      assert sub == [];
    } else {
      var k, smaller := OptimalStep(items, m, n, sub);
      BestIsOptimal(items, m, k, smaller);
    }
  }

  /**
   * One step of the optimality argument: either pass `n - 1` is not used up
   * and the choice comes from the first `n - 1` passes, or it is removed and
   * the rest comes from before its predecessor.  Either way `dp` grows by at
   * least the weight removed.
   */
  lemma OptimalStep(items: seq<PassItem>, m: Metric, n: nat, sub: seq<PassItem>)
    returns (k: nat, smaller: seq<PassItem>)
    requires 0 < n <= |items| && SortedBy(items, ByEndThenStart)
    requires AllProper(sub) && PairwiseDisjoint(sub)
    requires multiset(sub) <= multiset(items[..n])
    ensures k < n && AllProper(smaller) && PairwiseDisjoint(smaller)
    ensures multiset(smaller) <= multiset(items[..k])
    ensures TotalWeight(sub, m) - TotalWeight(smaller, m) <= Best(items, m, n) - Best(items, m, k)
  {
    var x := items[n - 1];
    if multiset(sub)[x] < multiset(items[..n])[x] {
      k, smaller := OptimalSkip(items, m, n, sub);
    } else {
      k, smaller := OptimalTake(items, m, n, sub);
    }
  }

  /** The first case of `OptimalStep`: a copy of pass `n - 1` is left unused. */
  lemma OptimalSkip(items: seq<PassItem>, m: Metric, n: nat, sub: seq<PassItem>)
    returns (k: nat, smaller: seq<PassItem>)
    requires 0 < n <= |items|
    requires AllProper(sub) && PairwiseDisjoint(sub)
    requires multiset(sub) <= multiset(items[..n])
    requires multiset(sub)[items[n - 1]] < multiset(items[..n])[items[n - 1]]
    ensures k < n && AllProper(smaller) && PairwiseDisjoint(smaller)
    ensures multiset(smaller) <= multiset(items[..k])
    ensures TotalWeight(sub, m) - TotalWeight(smaller, m) <= Best(items, m, n) - Best(items, m, k)
  {
    k, smaller := n - 1, sub;
    WithoutLast(items, n, sub);
    SkipGain(items, m, n, sub);
  }

  lemma SkipGain(items: seq<PassItem>, m: Metric, n: nat, sub: seq<PassItem>)
    requires 0 < n <= |items|
    ensures TotalWeight(sub, m) - TotalWeight(sub, m) <= Best(items, m, n) - Best(items, m, n - 1)
  {
    BestCovers(items, m, n);
  }

  /** The second case of `OptimalStep`: pass `n - 1` is removed from the choice. */
  lemma OptimalTake(items: seq<PassItem>, m: Metric, n: nat, sub: seq<PassItem>)
    returns (k: nat, smaller: seq<PassItem>)
    requires 0 < n <= |items| && SortedBy(items, ByEndThenStart)
    requires AllProper(sub) && PairwiseDisjoint(sub)
    requires multiset(sub) <= multiset(items[..n])
    requires multiset(sub)[items[n - 1]] >= multiset(items[..n])[items[n - 1]]
    ensures k < n && AllProper(smaller) && PairwiseDisjoint(smaller)
    ensures multiset(smaller) <= multiset(items[..k])
    ensures TotalWeight(sub, m) - TotalWeight(smaller, m) <= Best(items, m, n) - Best(items, m, k)
  {
    smaller := SplitAtLast(items, m, n, sub);
    k := Pred(items, n - 1);
    BestCovers(items, m, n);
  }

  /** `dp` is at least both alternatives of its last step. */
  lemma BestCovers(items: seq<PassItem>, m: Metric, n: nat)
    requires 0 < n <= |items|
    ensures Best(items, m, n) >= Best(items, m, n - 1)
    ensures Best(items, m, n) >= Weight(items[n - 1], m) + Best(items, m, Pred(items, n - 1))
  {
  }

  /** A choice that leaves out a copy of pass `n - 1` comes from the first `n - 1` passes. */
  lemma WithoutLast(items: seq<PassItem>, n: nat, sub: seq<PassItem>)
    requires 0 < n <= |items| && multiset(sub) <= multiset(items[..n])
    requires multiset(sub)[items[n - 1]] < multiset(items[..n])[items[n - 1]]
    ensures multiset(sub) <= multiset(items[..n - 1])
  {
    assert items[..n] == items[..n - 1] + [items[n - 1]];
  }

  /**
   * When a non-overlapping choice uses pass `n - 1` as often as the prefix
   * holds it, dropping that pass leaves a choice from the passes before its
   * predecessor.
   */
  lemma SplitAtLast(items: seq<PassItem>, m: Metric, n: nat, sub: seq<PassItem>) returns (rest: seq<PassItem>)
    requires 0 < n <= |items| && SortedBy(items, ByEndThenStart)
    requires AllProper(sub) && PairwiseDisjoint(sub)
    requires multiset(sub) <= multiset(items[..n])
    requires multiset(sub)[items[n - 1]] >= multiset(items[..n])[items[n - 1]]
    ensures AllProper(rest) && PairwiseDisjoint(rest)
    ensures multiset(rest) <= multiset(items[..Pred(items, n - 1)])
    ensures TotalWeight(sub, m) == TotalWeight(rest, m) + Weight(items[n - 1], m)
  {
    var x := items[n - 1];
    assert items[..n] == items[..n - 1] + [x];
    assert x in multiset(sub);
    var k :| 0 <= k < |sub| && sub[k] == x;
    rest := sub[..k] + sub[k + 1..];
    RemoveAtMultiset(sub, k);
    assert multiset(rest) <= multiset(items[..n - 1]);
    RemoveKeepsDisjoint(sub, k);
    RestBeforePred(items, n, rest);
    TotalWeightRemove(sub, k, m);
  }

  /** Passes from before pass `n - 1` that do not overlap it come from before its predecessor. */
  lemma RestBeforePred(items: seq<PassItem>, n: nat, rest: seq<PassItem>)
    requires 0 < n <= |items| && SortedBy(items, ByEndThenStart)
    requires AllProper(rest) && multiset(rest) <= multiset(items[..n - 1])
    requires forall y :: y in rest ==> Disjoint(items[n - 1], y)
    ensures multiset(rest) <= multiset(items[..Pred(items, n - 1)])
  {
    EndsBeforeLast(items, n, rest);
    EndingByInPrefix(items, n - 1, items[n - 1].startTs, rest);
  }

  lemma RemoveAtMultiset<T>(s: seq<T>, k: nat)
    requires k < |s|
    ensures multiset(s[..k] + s[k + 1..]) == multiset(s) - multiset{s[k]}
  {
    assert s == s[..k] + [s[k]] + s[k + 1..];
  }

  /** A proper pass drawn from before pass `n - 1` that does not overlap it ends by its start. */
  lemma EndsBeforeLast(items: seq<PassItem>, n: nat, rest: seq<PassItem>)
    requires 0 < n <= |items| && SortedBy(items, ByEndThenStart)
    requires AllProper(rest) && multiset(rest) <= multiset(items[..n - 1])
    requires forall y :: y in rest ==> Disjoint(items[n - 1], y)
    ensures forall y :: y in rest ==> y.endTs <= items[n - 1].startTs
  {
    forall y | y in rest
      ensures y.endTs <= items[n - 1].startTs
    {
      assert y in multiset(items[..n - 1]);
      var q :| 0 <= q < n - 1 && items[q] == y;
      assert ByEndThenStart(items[q], items[n - 1]);
      var a :| 0 <= a < |rest| && rest[a] == y;
      assert Proper(rest[a]);
    }
  }

  /** The schedule is feasible and its score is the weight of the passes it picks. */
  lemma ScheduleIsFeasible(passes: seq<PassItem>, m: Metric)
    ensures var (chosen, score) := Schedule(passes, m);
            && Chained(chosen)
            && multiset(chosen) <= multiset(passes)
            && score == TotalWeight(chosen, m)
  {
    var items := SortBy(passes, ByEndThenStart);
    ByEndThenStartIsTotalPreorder();
    SortBySorted(passes, ByEndThenStart);
    ChosenChained(items, m, |items|);
    ChosenFromPrefix(items, m, |items|);
    ChosenScore(items, m, |items|);
    assert items[..|items|] == items;
  }

  /** The schedule's score is at least the weight of any non-overlapping choice from the input. */
  lemma ScheduleIsOptimal(passes: seq<PassItem>, m: Metric, sub: seq<PassItem>)
    requires AllProper(passes)
    requires multiset(sub) <= multiset(passes) && PairwiseDisjoint(sub)
    ensures TotalWeight(sub, m) <= Schedule(passes, m).1
  {
    var items := SortBy(passes, ByEndThenStart);
    ByEndThenStartIsTotalPreorder();
    SortBySorted(passes, ByEndThenStart);
    assert items[..|items|] == items;
    forall a | 0 <= a < |sub| ensures Proper(sub[a]) {
      assert sub[a] in multiset(passes);
      var q :| 0 <= q < |passes| && passes[q] == sub[a];
    }
    BestIsOptimal(items, m, |items|, sub);
  }

  /** For a known metric the top-K list is a prefix of the stable weight-descending sort. */
  lemma TopKIsPrefix(passes: seq<PassItem>, metricName: string, k: int)
    requires ParseMetric(metricName).Some?
    ensures var r := TopK(passes, metricName, k);
            var n := Min(Max(k, 0), |passes|);
            r == Success(SortBy(passes, ByWeightDescending(ParseMetric(metricName).value))[..n])
  {
  }

  /** The top-K list is ordered heaviest first. */
  lemma TopKOrdered(passes: seq<PassItem>, metricName: string, k: int)
    requires ParseMetric(metricName).Some?
    ensures var r := TopK(passes, metricName, k);
            r.Success? && SortedBy(r.value, ByWeightDescending(ParseMetric(metricName).value))
  {
    var m := ParseMetric(metricName).value;
    TopKIsPrefix(passes, metricName, k);
    ByWeightDescendingIsTotalPreorder(m);
    SortBySorted(passes, ByWeightDescending(m));
  }

  /** No pass left out of the top-K list outweighs a pass kept in it. */
  lemma TopKHeaviest(passes: seq<PassItem>, metricName: string, k: int)
    requires ParseMetric(metricName).Some?
    ensures var m := ParseMetric(metricName).value;
            var r := TopK(passes, metricName, k);
            && r.Success?
            && (forall y, x :: y in multiset(passes) - multiset(r.value) && x in r.value
                               ==> Weight(y, m) <= Weight(x, m))
  {
    var m := ParseMetric(metricName).value;
    var le := ByWeightDescending(m);
    var sorted := SortBy(passes, le);
    var n := Min(Max(k, 0), |passes|);
    var kept := sorted[..n];
    TopKIsPrefix(passes, metricName, k);
    ByWeightDescendingIsTotalPreorder(m);
    SortBySorted(passes, le);
    DropPrefixMultiset(sorted, n);
    forall y, x | y in multiset(passes) - multiset(kept) && x in kept
      ensures Weight(y, m) <= Weight(x, m)
    {
      PrefixBeforeSuffix(sorted, le, n, x, y);
    }
  }

  /** In a sorted list, an element of the first `n` comes no later than one of the rest. */
  lemma PrefixBeforeSuffix<T>(s: seq<T>, le: (T, T) -> bool, n: nat, x: T, y: T)
    requires SortedBy(s, le) && n <= |s|
    requires x in s[..n] && y in multiset(s[n..])
    ensures le(x, y)
  {
    var a :| 0 <= a < n && s[a] == x;
    var b := IndexInSuffix(s, n, y);
    assert le(s[a], s[b]);
  }

  lemma IndexInSuffix<T>(s: seq<T>, n: nat, y: T) returns (b: nat)
    requires n <= |s| && y in multiset(s[n..])
    ensures n <= b < |s| && s[b] == y
  {
    assert y in s[n..];
    var c :| 0 <= c < |s| - n && s[n..][c] == y;
    b := n + c;
  }

  lemma DropPrefixMultiset<T>(s: seq<T>, n: nat)
    requires n <= |s|
    ensures multiset(s) - multiset(s[..n]) == multiset(s[n..])
  {
    assert s == s[..n] + s[n..];
  }

  /** Passes of equal weight keep their input order in the top-K list. */
  lemma TopKStable(passes: seq<PassItem>, metricName: string, k: int)
    requires ParseMetric(metricName).Some?
    ensures var le := ByWeightDescending(ParseMetric(metricName).value);
            var r := TopK(passes, metricName, k);
            && r.Success?
            && (forall v :: TiedWith(r.value, v, le) <= TiedWith(passes, v, le))
  {
    var le := ByWeightDescending(ParseMetric(metricName).value);
    var sorted := SortBy(passes, le);
    var n := Min(Max(k, 0), |passes|);
    TopKIsPrefix(passes, metricName, k);
    forall v
      ensures TiedWith(sorted[..n], v, le) <= TiedWith(passes, v, le)
    {
      TiedWithPrefix(sorted, n, v, le);
      SortByStable(passes, v, le);
    }
  }

  /**
   * Three passes A = [0, 100), B = [50, 150), C = [100, 200) of 100 s each:
   * by duration the schedule is A and C with score 200.
   */
  lemma ThreePassExample()
    ensures Schedule(ThreePasses(), Duration) == ([ThreePasses()[0], ThreePasses()[2]], 200.0)
  {
    var items := ThreePasses();
    ThreePassesSorted();
    ThreePassesTable();
    assert Chosen(items, Duration, 3) == [items[0], items[2]];
  }

  function ThreePasses(): (s: seq<PassItem>)
    ensures |s| == 3
  {
    [PassItem(1, 1, 1, 0, 100, 100, 10.0),
     PassItem(2, 1, 1, 50, 150, 100, 20.0),
     PassItem(3, 1, 1, 100, 200, 100, 30.0)]
  }

  lemma ThreePassesSorted()
    ensures SortBy(ThreePasses(), ByEndThenStart) == ThreePasses()
  {
    var s := ThreePasses();
    assert SortBy([s[2]], ByEndThenStart) == [s[2]];
    assert SortBy(s[1..], ByEndThenStart) == s[1..];
  }

  lemma ThreePassesTable()
    ensures Pred(ThreePasses(), 0) == 0 && Pred(ThreePasses(), 1) == 0 && Pred(ThreePasses(), 2) == 1
    ensures Best(ThreePasses(), Duration, 1) == 100.0
    ensures Best(ThreePasses(), Duration, 2) == 100.0
    ensures Best(ThreePasses(), Duration, 3) == 200.0
    ensures Taken(ThreePasses(), Duration, 0) && !Taken(ThreePasses(), Duration, 1)
    ensures Taken(ThreePasses(), Duration, 2)
  {
    var items := ThreePasses();
    assert Pred(items, 0) == 0;
    assert Pred(items, 1) == 0;
    assert Pred(items, 2) == 1;
    assert Best(items, Duration, 1) == 100.0;
    assert Best(items, Duration, 2) == 100.0;
  }
}
