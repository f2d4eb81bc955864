/**
 * The scheduling endpoints: candidate passes are read from the pass table,
 * clipped to the query window, and handed to the scheduler.
 *
 * A stored row carries the same fields as a scheduler item, so rows are
 * `PassItem`s here.  The HTTP layer (ISO parsing, JSON replies, the query
 * parameter checks of the framework) and the database connection are not
 * modelled: the table is a sequence, the window two instants.
 */
module ScheduleRouter {
  import opened Wrappers
  import opened TimeArith
  import opened StableSort
  import opened Optimizer
  import BatchDriver
  import PassPrediction

  /** Items whose clipped part lasts fewer whole seconds than this are dropped. */
  const MinItemDurationS: int := 5

  /** The one error reply of both endpoints. */
  datatype RouterError = StartNotBeforeEnd

  /** The query parameter value that names `m`. */
  function MetricName(m: Metric): (name: string)
    ensures ParseMetric(name) == Some(m)
  {
    match m
    case Duration => "duration"
    case MaxElev => "max_elev"
  }

  /** Length, in microseconds, of the part of `row` inside `[qstart, qend]`; not positive when they do not meet. */
  function Overlap(row: PassItem, qstart: int, qend: int): int
  {
    Min(row.endTs, qend) - Max(row.startTs, qstart)
  }

  /**
   * `clip_row_to_window` (and its twin `clip_pass`): the part of the row
   * inside the window, with its length in whole seconds, truncated; no item
   * when fewer than five whole seconds remain.
   */
  function ClipRowToWindow(row: PassItem, qstart: int, qend: int): (r: Option<PassItem>)
    ensures r.None? <==> Overlap(row, qstart, qend) < MinItemDurationS * MicrosPerSecond
    ensures r.Some? ==>
              && r.value.startTs == Max(row.startTs, qstart)
              && r.value.endTs == Min(row.endTs, qend)
              && qstart <= r.value.startTs < r.value.endTs <= qend
              && row.startTs <= r.value.startTs && r.value.endTs <= row.endTs
              && MinItemDurationS <= r.value.durationS
              && MicrosPerSecond * r.value.durationS <= r.value.endTs - r.value.startTs
              && r.value.endTs - r.value.startTs < MicrosPerSecond * (r.value.durationS + 1)
              && r.value == row.(startTs := r.value.startTs, endTs := r.value.endTs, durationS := r.value.durationS)
  {
    var s := Max(row.startTs, qstart);
    var e := Min(row.endTs, qend);
    if e <= s then None
    else
      var dur := TruncDiv(e - s, MicrosPerSecond);
      if dur < MinItemDurationS then None
      else Some(PassItem(row.id, row.satelliteId, row.groundStationId, s, e, dur, row.maxElevDeg))
  }

  /** The items one clipped row adds to the list. */
  function Kept(p: Option<PassItem>): (items: seq<PassItem>)
    ensures |items| <= 1
  {
    if p.Some? then [p.value] else []
  }

  /** The item list the endpoints build: each row clipped, in order, dropped rows left out. */
  function ClipRows(rows: seq<PassItem>, qstart: int, qend: int): (items: seq<PassItem>)
    ensures |items| <= |rows|
  {
    if rows == [] then []
    else ClipRows(rows[..|rows| - 1], qstart, qend) + Kept(ClipRowToWindow(rows[|rows| - 1], qstart, qend))
  }

  /** Every item is inside the window, non-empty, and lasts at least five whole seconds. */
  ghost predicate InWindow(items: seq<PassItem>, qstart: int, qend: int)
  {
    forall k :: 0 <= k < |items| ==>
      && qstart <= items[k].startTs < items[k].endTs <= qend
      && items[k].durationS >= MinItemDurationS
  }

  // ---------------------------------------------------------------------
  // The candidate query.
  // ---------------------------------------------------------------------

  /** The station and satellite part of the candidate query's filter. */
  predicate OfStation(row: PassItem, gsId: int, satId: Option<int>)
  {
    row.groundStationId == gsId && (satId.None? || row.satelliteId == satId.value)
  }

  /** The whole filter of `fetch_candidate_passes`: the station part and "meets the window". */
  predicate MatchesQuery(row: PassItem, gsId: int, satId: Option<int>, qstart: int, qend: int)
  {
    OfStation(row, gsId, satId) && row.startTs < qend && row.endTs > qstart
  }

  function StationRows(table: seq<PassItem>, gsId: int, satId: Option<int>): (rows: seq<PassItem>)
    ensures |rows| <= |table|
    ensures forall x :: x in rows ==> x in table && OfStation(x, gsId, satId)
  {
    if table == [] then []
    else
      var last := table[|table| - 1];
      StationRows(table[..|table| - 1], gsId, satId) + (if OfStation(last, gsId, satId) then [last] else [])
  }

  /** The rows `fetch_candidate_passes` returns, in table order. */
  function CandidateRows(table: seq<PassItem>, gsId: int, satId: Option<int>, qstart: int, qend: int): (rows: seq<PassItem>)
    ensures |rows| <= |table|
    ensures forall x :: x in rows ==> x in table && MatchesQuery(x, gsId, satId, qstart, qend)
  {
    if table == [] then []
    else
      var last := table[|table| - 1];
      CandidateRows(table[..|table| - 1], gsId, satId, qstart, qend)
        + (if MatchesQuery(last, gsId, satId, qstart, qend) then [last] else [])
  }

  /** The order of the candidate query: `ORDER BY end_ts ASC`. */
  predicate ByEnd(a: PassItem, b: PassItem)
  {
    a.endTs <= b.endTs
  }

  lemma ByEndIsTotalPreorder()
    ensures IsTotalPreorder(ByEnd)
  {
  }

  /**
   * `fetch_candidate_passes`: the matching rows by ascending end.  The
   * query leaves the order of rows with equal ends open; here they keep
   * their table order.
   */
  function FetchCandidatePasses(table: seq<PassItem>, gsId: int, satId: Option<int>, qstart: int, qend: int)
    : (rows: seq<PassItem>)
    ensures multiset(rows) == multiset(CandidateRows(table, gsId, satId, qstart, qend))
    ensures SortedBy(rows, ByEnd)
  {
    ByEndIsTotalPreorder();
    SortBySorted(CandidateRows(table, gsId, satId, qstart, qend), ByEnd);
    SortBy(CandidateRows(table, gsId, satId, qstart, qend), ByEnd)
  }

  // ---------------------------------------------------------------------
  // The endpoints.
  // ---------------------------------------------------------------------

  /** The `items` loop of both endpoints. */
  method ClipAll(rows: seq<PassItem>, qstart: int, qend: int) returns (items: seq<PassItem>)
    ensures items == ClipRows(rows, qstart, qend)
  {
    items := [];
    for j := 0 to |rows|
      invariant items == ClipRows(rows[..j], qstart, qend)
    {
      assert rows[..j + 1][..j] == rows[..j];
      var p := ClipRowToWindow(rows[j], qstart, qend);
      if p.Some? {
        items := items + [p.value];
      }
    }
    assert rows[..|rows|] == rows;
  }

  /**
   * `best_schedule`: an error for an empty or reversed window; otherwise the
   * best non-overlapping choice among the clipped candidates, and its score.
   */
  method BestSchedule(table: seq<PassItem>, gsId: int, satId: Option<int>, qstart: int, qend: int, metric: Metric)
    returns (r: Result<(seq<PassItem>, real), RouterError>)
    ensures qstart >= qend <==> r == Failure(StartNotBeforeEnd)
    ensures qstart < qend ==>
              r == Success(Schedule(ClipRows(FetchCandidatePasses(table, gsId, satId, qstart, qend), qstart, qend), metric))
    ensures r.Success? ==>
              var items := ClipRows(FetchCandidatePasses(table, gsId, satId, qstart, qend), qstart, qend);
              var (chosen, score) := r.value;
              && Chained(chosen)
              && InWindow(chosen, qstart, qend)
              && multiset(chosen) <= multiset(items)
              && score == TotalWeight(chosen, metric)
              && (forall sub :: multiset(sub) <= multiset(items) && PairwiseDisjoint(sub)
                                ==> TotalWeight(sub, metric) <= score)
  {
    if qstart >= qend {
      return Failure(StartNotBeforeEnd);
    }
    var rows := FetchCandidatePasses(table, gsId, satId, qstart, qend);
    var items := ClipAll(rows, qstart, qend);
    ClipRowsInWindow(rows, qstart, qend);
    var res := BestNonOverlapping(items, MetricName(metric));
    assert res == Success(Schedule(items, metric)) by {
      if items == [] {
        assert SortBy(items, ByEndThenStart) == [];
      }
    }
    r := Success(res.value);
    ScheduleIsFeasible(items, metric);
    SubsetInWindow(Schedule(items, metric).0, items, qstart, qend);
    forall sub | multiset(sub) <= multiset(items) && PairwiseDisjoint(sub)
      ensures TotalWeight(sub, metric) <= Schedule(items, metric).1
    {
      ScheduleIsOptimal(items, metric, sub);
    }
  }

  /**
   * `top_schedule`: an error for an empty or reversed window; otherwise the
   * `k` heaviest clipped candidates, heaviest first.
   */
  method TopSchedule(table: seq<PassItem>, gsId: int, satId: Option<int>, qstart: int, qend: int, metric: Metric, k: int)
    returns (r: Result<seq<PassItem>, RouterError>)
    ensures qstart >= qend <==> r == Failure(StartNotBeforeEnd)
    ensures qstart < qend ==>
              var items := ClipRows(FetchCandidatePasses(table, gsId, satId, qstart, qend), qstart, qend);
              r == Success(SortBy(items, ByWeightDescending(metric))[..Min(Max(k, 0), |items|)])
    ensures r.Success? ==>
              var items := ClipRows(FetchCandidatePasses(table, gsId, satId, qstart, qend), qstart, qend);
              && |r.value| == Min(Max(k, 0), |items|)
              && multiset(r.value) <= multiset(items)
              && InWindow(r.value, qstart, qend)
  {
    if qstart >= qend {
      return Failure(StartNotBeforeEnd);
    }
    var rows := FetchCandidatePasses(table, gsId, satId, qstart, qend);
    var items := ClipAll(rows, qstart, qend);
    ClipRowsInWindow(rows, qstart, qend);
    var top := TopK(items, MetricName(metric), k);
    TopKIsPrefix(items, MetricName(metric), k);
    r := Success(top.value);
    SubsetInWindow(top.value, items, qstart, qend);
  }

  // ---------------------------------------------------------------------
  // Lemmas.
  // ---------------------------------------------------------------------

  /** Clipping a clipped item to the same window gives it back. */
  lemma ClipIdempotent(row: PassItem, qstart: int, qend: int)
    requires ClipRowToWindow(row, qstart, qend).Some?
    ensures var p := ClipRowToWindow(row, qstart, qend).value;
            ClipRowToWindow(p, qstart, qend) == Some(p)
  {
    var p := ClipRowToWindow(row, qstart, qend).value;
    var q := ClipRowToWindow(p, qstart, qend);
    assert Overlap(p, qstart, qend) == p.endTs - p.startTs;
    TruncDivUnique(p.endTs - p.startTs, p.durationS);
    TruncDivUnique(p.endTs - p.startTs, q.value.durationS);
  }

  /** A whole-second count is fixed by the microsecond length it was truncated from. */
  lemma TruncDivUnique(us: int, d: int)
    requires us >= 0
    requires MicrosPerSecond * d <= us < MicrosPerSecond * (d + 1)
    ensures d == TruncDiv(us, MicrosPerSecond)
  {
  }

  /**
   * Clipping to a window and then to a smaller one is clipping straight to
   * the smaller one.
   */
  lemma ClipNarrower(row: PassItem, qstart: int, qend: int, qstart': int, qend': int)
    requires qstart <= qstart' && qend' <= qend
    ensures var p := ClipRowToWindow(row, qstart, qend);
            ClipRowToWindow(row, qstart', qend')
              == if p.None? then None else ClipRowToWindow(p.value, qstart', qend')
  {
    var p := ClipRowToWindow(row, qstart, qend);
    var q := ClipRowToWindow(row, qstart', qend');
    assert Overlap(row, qstart', qend') <= Overlap(row, qstart, qend);
    if p.Some? {
      var q' := ClipRowToWindow(p.value, qstart', qend');
      assert Overlap(p.value, qstart', qend') == Overlap(row, qstart', qend');
      if q.Some? {
        TruncDivUnique(q.value.endTs - q.value.startTs, q.value.durationS);
        TruncDivUnique(q'.value.endTs - q'.value.startTs, q'.value.durationS);
      }
    }
  }

  /** Every clipped item lies in the window, is non-empty and lasts at least five seconds. */
  lemma {:induction false} ClipRowsInWindow(rows: seq<PassItem>, qstart: int, qend: int)
    ensures InWindow(ClipRows(rows, qstart, qend), qstart, qend)
    ensures AllProper(ClipRows(rows, qstart, qend))
  {
    if rows != [] {
      ClipRowsInWindow(rows[..|rows| - 1], qstart, qend);
    }
  }

  /** An item is in the list exactly when it is the clip of one of the rows. */
  lemma {:induction false} ClipRowsMembers(rows: seq<PassItem>, qstart: int, qend: int, x: PassItem)
    ensures x in ClipRows(rows, qstart, qend)
            <==> exists j :: 0 <= j < |rows| && ClipRowToWindow(rows[j], qstart, qend) == Some(x)
  {
    if rows != [] {
      var init := rows[..|rows| - 1];
      ClipRowsMembers(init, qstart, qend, x);
      if exists j :: 0 <= j < |rows| && ClipRowToWindow(rows[j], qstart, qend) == Some(x) {
        var j :| 0 <= j < |rows| && ClipRowToWindow(rows[j], qstart, qend) == Some(x);
        if j < |rows| - 1 {
          assert init[j] == rows[j];
        }
      }
      if exists j :: 0 <= j < |init| && ClipRowToWindow(init[j], qstart, qend) == Some(x) {
        var j :| 0 <= j < |init| && ClipRowToWindow(init[j], qstart, qend) == Some(x);
        assert rows[j] == init[j];
      }
    }
  }

  /** Clipping keeps the candidates' order: rows by ascending end give items by ascending end. */
  lemma {:induction false} ClipRowsKeepsEndOrder(rows: seq<PassItem>, qstart: int, qend: int)
    requires SortedBy(rows, ByEnd)
    ensures SortedBy(ClipRows(rows, qstart, qend), ByEnd)
  {
    if rows != [] {
      var init, last := rows[..|rows| - 1], rows[|rows| - 1];
      ClipRowsKeepsEndOrder(init, qstart, qend);
      var front := ClipRows(init, qstart, qend);
      var p := ClipRowToWindow(last, qstart, qend);
      if p.Some? {
        forall x | x in front
          ensures x.endTs <= p.value.endTs
        {
          ClipRowsMembers(init, qstart, qend, x);
          var j :| 0 <= j < |init| && ClipRowToWindow(init[j], qstart, qend) == Some(x);
          assert ByEnd(rows[j], last);
        }
        var items := front + [p.value];
        forall i, j | 0 <= i < j < |items|
          ensures ByEnd(items[i], items[j])
        {
          assert items[i] == front[i];
        }
      }
    }
  }

  /** A sub-multiset of items that lie in the window lies in the window. */
  lemma SubsetInWindow(sub: seq<PassItem>, items: seq<PassItem>, qstart: int, qend: int)
    requires InWindow(items, qstart, qend) && multiset(sub) <= multiset(items)
    ensures InWindow(sub, qstart, qend)
  {
    forall k | 0 <= k < |sub|
      ensures qstart <= sub[k].startTs < sub[k].endTs <= qend && sub[k].durationS >= MinItemDurationS
    {
      assert sub[k] in multiset(items);
      var a :| 0 <= a < |items| && items[a] == sub[k];
    }
  }

  /**
   * The time part of the candidate query changes nothing: a row that does not
   * meet the window is dropped by the clip anyway.
   */
  lemma {:induction false} QueryTimeFilterIsRedundant(table: seq<PassItem>, gsId: int, satId: Option<int>, qstart: int, qend: int)
    ensures ClipRows(CandidateRows(table, gsId, satId, qstart, qend), qstart, qend)
            == ClipRows(StationRows(table, gsId, satId), qstart, qend)
  {
    if table != [] {
      var init := table[..|table| - 1];
      var last := table[|table| - 1];
      QueryTimeFilterIsRedundant(init, gsId, satId, qstart, qend);
      var c := CandidateRows(init, gsId, satId, qstart, qend);
      var s := StationRows(init, gsId, satId);
      if MatchesQuery(last, gsId, satId, qstart, qend) {
        ClipRowsSnoc(c, last, qstart, qend);
        ClipRowsSnoc(s, last, qstart, qend);
      } else if OfStation(last, gsId, satId) {
        assert Overlap(last, qstart, qend) <= 0;
        ClipRowsSnoc(s, last, qstart, qend);
        assert CandidateRows(table, gsId, satId, qstart, qend) == c + [];
        assert c + [] == c;
      } else {
        assert CandidateRows(table, gsId, satId, qstart, qend) == c + [];
        assert StationRows(table, gsId, satId) == s + [];
        assert c + [] == c && s + [] == s;
      }
    }
  }

  lemma ClipRowsSnoc(rows: seq<PassItem>, x: PassItem, qstart: int, qend: int)
    ensures ClipRows(rows + [x], qstart, qend) == ClipRows(rows, qstart, qend) + Kept(ClipRowToWindow(x, qstart, qend))
  {
    assert (rows + [x])[..|rows|] == rows;
  }

  /**
   * The batch job rounds a row's length to the nearest second, the endpoints
   * truncate it: a row stored as lasting five seconds can be 4.6 seconds long
   * and then never reaches the scheduler, even for a window that contains it.
   */
  lemma StoredRowBelowFiveSecondsIsDropped()
    ensures var w := PassPrediction.PassWindow(0, 4600000, 5, 30.0);
            var stored := BatchDriver.ClipToHorizon(w, 0, 10000000, 1, 1);
            && stored.Some?
            && stored.value.durationS == 5
            && ClipRowToWindow(PassItem(7, 1, 1, stored.value.startTs, stored.value.endTs, 5, 30.0), 0, 10000000).None?
  {
    var w := PassPrediction.PassWindow(0, 4600000, 5, 30.0);
    assert DivideAndRound(4600000, MicrosPerSecond) == 5;
  }
}
