/**
 * Pass prediction: a coarse scan of the elevation at a fixed sampling step,
 * with the rise and set instants refined by a fixed-iteration bisection.
 *
 * Instants are integer microseconds.  The elevation of the satellite above
 * the station (in degrees) is an abstract total function of the instant; the
 * orbit propagator and the geometry behind it are not part of this model.
 */
module PassPrediction {
  import opened Wrappers
  import opened TimeArith
  import opened SeqFacts

  datatype PassWindow = PassWindow(startTs: int, endTs: int, durationS: int, maxElevDeg: real)

  datatype PredictionError = StartNotBeforeEnd

  /** Elevation in degrees at each instant. */
  type Elevation = int -> real

  /** Default iteration count of the bisection. */
  const DefaultIterations: nat := 25

  /** The running maximum elevation outside a pass. */
  const NoPeak: real := -1000000000.0

  function Pow2(k: nat): (p: nat)
    ensures p >= 1
  {
    if k == 0 then 1 else 2 * Pow2(k - 1)
  }

  // ---------------------------------------------------------------------
  // Bisection.
  // ---------------------------------------------------------------------

  /** `lo + (hi - lo) / 2` on datetimes: the halved span is rounded half-even to the microsecond. */
  function Midpoint(lo: int, hi: int): (mid: int)
    requires lo <= hi
    ensures lo <= mid <= hi
    ensures 2 * (mid - lo) <= (hi - lo) + 1 && 2 * (hi - mid) <= (hi - lo) + 1
  {
    lo + DivideAndRound(hi - lo, 2)
  }

  /** The bracket `lo`, `hi` with the elevations `elo`, `ehi` the loop keeps for its ends. */
  datatype Bracket = Bracket(lo: int, hi: int, elo: real, ehi: real)

  /**
   * The two elevations are not strictly on the same side of the cutoff.
   * The loop tests this as "the product of the offsets is not positive";
   * `OppositeSidesIsProductSign` shows the two agree.
   */
  predicate OppositeSides(e0: real, e1: real, cutoff: real)
  {
    (e0 <= cutoff && cutoff <= e1) || (e1 <= cutoff && cutoff <= e0)
  }

  /** The cutoff is crossed (or touched) between the two ends of the bracket. */
  predicate Straddles(b: Bracket, cutoff: real)
  {
    OppositeSides(b.elo, b.ehi, cutoff)
  }

  /** The recorded end elevations are the elevations at the ends. */
  ghost predicate Sampled(elev: Elevation, b: Bracket)
  {
    b.elo == elev(b.lo) && b.ehi == elev(b.hi)
  }

  /** One bisection step: a non-positive product keeps the lower half `[lo, mid]`. */
  function Halve(elev: Elevation, cutoff: real, b: Bracket): (r: Bracket)
    requires b.lo <= b.hi
    ensures b.lo <= r.lo <= r.hi <= b.hi
    ensures 2 * (r.hi - r.lo) <= (b.hi - b.lo) + 1
  {
    var mid := Midpoint(b.lo, b.hi);
    var emid := elev(mid);
    if OppositeSides(b.elo, emid, cutoff) then Bracket(b.lo, mid, b.elo, emid)
    else Bracket(mid, b.hi, emid, b.ehi)
  }

  /** The bracket after `k` bisection steps. */
  function Refine(elev: Elevation, cutoff: real, b: Bracket, k: nat): (r: Bracket)
    requires b.lo <= b.hi
    ensures b.lo <= r.lo <= r.hi <= b.hi
  {
    if k == 0 then b else Halve(elev, cutoff, Refine(elev, cutoff, b, k - 1))
  }

  /** The instant `_bisect_crossing` returns after `iters` steps. */
  function CrossingAfter(elev: Elevation, t0: int, t1: int, e0: real, e1: real, cutoff: real, iters: nat): (t: int)
    requires t0 <= t1
    ensures t0 <= t <= t1
  {
    var r := Refine(elev, cutoff, Bracket(t0, t1, e0, e1), iters);
    Midpoint(r.lo, r.hi)
  }

  /** `_bisect_crossing` with its default iteration count. */
  function Crossing(elev: Elevation, t0: int, t1: int, e0: real, e1: real, cutoff: real): (t: int)
    requires t0 <= t1
    ensures t0 <= t <= t1
  {
    CrossingAfter(elev, t0, t1, e0, e1, cutoff, DefaultIterations)
  }

  /** `_bisect_crossing`: `iters` halvings of `[t0, t1]`, then the midpoint of what is left. */
  method BisectCrossing(elev: Elevation, t0: int, t1: int, e0: real, e1: real, cutoff: real, iters: nat)
    returns (t: int)
    requires t0 <= t1
    ensures t == CrossingAfter(elev, t0, t1, e0, e1, cutoff, iters)
  {
    var lo, hi, elo, ehi := t0, t1, e0, e1;
    for k := 0 to iters
      invariant lo <= hi
      invariant Bracket(lo, hi, elo, ehi) == Refine(elev, cutoff, Bracket(t0, t1, e0, e1), k)
    {
      ghost var before := Bracket(lo, hi, elo, ehi);
      var mid := Midpoint(lo, hi);
      var emid := elev(mid);
      if OppositeSides(elo, emid, cutoff) {
        hi, ehi := mid, emid;
        assert Bracket(lo, hi, elo, ehi) == Halve(elev, cutoff, before);
      } else {
        lo, elo := mid, emid;
        assert Bracket(lo, hi, elo, ehi) == Halve(elev, cutoff, before);
      }
    }
    t := Midpoint(lo, hi);
  }

  /** `OppositeSides` is exactly the loop's test "the product of the offsets is not positive". */
  lemma OppositeSidesIsProductSign(e0: real, e1: real, cutoff: real)
    ensures OppositeSides(e0, e1, cutoff) <==> (e0 - cutoff) * (e1 - cutoff) <= 0.0
  {
    var x, y := e0 - cutoff, e1 - cutoff;
    assert (e0 - cutoff) * (e1 - cutoff) == x * y;
    if x > 0.0 && y > 0.0 {
      assert x * y > 0.0;
    } else if x < 0.0 && y < 0.0 {
      assert (-x) * (-y) > 0.0;
      assert x * y == (-x) * (-y);
    } else if x <= 0.0 && y >= 0.0 {
      assert (-x) * y >= 0.0;
      assert x * y == -((-x) * y);
    } else {
      assert x * (-y) >= 0.0;
      assert x * y == -(x * (-y));
    }
  }

  /** Each step keeps a bracket around the crossing, and keeps the recorded elevations exact. */
  lemma HalveKeepsBracket(elev: Elevation, cutoff: real, b: Bracket)
    requires b.lo <= b.hi
    ensures Straddles(b, cutoff) ==> Straddles(Halve(elev, cutoff, b), cutoff)
    ensures Sampled(elev, b) ==> Sampled(elev, Halve(elev, cutoff, b))
  {
  }

  /** When the midpoint sits exactly on the cutoff, the lower half is kept. */
  lemma HalveTieKeepsLower(elev: Elevation, cutoff: real, b: Bracket)
    requires b.lo <= b.hi
    requires elev(Midpoint(b.lo, b.hi)) == cutoff
    ensures Halve(elev, cutoff, b).lo == b.lo
    ensures Halve(elev, cutoff, b).hi == Midpoint(b.lo, b.hi)
  {
  }

  /** The bracket invariants hold after any number of steps. */
  lemma {:induction false} RefineKeepsBracket(elev: Elevation, cutoff: real, b: Bracket, k: nat)
    requires b.lo <= b.hi
    ensures Straddles(b, cutoff) ==> Straddles(Refine(elev, cutoff, b, k), cutoff)
    ensures Sampled(elev, b) ==> Sampled(elev, Refine(elev, cutoff, b, k))
  {
    if k > 0 {
      RefineKeepsBracket(elev, cutoff, b, k - 1);
      HalveKeepsBracket(elev, cutoff, Refine(elev, cutoff, b, k - 1));
    }
  }

  lemma MulLeft(a: int, x: int, y: int)
    requires a >= 0 && x <= y
    ensures a * x <= a * y
  {
  }

  /** The width bound after `k` halvings of a width `w`, each rounding up by at most one microsecond. */
  function Halvings(w: int, k: nat): int
  {
    if k == 0 then w else (Halvings(w, k - 1) + 1) / 2
  }

  /** The width halves per step, up to one microsecond of rounding per step. */
  lemma {:induction false} RefineWidth(elev: Elevation, cutoff: real, b: Bracket, k: nat)
    requires b.lo <= b.hi
    ensures var r := Refine(elev, cutoff, b, k);
            r.hi - r.lo <= Halvings(b.hi - b.lo, k)
  {
    if k > 0 {
      RefineWidth(elev, cutoff, b, k - 1);
    }
  }

  /** `k` halvings bring a width of at most 2^k down to at most `(w + 2^k - 1) / 2^k`. */
  lemma {:induction false} HalvingsBound(w: int, k: nat)
    requires w >= 0
    ensures Halvings(w, k) >= 0
    ensures Halvings(w, k) * Pow2(k) <= w + Pow2(k) - 1
  {
    if k > 0 {
      HalvingsBound(w, k - 1);
      var h, h1, p, q := Halvings(w, k), Halvings(w, k - 1), Pow2(k - 1), Pow2(k);
      assert q == 2 * p;
      assert 2 * h <= h1 + 1;
      WidthStep(h, h1, w, p, q);
    }
  }

  lemma NarrowBracket(w: int, total: int, p: int)
    requires w >= 0 && p >= 1 && total <= p && w * p <= total + p - 1
    ensures w <= 1
  {
    if w >= 2 {
      MulLeft(p, 2, w);
      assert false;
    }
  }

  lemma WidthStep(w: int, w1: int, total: int, p: int, q: int)
    requires p >= 1 && q == 2 * p && 2 * w <= w1 + 1 && w1 * p <= total + p - 1
    ensures w * q <= total + q - 1
  {
    MulLeft(p, 2 * w, w1 + 1);
    assert w * q == p * (2 * w);
    assert p * (w1 + 1) == w1 * p + p;
  }

  /**
   * After `k` steps, a span of at most 2^k microseconds is narrowed to a
   * bracket at most one microsecond wide that still straddles the cutoff,
   * and the returned instant lies in it.
   */
  lemma CrossingPrecision(elev: Elevation, t0: int, t1: int, cutoff: real, k: nat)
    requires t0 <= t1 <= t0 + Pow2(k)
    requires Straddles(Bracket(t0, t1, elev(t0), elev(t1)), cutoff)
    ensures var r := Refine(elev, cutoff, Bracket(t0, t1, elev(t0), elev(t1)), k);
            && t0 <= r.lo <= r.hi <= r.lo + 1 && r.hi <= t1
            && Straddles(r, cutoff) && Sampled(elev, r)
            && r.lo <= CrossingAfter(elev, t0, t1, elev(t0), elev(t1), cutoff, k) <= r.hi
  {
    var b := Bracket(t0, t1, elev(t0), elev(t1));
    var r := Refine(elev, cutoff, b, k);
    RefineWidth(elev, cutoff, b, k);
    HalvingsBound(t1 - t0, k);
    NarrowBracket(Halvings(t1 - t0, k), t1 - t0, Pow2(k));
    RefineKeepsBracket(elev, cutoff, b, k);
  }

  // ---------------------------------------------------------------------
  // Sampling grid.
  // ---------------------------------------------------------------------

  ghost predicate Increasing(times: seq<int>)
  {
    forall i, j :: 0 <= i < j < |times| ==> times[i] < times[j]
  }

  /** The sample instants `start, start + step, ...` up to and including `end`. */
  function Grid(start: int, end: int, step: int): (g: seq<int>)
    requires step > 0
    ensures start <= end <==> g != []
    decreases end - start + step
  {
    if start > end then [] else [start] + Grid(start + step, end, step)
  }

  /**
   * The grid starts at `start`, stays within `[start, end]`, and stops at the
   * last sample before `end + step`.
   */
  lemma {:induction false} GridBounds(start: int, end: int, step: int)
    requires step > 0
    ensures var g := Grid(start, end, step);
            && (g != [] ==> g[0] == start && end < g[|g| - 1] + step)
            && (forall i :: 0 <= i < |g| ==> start <= g[i] <= end)
    decreases end - start + step
  {
    if start <= end {
      GridBounds(start + step, end, step);
    }
  }

  lemma {:induction false} GridIncreasing(start: int, end: int, step: int)
    requires step > 0
    ensures Increasing(Grid(start, end, step))
    decreases end - start + step
  {
    if start <= end {
      GridIncreasing(start + step, end, step);
      GridBounds(start + step, end, step);
    }
  }

  /** The `i`-th sample is `start + i * step`. */
  lemma {:induction false} GridSample(start: int, end: int, step: int, i: nat)
    requires step > 0 && i < |Grid(start, end, step)|
    ensures Grid(start, end, step)[i] == start + i * step
    decreases i
  {
    if i > 0 {
      GridSample(start + step, end, step, i - 1);
      assert (i - 1) * step + step == i * step;
    }
  }

  /** The `times` loop of `predict_passes`. */
  method SampleTimes(start: int, end: int, step: int) returns (times: seq<int>)
    requires step > 0
    ensures times == Grid(start, end, step)
  {
    times := [];
    var t := start;
    while t <= end
      invariant times + Grid(t, end, step) == Grid(start, end, step)
      decreases end - t
    {
      var rest := Grid(t + step, end, step);
      assert Grid(t, end, step) == [t] + rest;
      times := times + [t];
      t := t + step;
    }
  }

  // ---------------------------------------------------------------------
  // The scan.
  // ---------------------------------------------------------------------

  /** The loop variables of `predict_passes`. */
  datatype Scan = Scan(
    inPass: bool,
    passStart: Option<int>,
    maxElev: real,
    prevT: Option<int>,
    prevEl: Option<real>,
    passes: seq<PassWindow>)

  const Initial: Scan := Scan(false, None, NoPeak, None, None, [])

  /** One iteration of the scan loop, at the sample instant `curT`. */
  function Step(elev: Elevation, cutoff: real, minDurationS: int, s: Scan, curT: int): (r: Scan)
    requires s.prevT.Some? ==> s.prevT.value < curT
    ensures r.prevT == Some(curT) && r.prevEl == Some(elev(curT))
  {
    var curEl := elev(curT);
    var visited :=
      if s.prevT.Some? && s.prevEl.Some? then
        var prevT, prevEl := s.prevT.value, s.prevEl.value;
        var entered :=
          if !s.inPass && prevEl <= cutoff && curEl > cutoff then
            s.(inPass := true,
               passStart := Some(Crossing(elev, prevT, curT, prevEl, curEl, cutoff)),
               maxElev := curEl)
          else s;
        if !entered.inPass then entered
        else
          var peak := if curEl > entered.maxElev then curEl else entered.maxElev;
          if prevEl > cutoff && curEl <= cutoff then
            var refinedEnd := Crossing(elev, prevT, curT, prevEl, curEl, cutoff);
            var out :=
              if entered.passStart.Some? && refinedEnd - entered.passStart.value >= minDurationS * MicrosPerSecond then
                var dur := refinedEnd - entered.passStart.value;
                entered.passes + [PassWindow(entered.passStart.value, refinedEnd,
                                             DivideAndRound(dur, MicrosPerSecond), peak)]
              else entered.passes;
            entered.(inPass := false, passStart := None, maxElev := NoPeak, passes := out)
          else entered.(maxElev := peak)
      else s;
    visited.(prevT := Some(curT), prevEl := Some(curEl))
  }

  /** The loop state after scanning the first `n` sample instants of `times`. */
  function Run(elev: Elevation, cutoff: real, minDurationS: int, times: seq<int>, n: nat): (r: Scan)
    requires Increasing(times) && n <= |times|
    ensures n == 0 ==> r.prevT.None?
    ensures n > 0 ==> r.prevT == Some(times[n - 1])
  {
    if n == 0 then Initial
    else Step(elev, cutoff, minDurationS, Run(elev, cutoff, minDurationS, times, n - 1), times[n - 1])
  }

  /** The windows `predict_passes` returns for the sample instants `times`. */
  function Detect(elev: Elevation, cutoff: real, minDurationS: int, times: seq<int>): seq<PassWindow>
    requires Increasing(times)
  {
    Run(elev, cutoff, minDurationS, times, |times|).passes
  }

  /**
   * `predict_passes`: refuses an empty or reversed interval, then scans the
   * grid `start, start + step, ... <= end` and returns the windows found.
   */
  method PredictPasses(elev: Elevation, start: int, end: int, stepSeconds: int, cutoff: real, minDurationS: int)
    returns (r: Result<seq<PassWindow>, PredictionError>)
    requires start < end ==> stepSeconds > 0
    ensures start >= end ==> r == Failure(StartNotBeforeEnd)
    ensures start < end ==>
              Increasing(Grid(start, end, stepSeconds * MicrosPerSecond))
              && r == Success(Detect(elev, cutoff, minDurationS, Grid(start, end, stepSeconds * MicrosPerSecond)))
  {
    if start >= end {
      return Failure(StartNotBeforeEnd);
    }
    var step := stepSeconds * MicrosPerSecond;
    var times := SampleTimes(start, end, step);
    GridIncreasing(start, end, step);

    var passes: seq<PassWindow> := [];
    var inPass := false;
    var passStart: Option<int> := None;
    var maxElev := NoPeak;
    var prevT: Option<int> := None;
    var prevEl: Option<real> := None;

    for idx := 0 to |times|
      invariant Scan(inPass, passStart, maxElev, prevT, prevEl, passes)
                == Run(elev, cutoff, minDurationS, times, idx)
    {
      var curT := times[idx];
      var curEl := elev(curT);
      assert prevT.Some? ==> prevT.value == times[idx - 1] < curT;
      if prevT.Some? && prevEl.Some? {
        if !inPass && prevEl.value <= cutoff && curEl > cutoff {
          var refinedStart := BisectCrossing(elev, prevT.value, curT, prevEl.value, curEl, cutoff, DefaultIterations);
          inPass := true;
          passStart := Some(refinedStart);
          maxElev := curEl;
        }
        if inPass {
          if curEl > maxElev {
            maxElev := curEl;
          }
          if prevEl.value > cutoff && curEl <= cutoff {
            var refinedEnd := BisectCrossing(elev, prevT.value, curT, prevEl.value, curEl, cutoff, DefaultIterations);
            if passStart.Some? {
              var dur := refinedEnd - passStart.value;
              if dur >= minDurationS * MicrosPerSecond {
                passes := passes + [PassWindow(passStart.value, refinedEnd,
                                               DivideAndRound(dur, MicrosPerSecond), maxElev)];
              }
            }
            inPass := false;
            passStart := None;
            maxElev := NoPeak;
          }
        }
      }
      prevT := Some(curT);
      prevEl := Some(curEl);
    }
    return Success(passes);
  }

  // ---------------------------------------------------------------------
  // What the scan emits.
  // ---------------------------------------------------------------------

  /** Sample `a` is at or below the cutoff and sample `a + 1` above it. */
  predicate RiseAt(elev: Elevation, cutoff: real, times: seq<int>, a: nat)
    requires a + 1 < |times|
  {
    elev(times[a]) <= cutoff < elev(times[a + 1])
  }

  /** Sample `b - 1` is above the cutoff and sample `b` at or below it. */
  predicate SetAt(elev: Elevation, cutoff: real, times: seq<int>, b: nat)
    requires 0 < b < |times|
  {
    elev(times[b - 1]) > cutoff >= elev(times[b])
  }

  ghost predicate AboveBetween(elev: Elevation, cutoff: real, times: seq<int>, lo: nat, hi: nat)
    requires lo <= hi <= |times|
  {
    forall j :: lo <= j < hi ==> elev(times[j]) > cutoff
  }

  /** The refined crossing between samples `k` and `k + 1`. */
  ghost function CrossingAt(elev: Elevation, cutoff: real, times: seq<int>, k: nat): int
    requires Increasing(times) && k + 1 < |times|
  {
    Crossing(elev, times[k], times[k + 1], elev(times[k]), elev(times[k + 1]), cutoff)
  }

  /** The highest sampled elevation among samples `lo .. hi - 1`, as the running maximum finds it. */
  function PeakOver(elev: Elevation, times: seq<int>, lo: nat, hi: nat): (r: real)
    requires lo < hi <= |times|
    ensures forall j :: lo <= j < hi ==> elev(times[j]) <= r
    ensures exists j :: lo <= j < hi && r == elev(times[j])
    decreases hi
  {
    if hi == lo + 1 then elev(times[lo])
    else
      var m := PeakOver(elev, times, lo, hi - 1);
      var e := elev(times[hi - 1]);
      if e > m then e else m
  }

  /**
   * `w` is the window of the pass that rises between samples `a` and
   * `a + 1` and sets between samples `b - 1` and `b`, with every sample in
   * between above the cutoff, and that lasts at least `minDurationS`.
   */
  ghost predicate WindowFor(elev: Elevation, cutoff: real, minDurationS: int, times: seq<int>, a: nat, b: nat, w: PassWindow)
    requires Increasing(times)
  {
    && a + 1 < b < |times|
    && RiseAt(elev, cutoff, times, a)
    && SetAt(elev, cutoff, times, b)
    && AboveBetween(elev, cutoff, times, a + 1, b)
    && w.startTs == CrossingAt(elev, cutoff, times, a)
    && w.endTs == CrossingAt(elev, cutoff, times, b - 1)
    && w.endTs - w.startTs >= minDurationS * MicrosPerSecond
    && w.durationS == DivideAndRound(w.endTs - w.startTs, MicrosPerSecond)
    && w.maxElevDeg == PeakOver(elev, times, a + 1, b)
  }

  /** `w` is the window of a pass set no later than sample `i - 1`. */
  ghost predicate WindowBefore(elev: Elevation, cutoff: real, minDurationS: int, times: seq<int>, w: PassWindow, i: nat)
    requires Increasing(times)
  {
    exists a: nat, b: nat :: b < i && WindowFor(elev, cutoff, minDurationS, times, a, b, w)
  }

  /** Every window is the window of a pass set no later than sample `i - 1`. */
  ghost predicate AllWindows(elev: Elevation, cutoff: real, minDurationS: int, times: seq<int>, ws: seq<PassWindow>, i: nat)
    requires Increasing(times)
  {
    forall k :: 0 <= k < |ws| ==> WindowBefore(elev, cutoff, minDurationS, times, ws[k], i)
  }

  /** Each window ends no later than the next one starts. */
  ghost predicate Ordered(ws: seq<PassWindow>)
  {
    forall k :: 0 <= k < |ws| - 1 ==> ws[k].endTs <= ws[k + 1].startTs
  }

  /**
   * Window `k` rose in the sample gap `rises[k]` and set at sample
   * `sets[k] < i`: the witnesses the scan invariant carries along.
   */
  ghost predicate Witnessed(elev: Elevation, cutoff: real, minDurationS: int, times: seq<int>,
                            ws: seq<PassWindow>, rises: seq<nat>, sets: seq<nat>, i: nat)
    requires Increasing(times)
  {
    && |rises| == |ws| && |sets| == |ws|
    && forall k {:trigger sets[k]} :: 0 <= k < |ws| ==>
         sets[k] < i && WindowFor(elev, cutoff, minDurationS, times, rises[k], sets[k], ws[k])
  }

  /** The pass in progress rose between samples `a` and `a + 1`. */
  ghost predicate OpenAt(elev: Elevation, cutoff: real, times: seq<int>, i: nat, a: nat, s: Scan)
    requires Increasing(times) && i <= |times|
  {
    && a + 1 < i
    && RiseAt(elev, cutoff, times, a)
    && AboveBetween(elev, cutoff, times, a + 1, i)
    && s.passStart == Some(CrossingAt(elev, cutoff, times, a))
    && s.maxElev == PeakOver(elev, times, a + 1, i)
    && (s.passes != [] ==> s.passes[|s.passes| - 1].endTs <= times[a])
  }

  /** The state outside any pass after sample `i - 1`. */
  ghost predicate ClosedAt(times: seq<int>, i: nat, s: Scan)
    requires 1 <= i <= |times|
  {
    && s.passStart.None?
    && s.maxElev == NoPeak
    && (s.passes != [] ==> s.passes[|s.passes| - 1].endTs <= times[i - 1])
  }

  /** The loop invariant after the first `i` samples, with its witnesses. */
  ghost predicate ScanInv(elev: Elevation, cutoff: real, minDurationS: int, times: seq<int>, i: nat, s: Scan,
                          rises: seq<nat>, sets: seq<nat>, open: nat)
    requires Increasing(times) && 1 <= i <= |times|
  {
    && s.prevT == Some(times[i - 1])
    && s.prevEl == Some(elev(times[i - 1]))
    && Witnessed(elev, cutoff, minDurationS, times, s.passes, rises, sets, i)
    && Ordered(s.passes)
    && (s.inPass ==> OpenAt(elev, cutoff, times, i, open, s))
    && (!s.inPass ==> ClosedAt(times, i, s))
  }

  lemma WitnessedGrow(elev: Elevation, cutoff: real, minDurationS: int, times: seq<int>,
                      ws: seq<PassWindow>, rises: seq<nat>, sets: seq<nat>, i: nat)
    requires Increasing(times)
    requires Witnessed(elev, cutoff, minDurationS, times, ws, rises, sets, i)
    ensures Witnessed(elev, cutoff, minDurationS, times, ws, rises, sets, i + 1)
  {
  }

  lemma WitnessedAppend(elev: Elevation, cutoff: real, minDurationS: int, times: seq<int>,
                        ws: seq<PassWindow>, rises: seq<nat>, sets: seq<nat>, w: PassWindow, a: nat, b: nat, i: nat)
    requires Increasing(times)
    requires Witnessed(elev, cutoff, minDurationS, times, ws, rises, sets, i)
    requires b < i && WindowFor(elev, cutoff, minDurationS, times, a, b, w)
    ensures Witnessed(elev, cutoff, minDurationS, times, ws + [w], rises + [a], sets + [b], i)
  {
    var ws', rises', sets' := ws + [w], rises + [a], sets + [b];
    forall k | 0 <= k < |ws'|
      ensures sets'[k] < i && WindowFor(elev, cutoff, minDurationS, times, rises'[k], sets'[k], ws'[k])
    {
      if k < |ws| {
        assert ws'[k] == ws[k] && rises'[k] == rises[k] && sets'[k] == sets[k];
      }
    }
  }

  lemma OrderedAppend(ws: seq<PassWindow>, w: PassWindow)
    requires Ordered(ws)
    requires ws != [] ==> ws[|ws| - 1].endTs <= w.startTs
    ensures Ordered(ws + [w])
  {
  }

  /** One step inside a pass that does not set keeps the pass open and updates its peak. */
  lemma StepContinues(elev: Elevation, cutoff: real, minDurationS: int, s: Scan, curT: int)
    requires s.prevT.Some? && s.prevEl.Some? && s.prevT.value < curT && s.inPass
    requires !(s.prevEl.value > cutoff && elev(curT) <= cutoff)
    ensures Step(elev, cutoff, minDurationS, s, curT)
         == s.(maxElev := if elev(curT) > s.maxElev then elev(curT) else s.maxElev,
               prevT := Some(curT), prevEl := Some(elev(curT)))
  {
  }

  /**
   * One step inside a pass that sets closes it: the window from `st` to the
   * refined setting instant `en` is appended when it lasts long enough.
   */
  lemma StepCloses(elev: Elevation, cutoff: real, minDurationS: int, s: Scan, curT: int, st: int, en: int, peak: real)
    requires s.prevT.Some? && s.prevEl.Some? && s.prevT.value < curT && s.inPass
    requires s.prevEl.value > cutoff >= elev(curT)
    requires s.passStart == Some(st)
    requires en == Crossing(elev, s.prevT.value, curT, s.prevEl.value, elev(curT), cutoff)
    requires peak == if elev(curT) > s.maxElev then elev(curT) else s.maxElev
    ensures !Step(elev, cutoff, minDurationS, s, curT).inPass
    ensures Step(elev, cutoff, minDurationS, s, curT).passStart.None?
    ensures Step(elev, cutoff, minDurationS, s, curT).maxElev == NoPeak
    ensures Step(elev, cutoff, minDurationS, s, curT).passes
         == if en - st >= minDurationS * MicrosPerSecond
            then s.passes + [PassWindow(st, en, DivideAndRound(en - st, MicrosPerSecond), peak)]
            else s.passes
  {
  }

  /** The first sample only records itself. */
  lemma ScanFirst(elev: Elevation, cutoff: real, minDurationS: int, times: seq<int>)
    requires Increasing(times) && 1 <= |times|
    ensures ScanInv(elev, cutoff, minDurationS, times, 1,
                    Step(elev, cutoff, minDurationS, Initial, times[0]), [], [], 0)
  {
  }

  /** Not in a pass, and no rise between samples `i - 1` and `i`: nothing changes but the previous sample. */
  lemma ScanIdle(elev: Elevation, cutoff: real, minDurationS: int, times: seq<int>, i: nat, s: Scan,
                 rises: seq<nat>, sets: seq<nat>, open: nat)
    requires Increasing(times) && 1 <= i < |times|
    requires ScanInv(elev, cutoff, minDurationS, times, i, s, rises, sets, open)
    requires !s.inPass && !RiseAt(elev, cutoff, times, i - 1)
    ensures ScanInv(elev, cutoff, minDurationS, times, i + 1, Step(elev, cutoff, minDurationS, s, times[i]),
                    rises, sets, open)
  {
    var s' := Step(elev, cutoff, minDurationS, s, times[i]);
    assert s' == s.(prevT := Some(times[i]), prevEl := Some(elev(times[i])));
    WitnessedGrow(elev, cutoff, minDurationS, times, s.passes, rises, sets, i);
  }

  /** Not in a pass, and a rise between samples `i - 1` and `i`: a pass opens. */
  lemma ScanEnter(elev: Elevation, cutoff: real, minDurationS: int, times: seq<int>, i: nat, s: Scan,
                  rises: seq<nat>, sets: seq<nat>, open: nat)
    requires Increasing(times) && 1 <= i < |times|
    requires ScanInv(elev, cutoff, minDurationS, times, i, s, rises, sets, open)
    requires !s.inPass && RiseAt(elev, cutoff, times, i - 1)
    ensures ScanInv(elev, cutoff, minDurationS, times, i + 1, Step(elev, cutoff, minDurationS, s, times[i]),
                    rises, sets, i - 1)
  {
    var s' := Step(elev, cutoff, minDurationS, s, times[i]);
    assert s'.passes == s.passes && s'.inPass;
    assert s'.maxElev == elev(times[i]) == PeakOver(elev, times, i, i + 1);
    assert OpenAt(elev, cutoff, times, i + 1, i - 1, s');
    WitnessedGrow(elev, cutoff, minDurationS, times, s.passes, rises, sets, i);
  }

  /** In a pass and still above the cutoff: the running maximum takes in sample `i`. */
  lemma ScanStay(elev: Elevation, cutoff: real, minDurationS: int, times: seq<int>, i: nat, s: Scan,
                 rises: seq<nat>, sets: seq<nat>, open: nat)
    requires Increasing(times) && 1 <= i < |times|
    requires ScanInv(elev, cutoff, minDurationS, times, i, s, rises, sets, open)
    requires s.inPass && !SetAt(elev, cutoff, times, i)
    ensures ScanInv(elev, cutoff, minDurationS, times, i + 1, Step(elev, cutoff, minDurationS, s, times[i]),
                    rises, sets, open)
  {
    assert elev(times[i - 1]) > cutoff;
    StepContinues(elev, cutoff, minDurationS, s, times[i]);
    var s' := Step(elev, cutoff, minDurationS, s, times[i]);
    assert s'.maxElev == PeakOver(elev, times, open + 1, i + 1);
    assert OpenAt(elev, cutoff, times, i + 1, open, s');
    WitnessedGrow(elev, cutoff, minDurationS, times, s.passes, rises, sets, i);
  }

  /** The pass open since the rise at `a` that sets at `i` has the window `WindowFor` describes. */
  lemma ClosedWindow(elev: Elevation, cutoff: real, minDurationS: int, times: seq<int>, i: nat, a: nat, s: Scan)
    requires Increasing(times) && 1 <= i < |times|
    requires OpenAt(elev, cutoff, times, i, a, s) && SetAt(elev, cutoff, times, i)
    requires CrossingAt(elev, cutoff, times, i - 1) - CrossingAt(elev, cutoff, times, a) >= minDurationS * MicrosPerSecond
    ensures var st := CrossingAt(elev, cutoff, times, a);
            var en := CrossingAt(elev, cutoff, times, i - 1);
            WindowFor(elev, cutoff, minDurationS, times, a, i,
                      PassWindow(st, en, DivideAndRound(en - st, MicrosPerSecond), s.maxElev))
  {
  }

  /** In a pass that sets at sample `i` and lasts long enough: its window is appended. */
  lemma ScanCloseKeep(elev: Elevation, cutoff: real, minDurationS: int, times: seq<int>, i: nat, s: Scan,
                      rises: seq<nat>, sets: seq<nat>, open: nat)
    requires Increasing(times) && 1 <= i < |times|
    requires s.prevT == Some(times[i - 1]) && s.prevEl == Some(elev(times[i - 1]))
    requires Witnessed(elev, cutoff, minDurationS, times, s.passes, rises, sets, i) && Ordered(s.passes)
    requires OpenAt(elev, cutoff, times, i, open, s)
    requires s.inPass && SetAt(elev, cutoff, times, i)
    requires CrossingAt(elev, cutoff, times, i - 1) - CrossingAt(elev, cutoff, times, open) >= minDurationS * MicrosPerSecond
    ensures ScanInv(elev, cutoff, minDurationS, times, i + 1, Step(elev, cutoff, minDurationS, s, times[i]),
                    rises + [open], sets + [i], open)
  {
    var st := CrossingAt(elev, cutoff, times, open);
    var en := CrossingAt(elev, cutoff, times, i - 1);
    var w := PassWindow(st, en, DivideAndRound(en - st, MicrosPerSecond), s.maxElev);
    KeptPasses(elev, cutoff, minDurationS, times, i, s, rises, sets, open, w);
    StepCloses(elev, cutoff, minDurationS, s, times[i], st, en, s.maxElev);
    ClosedWith(elev, cutoff, minDurationS, times, i, Step(elev, cutoff, minDurationS, s, times[i]),
               s.passes, w, rises + [open], sets + [i], open);
  }

  /** The windows once the pass that sets at sample `i` is appended. */
  lemma KeptPasses(elev: Elevation, cutoff: real, minDurationS: int, times: seq<int>, i: nat, s: Scan,
                   rises: seq<nat>, sets: seq<nat>, open: nat, w: PassWindow)
    requires Increasing(times) && 1 <= i < |times|
    requires Witnessed(elev, cutoff, minDurationS, times, s.passes, rises, sets, i) && Ordered(s.passes)
    requires OpenAt(elev, cutoff, times, i, open, s) && SetAt(elev, cutoff, times, i)
    requires CrossingAt(elev, cutoff, times, i - 1) - CrossingAt(elev, cutoff, times, open) >= minDurationS * MicrosPerSecond
    requires var st := CrossingAt(elev, cutoff, times, open);
             var en := CrossingAt(elev, cutoff, times, i - 1);
             w == PassWindow(st, en, DivideAndRound(en - st, MicrosPerSecond), s.maxElev)
    ensures s.maxElev == if elev(times[i]) > s.maxElev then elev(times[i]) else s.maxElev
    ensures Witnessed(elev, cutoff, minDurationS, times, s.passes + [w], rises + [open], sets + [i], i + 1)
    ensures Ordered(s.passes + [w])
    ensures w.endTs <= times[i]
  {
    KeptWindow(elev, cutoff, minDurationS, times, i, s, open);
    WitnessedAppend(elev, cutoff, minDurationS, times, s.passes, rises, sets, w, open, i, i + 1);
    OrderedAppend(s.passes, w);
  }

  /** The window of a pass that sets at sample `i`, and where it sits. */
  lemma KeptWindow(elev: Elevation, cutoff: real, minDurationS: int, times: seq<int>, i: nat, s: Scan, open: nat)
    requires Increasing(times) && 1 <= i < |times|
    requires OpenAt(elev, cutoff, times, i, open, s) && SetAt(elev, cutoff, times, i)
    requires CrossingAt(elev, cutoff, times, i - 1) - CrossingAt(elev, cutoff, times, open) >= minDurationS * MicrosPerSecond
    ensures s.maxElev == if elev(times[i]) > s.maxElev then elev(times[i]) else s.maxElev
    ensures var st := CrossingAt(elev, cutoff, times, open);
            var en := CrossingAt(elev, cutoff, times, i - 1);
            && WindowFor(elev, cutoff, minDurationS, times, open, i,
                         PassWindow(st, en, DivideAndRound(en - st, MicrosPerSecond), s.maxElev))
            && (s.passes != [] ==> s.passes[|s.passes| - 1].endTs <= st)
            && en <= times[i]
  {
    assert s.maxElev >= elev(times[open + 1]) > cutoff >= elev(times[i]);
    ClosedWindow(elev, cutoff, minDurationS, times, i, open, s);
  }

  /** The invariant after sample `i` of a state outside any pass, whose windows are `ws`. */
  lemma ClosedWith(elev: Elevation, cutoff: real, minDurationS: int, times: seq<int>, i: nat, t: Scan,
                   ps: seq<PassWindow>, w: PassWindow, rises: seq<nat>, sets: seq<nat>, open: nat)
    requires Increasing(times) && 1 <= i < |times|
    requires t.prevT == Some(times[i]) && t.prevEl == Some(elev(times[i]))
    requires !t.inPass && t.passStart.None? && t.maxElev == NoPeak && t.passes == ps + [w]
    requires Witnessed(elev, cutoff, minDurationS, times, ps + [w], rises, sets, i + 1) && Ordered(ps + [w])
    requires w.endTs <= times[i]
    ensures ScanInv(elev, cutoff, minDurationS, times, i + 1, t, rises, sets, open)
  {
    assert t.passes[|t.passes| - 1] == w;
  }

  /** The invariant of a state outside any pass, from its parts. */
  lemma ClosedInv(elev: Elevation, cutoff: real, minDurationS: int, times: seq<int>, i: nat, s: Scan,
                  rises: seq<nat>, sets: seq<nat>, open: nat)
    requires Increasing(times) && 1 <= i <= |times|
    requires s.prevT == Some(times[i - 1]) && s.prevEl == Some(elev(times[i - 1]))
    requires Witnessed(elev, cutoff, minDurationS, times, s.passes, rises, sets, i) && Ordered(s.passes)
    requires !s.inPass && ClosedAt(times, i, s)
    ensures ScanInv(elev, cutoff, minDurationS, times, i, s, rises, sets, open)
  {
  }

  /** In a pass that sets at sample `i` but is too short: it is dropped. */
  lemma ScanCloseDrop(elev: Elevation, cutoff: real, minDurationS: int, times: seq<int>, i: nat, s: Scan,
                      rises: seq<nat>, sets: seq<nat>, open: nat)
    requires Increasing(times) && 1 <= i < |times|
    requires s.prevT == Some(times[i - 1]) && s.prevEl == Some(elev(times[i - 1]))
    requires Witnessed(elev, cutoff, minDurationS, times, s.passes, rises, sets, i) && Ordered(s.passes)
    requires OpenAt(elev, cutoff, times, i, open, s)
    requires s.inPass && SetAt(elev, cutoff, times, i)
    requires CrossingAt(elev, cutoff, times, i - 1) - CrossingAt(elev, cutoff, times, open) < minDurationS * MicrosPerSecond
    ensures ScanInv(elev, cutoff, minDurationS, times, i + 1, Step(elev, cutoff, minDurationS, s, times[i]),
                    rises, sets, open)
  {
    var st := CrossingAt(elev, cutoff, times, open);
    var en := CrossingAt(elev, cutoff, times, i - 1);
    assert times[open] <= times[i];
    assert s.maxElev >= elev(times[open + 1]) > cutoff >= elev(times[i]);
    StepCloses(elev, cutoff, minDurationS, s, times[i], st, en, s.maxElev);
    WitnessedGrow(elev, cutoff, minDurationS, times, s.passes, rises, sets, i);
    ClosedInv(elev, cutoff, minDurationS, times, i + 1, Step(elev, cutoff, minDurationS, s, times[i]),
              rises, sets, open);
  }

  /** One iteration of the scan keeps the invariant, whichever branch it takes. */
  lemma ScanStep(elev: Elevation, cutoff: real, minDurationS: int, times: seq<int>, i: nat,
                 rises: seq<nat>, sets: seq<nat>, open: nat)
    returns (rises': seq<nat>, sets': seq<nat>, open': nat)
    requires Increasing(times) && 1 <= i < |times|
    requires ScanInv(elev, cutoff, minDurationS, times, i, Run(elev, cutoff, minDurationS, times, i), rises, sets, open)
    ensures ScanInv(elev, cutoff, minDurationS, times, i + 1, Run(elev, cutoff, minDurationS, times, i + 1),
                    rises', sets', open')
  {
    var s := Run(elev, cutoff, minDurationS, times, i);
    assert Run(elev, cutoff, minDurationS, times, i + 1) == Step(elev, cutoff, minDurationS, s, times[i]);
    rises', sets', open' := ScanBranch(elev, cutoff, minDurationS, times, i, s, rises, sets, open);
  }

  /** The branch the loop body takes at sample `i` keeps the invariant. */
  lemma ScanBranch(elev: Elevation, cutoff: real, minDurationS: int, times: seq<int>, i: nat, s: Scan,
                   rises: seq<nat>, sets: seq<nat>, open: nat)
    returns (rises': seq<nat>, sets': seq<nat>, open': nat)
    requires Increasing(times) && 1 <= i < |times|
    requires ScanInv(elev, cutoff, minDurationS, times, i, s, rises, sets, open)
    ensures ScanInv(elev, cutoff, minDurationS, times, i + 1, Step(elev, cutoff, minDurationS, s, times[i]),
                    rises', sets', open')
  {
    rises', sets', open' := rises, sets, open;
    if s.inPass {
      if !SetAt(elev, cutoff, times, i) {
        ScanStay(elev, cutoff, minDurationS, times, i, s, rises, sets, open);
      } else if CrossingAt(elev, cutoff, times, i - 1) - CrossingAt(elev, cutoff, times, open)
                >= minDurationS * MicrosPerSecond {
        ScanCloseKeep(elev, cutoff, minDurationS, times, i, s, rises, sets, open);
        rises', sets' := rises + [open], sets + [i];
      } else {
        ScanCloseDrop(elev, cutoff, minDurationS, times, i, s, rises, sets, open);
      }
    } else if RiseAt(elev, cutoff, times, i - 1) {
      ScanEnter(elev, cutoff, minDurationS, times, i, s, rises, sets, open);
      open' := i - 1;
    } else {
      ScanIdle(elev, cutoff, minDurationS, times, i, s, rises, sets, open);
    }
  }

  /** The invariant holds after every prefix of the samples. */
  lemma {:induction false} RunInvariant(elev: Elevation, cutoff: real, minDurationS: int, times: seq<int>, i: nat)
    returns (rises: seq<nat>, sets: seq<nat>, open: nat)
    requires Increasing(times) && 1 <= i <= |times|
    ensures ScanInv(elev, cutoff, minDurationS, times, i, Run(elev, cutoff, minDurationS, times, i), rises, sets, open)
  {
    if i == 1 {
      assert Run(elev, cutoff, minDurationS, times, 1) == Step(elev, cutoff, minDurationS, Initial, times[0]);
      ScanFirst(elev, cutoff, minDurationS, times);
      rises, sets, open := [], [], 0;
    } else {
      rises, sets, open := RunInvariant(elev, cutoff, minDurationS, times, i - 1);
      rises, sets, open := ScanStep(elev, cutoff, minDurationS, times, i - 1, rises, sets, open);
    }
  }

  /**
   * Every window the scan returns is a complete pass (a rise and a set
   * between samples, all samples in between above the cutoff, long enough),
   * and the windows come in order without overlapping.  A pass still above
   * the cutoff at the last sample has no set index, so it is not returned.
   */
  lemma DetectWindows(elev: Elevation, cutoff: real, minDurationS: int, times: seq<int>)
    requires Increasing(times)
    ensures AllWindows(elev, cutoff, minDurationS, times, Detect(elev, cutoff, minDurationS, times), |times|)
    ensures Ordered(Detect(elev, cutoff, minDurationS, times))
  {
    if times != [] {
      var rises, sets, open := RunInvariant(elev, cutoff, minDurationS, times, |times|);
      var ws := Detect(elev, cutoff, minDurationS, times);
      forall k | 0 <= k < |ws|
        ensures WindowBefore(elev, cutoff, minDurationS, times, ws[k], |times|)
      {
        assert sets[k] < |times| && WindowFor(elev, cutoff, minDurationS, times, rises[k], sets[k], ws[k]);
      }
    }
  }

  /** The windows returned are in order. */
  lemma DetectOrdered(elev: Elevation, cutoff: real, minDurationS: int, times: seq<int>)
    requires Increasing(times)
    ensures Ordered(Detect(elev, cutoff, minDurationS, times))
  {
    DetectWindows(elev, cutoff, minDurationS, times);
  }

  /**
   * What a window of a pass carries: it starts in the rising sample gap and
   * ends in the setting one, lasts at least `minDurationS`, its duration is
   * the rounded length in seconds, and its peak is above the cutoff and at
   * least every sample taken during the pass.
   */
  lemma WindowFacts(elev: Elevation, cutoff: real, minDurationS: int, times: seq<int>, a: nat, b: nat, w: PassWindow)
    requires Increasing(times)
    requires WindowFor(elev, cutoff, minDurationS, times, a, b, w)
    ensures times[a] <= w.startTs <= times[a + 1] <= times[b - 1] <= w.endTs <= times[b]
    ensures w.endTs - w.startTs >= minDurationS * MicrosPerSecond
    ensures 2 * (w.endTs - w.startTs - MicrosPerSecond * w.durationS) <= MicrosPerSecond
    ensures 2 * (MicrosPerSecond * w.durationS - (w.endTs - w.startTs)) <= MicrosPerSecond
    ensures w.maxElevDeg > cutoff
    ensures forall j :: a < j < b ==> elev(times[j]) <= w.maxElevDeg
  {
    var j :| a + 1 <= j < b && w.maxElevDeg == elev(times[j]);
  }

  /**
   * The windows found on the grid of `[start, end]` lie within it, each
   * starting no later than it ends.
   */
  lemma DetectWithin(elev: Elevation, cutoff: real, minDurationS: int, start: int, end: int, step: int)
    requires step > 0
    ensures Increasing(Grid(start, end, step))
    ensures forall w :: w in Detect(elev, cutoff, minDurationS, Grid(start, end, step)) ==>
              start <= w.startTs <= w.endTs <= end
  {
    var times := Grid(start, end, step);
    GridIncreasing(start, end, step);
    GridBounds(start, end, step);
    DetectWindows(elev, cutoff, minDurationS, times);
    var ws := Detect(elev, cutoff, minDurationS, times);
    forall w | w in ws
      ensures start <= w.startTs <= w.endTs <= end
    {
      var k :| 0 <= k < |ws| && ws[k] == w;
      assert WindowBefore(elev, cutoff, minDurationS, times, ws[k], |times|);
      var a: nat, b: nat :| b < |times| && WindowFor(elev, cutoff, minDurationS, times, a, b, w);
      WindowFacts(elev, cutoff, minDurationS, times, a, b, w);
    }
  }

  // ---------------------------------------------------------------------
  // Every pass is emitted.
  // ---------------------------------------------------------------------

  /** A step only ever appends to the windows found so far. */
  lemma StepExtends(elev: Elevation, cutoff: real, minDurationS: int, s: Scan, curT: int)
    requires s.prevT.Some? ==> s.prevT.value < curT
    ensures s.passes <= Step(elev, cutoff, minDurationS, s, curT).passes
  {
  }

  /** The windows found after `i` samples begin the windows found after `j >= i`. */
  lemma {:induction false} RunExtends(elev: Elevation, cutoff: real, minDurationS: int, times: seq<int>, i: nat, j: nat)
    requires Increasing(times) && i <= j <= |times|
    ensures Run(elev, cutoff, minDurationS, times, i).passes <= Run(elev, cutoff, minDurationS, times, j).passes
    decreases j
  {
    if i < j {
      RunExtends(elev, cutoff, minDurationS, times, i, j - 1);
      StepExtends(elev, cutoff, minDurationS, Run(elev, cutoff, minDurationS, times, j - 1), times[j - 1]);
    }
  }

  /** Inside a pass the last sample is above the cutoff. */
  lemma OpenAbove(elev: Elevation, cutoff: real, minDurationS: int, times: seq<int>, i: nat, s: Scan,
                  rises: seq<nat>, sets: seq<nat>, open: nat)
    requires Increasing(times) && 1 <= i <= |times|
    requires ScanInv(elev, cutoff, minDurationS, times, i, s, rises, sets, open)
    ensures s.inPass ==> elev(times[i - 1]) > cutoff
  {
  }

  /** A window found after `i` samples is still there after `j >= i`. */
  lemma {:induction false} RunKeeps(elev: Elevation, cutoff: real, minDurationS: int, times: seq<int>,
                                    i: nat, j: nat, w: PassWindow)
    requires Increasing(times) && i <= j <= |times|
    requires w in Run(elev, cutoff, minDurationS, times, i).passes
    ensures w in Run(elev, cutoff, minDurationS, times, j).passes
    decreases j
  {
    if i < j {
      RunKeeps(elev, cutoff, minDurationS, times, i, j - 1, w);
      var s := Run(elev, cutoff, minDurationS, times, j - 1);
      StepExtends(elev, cutoff, minDurationS, s, times[j - 1]);
      PrefixMember(s.passes, Step(elev, cutoff, minDurationS, s, times[j - 1]).passes, w);
    }
  }

  /** After a sample at or below the cutoff the scan is outside any pass. */
  lemma ClosedAfterLow(elev: Elevation, cutoff: real, minDurationS: int, times: seq<int>, a: nat)
    requires Increasing(times) && a < |times|
    requires elev(times[a]) <= cutoff
    ensures !Run(elev, cutoff, minDurationS, times, a + 1).inPass
  {
    var rises, sets, open := RunInvariant(elev, cutoff, minDurationS, times, a + 1);
    OpenAbove(elev, cutoff, minDurationS, times, a + 1, Run(elev, cutoff, minDurationS, times, a + 1), rises, sets, open);
  }

  /**
   * After sample `i - 1` the scan is inside the pass that rose between
   * samples `a` and `a + 1`, with the running peak since, and has found
   * the windows `found`.
   */
  ghost predicate OpenSince(elev: Elevation, cutoff: real, times: seq<int>, a: nat, i: nat, s: Scan, found: seq<PassWindow>)
    requires Increasing(times) && a + 1 < i <= |times|
  {
    && s.inPass
    && s.passStart == Some(CrossingAt(elev, cutoff, times, a))
    && s.maxElev == PeakOver(elev, times, a + 1, i)
    && s.passes == found
    && s.prevT == Some(times[i - 1])
    && s.prevEl == Some(elev(times[i - 1]))
  }

  /** At a rise the scan opens a pass starting at the refined rising instant. */
  lemma EnterAtRise(elev: Elevation, cutoff: real, minDurationS: int, times: seq<int>, a: nat)
    requires Increasing(times) && a + 1 < |times|
    requires RiseAt(elev, cutoff, times, a)
    ensures OpenSince(elev, cutoff, times, a, a + 2, Run(elev, cutoff, minDurationS, times, a + 2),
                      Run(elev, cutoff, minDurationS, times, a + 1).passes)
  {
    ClosedAfterLow(elev, cutoff, minDurationS, times, a);
    var s := Run(elev, cutoff, minDurationS, times, a + 1);
    assert s == Step(elev, cutoff, minDurationS, Run(elev, cutoff, minDurationS, times, a), times[a]);
    assert s.prevEl == Some(elev(times[a]));
  }

  /** A sample above the cutoff inside a pass keeps it open and raises the running peak. */
  lemma KeepOpen(elev: Elevation, cutoff: real, minDurationS: int, times: seq<int>, a: nat, i: nat,
                 s: Scan, t: Scan, found: seq<PassWindow>)
    requires Increasing(times) && a + 2 <= i < |times|
    requires RiseAt(elev, cutoff, times, a) && AboveBetween(elev, cutoff, times, a + 1, i + 1)
    requires OpenSince(elev, cutoff, times, a, i, s, found)
    requires t == Step(elev, cutoff, minDurationS, s, times[i])
    ensures OpenSince(elev, cutoff, times, a, i + 1, t, found)
  {
    assert elev(times[i - 1]) > cutoff && elev(times[i]) > cutoff;
    StepContinues(elev, cutoff, minDurationS, s, times[i]);
  }

  /**
   * While every sample after the rise stays above the cutoff the pass stays
   * open, with the running maximum as its peak and no window appended.
   */
  lemma {:induction false} OpenThrough(elev: Elevation, cutoff: real, minDurationS: int, times: seq<int>, a: nat, i: nat)
    requires Increasing(times) && a + 2 <= i <= |times|
    requires RiseAt(elev, cutoff, times, a) && AboveBetween(elev, cutoff, times, a + 1, i)
    ensures OpenSince(elev, cutoff, times, a, i, Run(elev, cutoff, minDurationS, times, i),
                      Run(elev, cutoff, minDurationS, times, a + 1).passes)
    decreases i
  {
    if i == a + 2 {
      EnterAtRise(elev, cutoff, minDurationS, times, a);
    } else {
      OpenThrough(elev, cutoff, minDurationS, times, a, i - 1);
      KeepOpen(elev, cutoff, minDurationS, times, a, i - 1,
               Run(elev, cutoff, minDurationS, times, i - 1), Run(elev, cutoff, minDurationS, times, i),
               Run(elev, cutoff, minDurationS, times, a + 1).passes);
    }
  }

  /**
   * Completeness: the window of every complete pass that lasts long enough
   * is among the windows returned.
   */
  lemma DetectComplete(elev: Elevation, cutoff: real, minDurationS: int, times: seq<int>, a: nat, b: nat, w: PassWindow)
    requires Increasing(times)
    requires WindowFor(elev, cutoff, minDurationS, times, a, b, w)
    ensures w in Detect(elev, cutoff, minDurationS, times)
  {
    EmittedAtSet(elev, cutoff, minDurationS, times, a, b, w);
    RunKeeps(elev, cutoff, minDurationS, times, b + 1, |times|, w);
  }

  /** The window of a complete pass is among those found once its set sample is scanned. */
  lemma EmittedAtSet(elev: Elevation, cutoff: real, minDurationS: int, times: seq<int>, a: nat, b: nat, w: PassWindow)
    requires Increasing(times)
    requires WindowFor(elev, cutoff, minDurationS, times, a, b, w)
    ensures w in Run(elev, cutoff, minDurationS, times, b + 1).passes
  {
    OpenThrough(elev, cutoff, minDurationS, times, a, b);
    CloseAtSet(elev, cutoff, minDurationS, times, a, b, Run(elev, cutoff, minDurationS, times, b),
               Run(elev, cutoff, minDurationS, times, b + 1), Run(elev, cutoff, minDurationS, times, a + 1).passes, w);
  }

  /** At the set sample the open pass closes and its window is appended. */
  lemma CloseAtSet(elev: Elevation, cutoff: real, minDurationS: int, times: seq<int>, a: nat, b: nat,
                   s: Scan, t: Scan, found: seq<PassWindow>, w: PassWindow)
    requires Increasing(times)
    requires WindowFor(elev, cutoff, minDurationS, times, a, b, w)
    requires OpenSince(elev, cutoff, times, a, b, s, found)
    requires t == Step(elev, cutoff, minDurationS, s, times[b])
    ensures t.passes == found + [w]
    ensures w in t.passes
  {
    assert elev(times[a + 1]) <= s.maxElev;
    StepCloses(elev, cutoff, minDurationS, s, times[b], CrossingAt(elev, cutoff, times, a),
               CrossingAt(elev, cutoff, times, b - 1), PeakOver(elev, times, a + 1, b));
  }

  /** The windows returned are exactly the windows of the complete passes. */
  lemma DetectExactly(elev: Elevation, cutoff: real, minDurationS: int, times: seq<int>, w: PassWindow)
    requires Increasing(times)
    ensures w in Detect(elev, cutoff, minDurationS, times) <==>
            exists a: nat, b: nat :: WindowFor(elev, cutoff, minDurationS, times, a, b, w)
  {
    var ws := Detect(elev, cutoff, minDurationS, times);
    if w in ws {
      DetectWindows(elev, cutoff, minDurationS, times);
      var k :| 0 <= k < |ws| && ws[k] == w;
      assert WindowBefore(elev, cutoff, minDurationS, times, ws[k], |times|);
    }
    if exists a: nat, b: nat :: WindowFor(elev, cutoff, minDurationS, times, a, b, w) {
      var a: nat, b: nat :| WindowFor(elev, cutoff, minDurationS, times, a, b, w);
      DetectComplete(elev, cutoff, minDurationS, times, a, b, w);
    }
  }

  // ---------------------------------------------------------------------
  // One peak, one window.
  // ---------------------------------------------------------------------

  /** An elevation rising 1 degree every 10 s to 25 degrees at 500 s, then falling at the same rate. */
  function Triangle(t: int): real
  {
    var off := if t >= 500 * MicrosPerSecond then t - 500 * MicrosPerSecond else 500 * MicrosPerSecond - t;
    25.0 - off as real / 10000000.0
  }

  /** Eleven samples, 100 s apart from 0 s on. */
  ghost predicate HundredSecondSamples(times: seq<int>)
  {
    && Increasing(times)
    && |times| == 11
    && forall i :: 0 <= i < 11 ==> times[i] == i * (100 * MicrosPerSecond)
  }

  /** The triangle at a multiple of 100 s. */
  lemma TriangleAt(i: int)
    ensures Triangle(i * (100 * MicrosPerSecond)) == (if i <= 5 then 10 * i - 25 else 75 - 10 * i) as real
  {
  }

  lemma TriangleSample(times: seq<int>, i: nat)
    requires HundredSecondSamples(times) && i < 11
    ensures Triangle(times[i]) == (if i <= 5 then 10 * i - 25 else 75 - 10 * i) as real
  {
    TriangleAt(i);
  }

  /** The grid of `[0 s, 1000 s]` at a 100 s step is eleven samples 100 s apart. */
  lemma TriangleGrid()
    ensures HundredSecondSamples(Grid(0, 1000 * MicrosPerSecond, 100 * MicrosPerSecond))
  {
    var step := 100 * MicrosPerSecond;
    var times := Grid(0, 1000 * MicrosPerSecond, step);
    GridIncreasing(0, 1000 * MicrosPerSecond, step);
    GridBounds(0, 1000 * MicrosPerSecond, step);
    GridSample(0, 1000 * MicrosPerSecond, step, |times| - 1);
    forall i | 0 <= i < |times|
      ensures times[i] == i * step
    {
      GridSample(0, 1000 * MicrosPerSecond, step, i);
    }
  }

  /** On the triangle the pass rising between samples 2 and 3 and setting between samples 7 and 8 has a window. */
  lemma TriangleWindow(times: seq<int>) returns (w: PassWindow)
    requires HundredSecondSamples(times)
    ensures WindowFor(Triangle, 0.0, 5, times, 2, 8, w)
    ensures 200 * MicrosPerSecond <= w.startTs <= 300 * MicrosPerSecond
    ensures 700 * MicrosPerSecond <= w.endTs <= 800 * MicrosPerSecond
    ensures 400 <= w.durationS <= 600
    ensures w.maxElevDeg == 25.0
  {
    forall i | 2 <= i <= 8
      ensures Triangle(times[i]) == (if i <= 5 then 10 * i - 25 else 75 - 10 * i) as real
    {
      TriangleSample(times, i);
    }
    var st, en := CrossingAt(Triangle, 0.0, times, 2), CrossingAt(Triangle, 0.0, times, 7);
    w := PassWindow(st, en, DivideAndRound(en - st, MicrosPerSecond), PeakOver(Triangle, times, 3, 8));
    assert Triangle(times[5]) == 25.0;
  }

  /** On the triangle the only rise is between samples 2 and 3 and the only set between samples 7 and 8. */
  lemma TriangleOnlyPass(times: seq<int>, a: nat, b: nat, w: PassWindow)
    requires HundredSecondSamples(times)
    requires WindowFor(Triangle, 0.0, 5, times, a, b, w)
    ensures a == 2 && b == 8
  {
    TriangleSample(times, a);
    TriangleSample(times, a + 1);
    TriangleSample(times, b - 1);
    TriangleSample(times, b);
  }

  /** The rise and set samples determine the window. */
  lemma WindowDetermined(elev: Elevation, cutoff: real, minDurationS: int, times: seq<int>, a: nat, b: nat,
                         w: PassWindow, v: PassWindow)
    requires Increasing(times)
    requires WindowFor(elev, cutoff, minDurationS, times, a, b, w)
    requires WindowFor(elev, cutoff, minDurationS, times, a, b, v)
    ensures v == w
  {
  }

  /** On the triangle every window found is the one of the pass from sample 2 to sample 8. */
  lemma TriangleFoundIsThePass(times: seq<int>, w: PassWindow, v: PassWindow)
    requires HundredSecondSamples(times)
    requires WindowFor(Triangle, 0.0, 5, times, 2, 8, w)
    requires v in Detect(Triangle, 0.0, 5, times)
    ensures v == w
  {
    DetectExactly(Triangle, 0.0, 5, times, v);
    var a: nat, b: nat :| WindowFor(Triangle, 0.0, 5, times, a, b, v);
    TriangleOnlyPass(times, a, b, v);
    WindowDetermined(Triangle, 0.0, 5, times, 2, 8, w, v);
  }

  lemma TriangleSecondIsThePass(times: seq<int>, w: PassWindow)
    requires HundredSecondSamples(times)
    requires WindowFor(Triangle, 0.0, 5, times, 2, 8, w)
    ensures |Detect(Triangle, 0.0, 5, times)| >= 2 ==> Detect(Triangle, 0.0, 5, times)[1] == w
  {
    if |Detect(Triangle, 0.0, 5, times)| >= 2 {
      TriangleFoundIsThePass(times, w, Detect(Triangle, 0.0, 5, times)[1]);
    }
  }

  /** One window on any eleven samples 100 s apart. */
  lemma TriangleOneWindowOn(times: seq<int>)
    requires HundredSecondSamples(times)
    ensures var ws := Detect(Triangle, 0.0, 5, times);
            && |ws| == 1
            && 200 * MicrosPerSecond <= ws[0].startTs <= 300 * MicrosPerSecond
            && 700 * MicrosPerSecond <= ws[0].endTs <= 800 * MicrosPerSecond
            && 400 <= ws[0].durationS <= 600
            && ws[0].maxElevDeg == 25.0
  {
    var w := TriangleWindow(times);
    DetectComplete(Triangle, 0.0, 5, times, 2, 8, w);
    var ws := Detect(Triangle, 0.0, 5, times);
    TriangleFoundIsThePass(times, w, ws[0]);
    TriangleSecondIsThePass(times, w);
    DetectOrdered(Triangle, 0.0, 5, times);
  }

  /**
   * A single peak above the horizon gives exactly one window: scanning
   * `[0 s, 1000 s]` at a 100 s step finds one window, which starts between
   * 200 s and 300 s, ends between 700 s and 800 s, lasts 400 s to 600 s,
   * and peaks at 25 degrees.
   */
  lemma TriangleOneWindow()
    ensures var times := Grid(0, 1000 * MicrosPerSecond, 100 * MicrosPerSecond);
            && Increasing(times)
            && var ws := Detect(Triangle, 0.0, 5, times);
            && |ws| == 1
            && 200 * MicrosPerSecond <= ws[0].startTs <= 300 * MicrosPerSecond
            && 700 * MicrosPerSecond <= ws[0].endTs <= 800 * MicrosPerSecond
            && 400 <= ws[0].durationS <= 600
            && ws[0].maxElevDeg == 25.0
  {
    TriangleGrid();
    TriangleOneWindowOn(Grid(0, 1000 * MicrosPerSecond, 100 * MicrosPerSecond));
  }
}
