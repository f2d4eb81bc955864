/**
 * The chunked batch driver of the seven-day pass generator, for one
 * satellite and one ground station: the horizon `[start, end)` is cut into
 * chunks of `chunkHours` hours, each chunk is scanned with a ten-minute
 * margin clamped to the horizon, a window is kept only by the chunk that
 * owns its start, and kept windows are clipped to the horizon and dropped
 * when shorter than five (rounded) seconds.
 */
module BatchDriver {
  import opened Wrappers
  import opened TimeArith
  import opened SeqFacts
  import opened PassPrediction

  /** Microseconds in one hour. */
  const HourMicros: int := 3600 * MicrosPerSecond

  /** The margin added on both sides of a chunk before scanning it: ten minutes. */
  const MarginMicros: int := 10 * 60 * MicrosPerSecond

  /** The cutoff elevation and minimum duration the driver passes to the detector. */
  const ScanCutoff: real := 0.0
  const ScanMinDurationS: int := 5

  /** Rows shorter than this many rounded seconds are not stored. */
  const MinRowDurationS: int := 5

  /** A row of the `passes` table as the driver builds it. */
  datatype PassRow = PassRow(
    satelliteId: int,
    groundStationId: int,
    startTs: int,
    endTs: int,
    durationS: int,
    maxElevDeg: real)

  /** A chunk `[lo, hi)` of the horizon. */
  datatype Chunk = Chunk(lo: int, hi: int)

  function ChunkEnd(chunkStart: int, end: int, chunkHours: int): int
  {
    Min(chunkStart + chunkHours * HourMicros, end)
  }

  function ScanStart(start: int, chunkStart: int): int
  {
    Max(start, chunkStart - MarginMicros)
  }

  function ScanEnd(end: int, chunkEnd: int): int
  {
    Min(end, chunkEnd + MarginMicros)
  }

  /** The chunks the driver's `while` loop visits, from `chunkStart` on. */
  function Chunks(chunkStart: int, end: int, chunkHours: int): (cs: seq<Chunk>)
    requires chunkStart < end ==> chunkHours > 0
    ensures chunkStart < end <==> cs != []
    decreases end - chunkStart
  {
    if chunkStart >= end then []
    else [Chunk(chunkStart, ChunkEnd(chunkStart, end, chunkHours))]
         + Chunks(ChunkEnd(chunkStart, end, chunkHours), end, chunkHours)
  }

  /** The keep test: the chunk owns the window's start, or it is the first chunk and the window straddles `start`. */
  predicate Keeps(start: int, c: Chunk, w: PassWindow)
  {
    (c.lo <= w.startTs < c.hi) || (c.lo == start && w.startTs < start && w.endTs > start)
  }

  /**
   * The clip of a kept window: its part inside `[start, end]`, or nothing
   * when that part is empty or rounds to fewer than five seconds.
   */
  function ClipToHorizon(w: PassWindow, start: int, end: int, satId: int, gsId: int): (r: Option<PassRow>)
    ensures r.Some? ==>
              && r.value.startTs == Max(w.startTs, start)
              && r.value.endTs == Min(w.endTs, end)
              && start <= r.value.startTs < r.value.endTs <= end
              && r.value.durationS >= MinRowDurationS
              && r.value == PassRow(satId, gsId, r.value.startTs, r.value.endTs, r.value.durationS, w.maxElevDeg)
    ensures r.None? <==>
              Min(w.endTs, end) <= Max(w.startTs, start)
              || DivideAndRound(Min(w.endTs, end) - Max(w.startTs, start), MicrosPerSecond) < MinRowDurationS
  {
    var s := Max(w.startTs, start);
    var e := Min(w.endTs, end);
    if e <= s then None
    else
      var dur := DivideAndRound(e - s, MicrosPerSecond);
      if dur < MinRowDurationS then None
      else Some(PassRow(satId, gsId, s, e, dur, w.maxElevDeg))
  }

  /** Every row lies inside the horizon, is non-empty and lasts at least five rounded seconds. */
  ghost predicate RowsValid(rows: seq<PassRow>, start: int, end: int, satId: int, gsId: int)
  {
    forall k :: 0 <= k < |rows| ==>
      && rows[k].satelliteId == satId && rows[k].groundStationId == gsId
      && start <= rows[k].startTs < rows[k].endTs <= end
      && rows[k].durationS >= MinRowDurationS
      && 2 * (rows[k].endTs - rows[k].startTs - MicrosPerSecond * rows[k].durationS) <= MicrosPerSecond
      && 2 * (MicrosPerSecond * rows[k].durationS - (rows[k].endTs - rows[k].startTs)) <= MicrosPerSecond
  }

  /** The row a chunk stores for one window: none, or its clip when the chunk keeps it. */
  function KeptRow(start: int, end: int, c: Chunk, w: PassWindow, satId: int, gsId: int): (rows: seq<PassRow>)
    ensures |rows| <= 1
  {
    var clip := ClipToHorizon(w, start, end, satId, gsId);
    if Keeps(start, c, w) && clip.Some? then [clip.value] else []
  }

  /** The rows the inner `for` loop appends for the windows `ws` of chunk `c`. */
  function ChunkRows(start: int, end: int, c: Chunk, ws: seq<PassWindow>, satId: int, gsId: int): (rows: seq<PassRow>)
    ensures |rows| <= |ws|
  {
    if ws == [] then []
    else ChunkRows(start, end, c, ws[..|ws| - 1], satId, gsId) + KeptRow(start, end, c, ws[|ws| - 1], satId, gsId)
  }

  /** What `predict_passes` returns for the scan interval `[scanStart, scanEnd]`. */
  function Predicted(elev: Elevation, scanStart: int, scanEnd: int, stepSeconds: int): seq<PassWindow>
    requires stepSeconds > 0
  {
    GridIncreasing(scanStart, scanEnd, stepSeconds * MicrosPerSecond);
    Detect(elev, ScanCutoff, ScanMinDurationS, Grid(scanStart, scanEnd, stepSeconds * MicrosPerSecond))
  }

  /** The rows the driver stores for the chunks `cs`, chunk by chunk. */
  function RowsOf(elev: Elevation, start: int, end: int, stepSeconds: int, satId: int, gsId: int, cs: seq<Chunk>)
    : (rows: seq<PassRow>)
    requires cs != [] ==> stepSeconds > 0
  {
    if cs == [] then []
    else
      var c := cs[0];
      ChunkRows(start, end, c, Predicted(elev, ScanStart(start, c.lo), ScanEnd(end, c.hi), stepSeconds), satId, gsId)
      + RowsOf(elev, start, end, stepSeconds, satId, gsId, cs[1..])
  }

  /**
   * The per-station body of the driver: the `while` loop over chunks with
   * the nested `for` loop over the windows of each chunk.  `count` is
   * `station_pred`.  A negative `chunkHours` makes the first chunk end
   * before the horizon starts, so its scan interval is empty and
   * `predict_passes` rejects it.
   */
  method StationPasses(elev: Elevation, start: int, end: int, chunkHours: int, stepSeconds: int, satId: int, gsId: int)
    returns (r: Result<seq<PassRow>, PredictionError>, count: nat)
    requires start < end ==> chunkHours != 0 && stepSeconds > 0
    ensures start < end && chunkHours < 0 ==> r == Failure(StartNotBeforeEnd)
    ensures start >= end || chunkHours > 0 ==>
              r == Success(RowsOf(elev, start, end, stepSeconds, satId, gsId, Chunks(start, end, chunkHours)))
              && count == |r.value|
  {
    var chunkStart := start;
    count := 0;
    var rows := [];
    while chunkStart < end
      invariant chunkHours <= 0 ==> chunkStart == start && rows == []
      invariant start <= chunkStart || chunkStart >= end
      invariant count == |rows|
      invariant chunkHours > 0 ==>
                  rows + RowsOf(elev, start, end, stepSeconds, satId, gsId, Chunks(chunkStart, end, chunkHours))
                  == RowsOf(elev, start, end, stepSeconds, satId, gsId, Chunks(start, end, chunkHours))
      decreases end - chunkStart
    {
      var chunkEnd := ChunkEnd(chunkStart, end, chunkHours);
      // the scan is widened by the margin on both sides, clamped to the horizon
      var scanStart := ScanStart(start, chunkStart);
      var scanEnd := ScanEnd(end, chunkEnd);
      var c := Chunk(chunkStart, chunkEnd);
      ChunkScanNonEmpty(start, end, chunkStart, chunkHours);
      var predictedOrError := PredictPasses(elev, scanStart, scanEnd, stepSeconds, ScanCutoff, ScanMinDurationS);
      if predictedOrError.Failure? {
        r := Failure(predictedOrError.error);
        return;
      }
      var predicted := predictedOrError.value;
      ChunksUnfold(chunkStart, end, chunkHours);
      assert predicted == Predicted(elev, scanStart, scanEnd, stepSeconds);
      var before := rows;
      rows, count := KeepWindows(start, end, c, predicted, satId, gsId, rows, count);
      NextChunk(elev, start, end, chunkHours, stepSeconds, satId, gsId, chunkStart);
      Regroup(before, ChunkRows(start, end, c, predicted, satId, gsId),
              RowsOf(elev, start, end, stepSeconds, satId, gsId, Chunks(chunkEnd, end, chunkHours)));
      chunkStart := chunkEnd;
    }
    // with no positive chunk length the loop did not run and no chunk exists
    assert chunkHours <= 0 ==> rows == RowsOf(elev, start, end, stepSeconds, satId, gsId, Chunks(start, end, chunkHours));
    // otherwise no chunk is left after the last one
    assert chunkHours > 0 ==> rows == RowsOf(elev, start, end, stepSeconds, satId, gsId, Chunks(start, end, chunkHours));
    r := Success(rows);
  }

  /**
   * The `for` loop over the windows of one chunk: keep, clip, and append
   * the rows that survive, counting them.
   */
  method KeepWindows(start: int, end: int, c: Chunk, predicted: seq<PassWindow>, satId: int, gsId: int,
                     rows0: seq<PassRow>, count0: nat)
    returns (rows: seq<PassRow>, count: nat)
    requires count0 == |rows0|
    ensures rows == rows0 + ChunkRows(start, end, c, predicted, satId, gsId)
    ensures count == |rows|
  {
    rows, count := rows0, count0;
    ghost var added: seq<PassRow> := [];
    for j := 0 to |predicted|
      invariant count == |rows| && rows == rows0 + added
      invariant added == ChunkRows(start, end, c, predicted[..j], satId, gsId)
    {
      var p := predicted[j];
      ChunkRowsSnoc(start, end, c, predicted, satId, gsId, j);
      KeptRowCases(start, end, c, p, satId, gsId);
      var keep := c.lo <= p.startTs && p.startTs < c.hi;
      if c.lo == start && (p.startTs < start && p.endTs > start) {
        keep := true;
      }
      assert keep == Keeps(start, c, p);
      var kept: seq<PassRow> := [];
      if keep {
        var s := Max(p.startTs, start);
        var e := Min(p.endTs, end);
        if e > s {
          var dur := DivideAndRound(e - s, MicrosPerSecond);
          if dur >= MinRowDurationS {
            kept := [PassRow(satId, gsId, s, e, dur, p.maxElevDeg)];
            count := count + 1;
          }
        }
      }
      assert kept == KeptRow(start, end, c, p, satId, gsId);
      Regroup(rows0, added, kept);
      rows := rows + kept;
      added := added + kept;
    }
    assert predicted[..|predicted|] == predicted;
  }

  // ---------------------------------------------------------------------
  // Lemmas.
  // ---------------------------------------------------------------------

  /**
   * The scan interval of a chunk is non-empty exactly when chunks have a
   * positive length.  With a negative length the first chunk ends at least
   * an hour before `start`, so even widened by the margin its scan
   * interval is empty.
   */
  lemma ChunkScanNonEmpty(start: int, end: int, chunkStart: int, chunkHours: int)
    requires start <= chunkStart < end && chunkHours != 0
    requires chunkHours < 0 ==> chunkStart == start
    ensures ScanStart(start, chunkStart) < ScanEnd(end, ChunkEnd(chunkStart, end, chunkHours)) <==> chunkHours > 0
  {
  }

  /** The first chunk, and the chunks after it. */
  lemma ChunksUnfold(chunkStart: int, end: int, chunkHours: int)
    requires chunkHours > 0 && chunkStart < end
    ensures var ce := ChunkEnd(chunkStart, end, chunkHours);
            && chunkStart < ce <= end
            && Chunks(chunkStart, end, chunkHours) == [Chunk(chunkStart, ce)] + Chunks(ce, end, chunkHours)
  {
  }

  /** The row a chunk keeps for a window is inside the horizon and long enough. */
  lemma KeptRowValid(start: int, end: int, c: Chunk, w: PassWindow, satId: int, gsId: int)
    ensures RowsValid(KeptRow(start, end, c, w, satId, gsId), start, end, satId, gsId)
  {
  }

  lemma {:induction false} ChunkRowsValid(start: int, end: int, c: Chunk, ws: seq<PassWindow>, satId: int, gsId: int)
    ensures RowsValid(ChunkRows(start, end, c, ws, satId, gsId), start, end, satId, gsId)
    decreases |ws|
  {
    if ws != [] {
      ChunkRowsValid(start, end, c, ws[..|ws| - 1], satId, gsId);
      KeptRowValid(start, end, c, ws[|ws| - 1], satId, gsId);
      ValidAppend(ChunkRows(start, end, c, ws[..|ws| - 1], satId, gsId),
                  KeptRow(start, end, c, ws[|ws| - 1], satId, gsId), start, end, satId, gsId);
    }
  }

  /** Every row the driver stores is inside the horizon, non-empty, and at least five rounded seconds long. */
  lemma {:induction false} RowsOfValid(elev: Elevation, start: int, end: int, stepSeconds: int, satId: int, gsId: int,
                                       cs: seq<Chunk>)
    requires stepSeconds > 0
    ensures RowsValid(RowsOf(elev, start, end, stepSeconds, satId, gsId, cs), start, end, satId, gsId)
    decreases |cs|
  {
    if cs != [] {
      var c := cs[0];
      var ws := Predicted(elev, ScanStart(start, c.lo), ScanEnd(end, c.hi), stepSeconds);
      ChunkRowsValid(start, end, c, ws, satId, gsId);
      RowsOfValid(elev, start, end, stepSeconds, satId, gsId, cs[1..]);
      ValidAppend(ChunkRows(start, end, c, ws, satId, gsId),
                  RowsOf(elev, start, end, stepSeconds, satId, gsId, cs[1..]), start, end, satId, gsId);
    }
  }

  lemma ValidAppend(a: seq<PassRow>, b: seq<PassRow>, start: int, end: int, satId: int, gsId: int)
    requires RowsValid(a, start, end, satId, gsId) && RowsValid(b, start, end, satId, gsId)
    ensures RowsValid(a + b, start, end, satId, gsId)
  {
    forall k | 0 <= k < |a + b|
      ensures (a + b)[k] == if k < |a| then a[k] else b[k - |a|]
    {
    }
  }

  /** Moving on to the next chunk keeps "rows so far + rows still to come" equal to the whole result. */
  lemma NextChunk(elev: Elevation, start: int, end: int, chunkHours: int, stepSeconds: int, satId: int, gsId: int,
                  chunkStart: int)
    requires chunkHours > 0 && stepSeconds > 0 && chunkStart < end
    ensures var ce := ChunkEnd(chunkStart, end, chunkHours);
            RowsOf(elev, start, end, stepSeconds, satId, gsId, Chunks(chunkStart, end, chunkHours))
            == ChunkRows(start, end, Chunk(chunkStart, ce),
                         Predicted(elev, ScanStart(start, chunkStart), ScanEnd(end, ce), stepSeconds), satId, gsId)
               + RowsOf(elev, start, end, stepSeconds, satId, gsId, Chunks(ce, end, chunkHours))
  {
    ChunksUnfold(chunkStart, end, chunkHours);
    var ce := ChunkEnd(chunkStart, end, chunkHours);
    assert Chunks(chunkStart, end, chunkHours)[1..] == Chunks(ce, end, chunkHours);
  }

  /** One more window of the chunk adds at most its own row. */
  lemma ChunkRowsSnoc(start: int, end: int, c: Chunk, ws: seq<PassWindow>, satId: int, gsId: int, j: nat)
    requires j < |ws|
    ensures ChunkRows(start, end, c, ws[..j + 1], satId, gsId)
            == ChunkRows(start, end, c, ws[..j], satId, gsId) + KeptRow(start, end, c, ws[j], satId, gsId)
  {
    assert ws[..j + 1][..j] == ws[..j];
  }

  /** `KeptRow` by the branches of the loop body. */
  lemma KeptRowCases(start: int, end: int, c: Chunk, w: PassWindow, satId: int, gsId: int)
    ensures !Keeps(start, c, w) ==> KeptRow(start, end, c, w, satId, gsId) == []
    ensures Keeps(start, c, w) && Min(w.endTs, end) <= Max(w.startTs, start) ==> KeptRow(start, end, c, w, satId, gsId) == []
    ensures Keeps(start, c, w) && Min(w.endTs, end) > Max(w.startTs, start)
            && DivideAndRound(Min(w.endTs, end) - Max(w.startTs, start), MicrosPerSecond) < MinRowDurationS
            ==> KeptRow(start, end, c, w, satId, gsId) == []
    ensures Keeps(start, c, w) && Min(w.endTs, end) > Max(w.startTs, start)
            && DivideAndRound(Min(w.endTs, end) - Max(w.startTs, start), MicrosPerSecond) >= MinRowDurationS
            ==> KeptRow(start, end, c, w, satId, gsId)
                == [PassRow(satId, gsId, Max(w.startTs, start), Min(w.endTs, end),
                            DivideAndRound(Min(w.endTs, end) - Max(w.startTs, start), MicrosPerSecond), w.maxElevDeg)]
  {
  }

  /**
   * The chunks tile the horizon: the first starts at `chunkStart`, the last
   * ends at `end`, each is non-empty and at most `chunkHours` long, each
   * starts where the previous one ended, and so they come in ascending
   * order inside `[chunkStart, end]`.
   */
  lemma ChunksTile(chunkStart: int, end: int, chunkHours: int)
    requires chunkHours > 0 && chunkStart < end
    ensures var cs := Chunks(chunkStart, end, chunkHours);
            && cs[0].lo == chunkStart && cs[|cs| - 1].hi == end
            && (forall k :: 0 <= k < |cs| ==> cs[k].lo < cs[k].hi <= cs[k].lo + chunkHours * HourMicros)
            && (forall k :: 0 <= k < |cs| - 1 ==> cs[k].hi == cs[k + 1].lo)
            && (forall i, j :: 0 <= i < j < |cs| ==> cs[i].hi <= cs[j].lo)
            && (forall k :: 0 <= k < |cs| ==> chunkStart <= cs[k].lo && cs[k].hi <= end)
  {
    var cs := Chunks(chunkStart, end, chunkHours);
    ChunksContiguous(chunkStart, end, chunkHours);
    ContiguousAscending(cs);
  }

  lemma {:induction false} ChunksContiguous(chunkStart: int, end: int, chunkHours: int)
    requires chunkHours > 0 && chunkStart < end
    ensures var cs := Chunks(chunkStart, end, chunkHours);
            && cs[0].lo == chunkStart && cs[|cs| - 1].hi == end
            && (forall k :: 0 <= k < |cs| ==> cs[k].lo < cs[k].hi <= cs[k].lo + chunkHours * HourMicros)
            && (forall k :: 0 <= k < |cs| - 1 ==> cs[k].hi == cs[k + 1].lo)
    decreases end - chunkStart
  {
    var ce := ChunkEnd(chunkStart, end, chunkHours);
    ChunksUnfold(chunkStart, end, chunkHours);
    if ce < end {
      ChunksContiguous(ce, end, chunkHours);
      ConsContiguous(Chunk(chunkStart, ce), Chunks(ce, end, chunkHours), chunkHours * HourMicros);
    } else {
      assert Chunks(ce, end, chunkHours) == [];
    }
  }

  /** A chunk put in front of contiguous chunks that start where it ends. */
  lemma ConsContiguous(c: Chunk, rest: seq<Chunk>, width: int)
    requires c.lo < c.hi <= c.lo + width && rest != [] && rest[0].lo == c.hi
    requires forall k :: 0 <= k < |rest| ==> rest[k].lo < rest[k].hi <= rest[k].lo + width
    requires forall k :: 0 <= k < |rest| - 1 ==> rest[k].hi == rest[k + 1].lo
    ensures var cs := [c] + rest;
            && (forall k :: 0 <= k < |cs| ==> cs[k].lo < cs[k].hi <= cs[k].lo + width)
            && (forall k :: 0 <= k < |cs| - 1 ==> cs[k].hi == cs[k + 1].lo)
  {
    var cs := [c] + rest;
    forall k | 0 <= k < |cs| - 1
      ensures cs[k].hi == cs[k + 1].lo
    {
      assert cs[k + 1] == rest[k];
    }
  }

  /** Non-empty chunks, each starting where the previous one ended, are in ascending order. */
  lemma ContiguousAscending(cs: seq<Chunk>)
    requires cs != []
    requires forall k :: 0 <= k < |cs| ==> cs[k].lo < cs[k].hi
    requires forall k :: 0 <= k < |cs| - 1 ==> cs[k].hi == cs[k + 1].lo
    ensures forall i, j :: 0 <= i < j < |cs| ==> cs[i].hi <= cs[j].lo
    ensures forall k :: 0 <= k < |cs| ==> cs[0].lo <= cs[k].lo && cs[k].hi <= cs[|cs| - 1].hi
  {
    forall i, j | 0 <= i < j < |cs|
      ensures cs[i].hi <= cs[j].lo
    {
      AscendingFrom(cs, i, j);
    }
    forall k | 0 <= k < |cs|
      ensures cs[0].lo <= cs[k].lo && cs[k].hi <= cs[|cs| - 1].hi
    {
      if k > 0 {
        AscendingFrom(cs, 0, k);
      }
      if k < |cs| - 1 {
        AscendingFrom(cs, k, |cs| - 1);
      }
    }
  }

  lemma {:induction false} AscendingFrom(cs: seq<Chunk>, i: nat, j: nat)
    requires i < j < |cs|
    requires forall k :: 0 <= k < |cs| ==> cs[k].lo < cs[k].hi
    requires forall k :: 0 <= k < |cs| - 1 ==> cs[k].hi == cs[k + 1].lo
    ensures cs[i].hi <= cs[j].lo
    decreases j - i
  {
    if i + 1 < j {
      AscendingFrom(cs, i + 1, j);
    }
  }

  /** Each instant of the horizon lies in exactly one chunk. */
  lemma OwnedOnce(start: int, end: int, chunkHours: int, t: int)
    requires chunkHours > 0 && start <= t < end
    ensures var cs := Chunks(start, end, chunkHours);
            && (exists k :: 0 <= k < |cs| && cs[k].lo <= t < cs[k].hi)
            && (forall i, j :: 0 <= i < |cs| && 0 <= j < |cs| && cs[i].lo <= t < cs[i].hi && cs[j].lo <= t < cs[j].hi
                  ==> i == j)
  {
    var cs := Chunks(start, end, chunkHours);
    ChunksTile(start, end, chunkHours);
    var k := Covering(cs, start, end, t);
  }

  /** In contiguous chunks from `lo` to `hi`, the chunk covering `t`. */
  lemma {:induction false} Covering(cs: seq<Chunk>, lo: int, hi: int, t: int) returns (k: nat)
    requires cs != [] && cs[0].lo == lo && cs[|cs| - 1].hi == hi && lo <= t < hi
    requires forall i :: 0 <= i < |cs| - 1 ==> cs[i].hi == cs[i + 1].lo
    ensures k < |cs| && cs[k].lo <= t < cs[k].hi
    decreases |cs|
  {
    if t < cs[0].hi {
      k := 0;
    } else {
      var k1 := Covering(cs[1..], cs[1].lo, hi, t);
      k := k1 + 1;
    }
  }

  /**
   * The scan interval of a chunk contains the chunk and lies within the
   * horizon, so `predict_passes` is never called on an empty interval.
   */
  lemma ScanCoversChunk(start: int, end: int, c: Chunk)
    requires start <= c.lo < c.hi <= end
    ensures start <= ScanStart(start, c.lo) <= c.lo
    ensures c.hi <= ScanEnd(end, c.hi) <= end
    ensures ScanStart(start, c.lo) < ScanEnd(end, c.hi)
  {
  }

  /**
   * The straddle branch never keeps anything: the windows the detector
   * returns start no earlier than the scan, which starts no earlier than
   * `start`.  So a chunk keeps exactly the windows whose start it owns.
   */
  lemma StraddleNeverKeeps(elev: Elevation, start: int, end: int, stepSeconds: int, c: Chunk, w: PassWindow)
    requires stepSeconds > 0 && start <= c.lo
    requires w in Predicted(elev, ScanStart(start, c.lo), ScanEnd(end, c.hi), stepSeconds)
    ensures !(w.startTs < start && w.endTs > start)
    ensures Keeps(start, c, w) <==> c.lo <= w.startTs < c.hi
  {
    DetectWithin(elev, ScanCutoff, ScanMinDurationS, ScanStart(start, c.lo), ScanEnd(end, c.hi),
                 stepSeconds * MicrosPerSecond);
  }

  /**
   * A window that starts inside the horizon, or straddles its start, is
   * kept by exactly one chunk.
   */
  lemma KeptOnce(start: int, end: int, chunkHours: int, w: PassWindow)
    requires chunkHours > 0 && start < end
    requires start <= w.startTs < end || (w.startTs < start && w.endTs > start)
    ensures var cs := Chunks(start, end, chunkHours);
            && (exists k :: 0 <= k < |cs| && Keeps(start, cs[k], w))
            && (forall i, j :: 0 <= i < |cs| && 0 <= j < |cs| && Keeps(start, cs[i], w) && Keeps(start, cs[j], w)
                  ==> i == j)
  {
    var cs := Chunks(start, end, chunkHours);
    ChunksTile(start, end, chunkHours);
    if start <= w.startTs {
      OwnedOnce(start, end, chunkHours, w.startTs);
      forall i | 0 <= i < |cs| && Keeps(start, cs[i], w)
        ensures cs[i].lo <= w.startTs < cs[i].hi
      {
      }
    } else {
      assert Keeps(start, cs[0], w);
      forall i | 0 <= i < |cs| && Keeps(start, cs[i], w)
        ensures i == 0
      {
      }
    }
  }

  /** Clipping is the identity on a row already inside the horizon (and long enough). */
  lemma ClipInsideKeeps(w: PassWindow, start: int, end: int, satId: int, gsId: int)
    requires start <= w.startTs < w.endTs <= end
    requires DivideAndRound(w.endTs - w.startTs, MicrosPerSecond) >= MinRowDurationS
    ensures ClipToHorizon(w, start, end, satId, gsId)
            == Some(PassRow(satId, gsId, w.startTs, w.endTs, DivideAndRound(w.endTs - w.startTs, MicrosPerSecond), w.maxElevDeg))
  {
  }
}
