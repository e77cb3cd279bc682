/**
 * The focus-analytics engine: metrics over one batch of gaze samples (one student's
 * samples for an assignment, or all students' samples for it together), and the report
 * that combines them.
 *
 * Durations are integer microseconds (the exact value that
 * `timedelta.total_seconds()` approximates); the report converts them to seconds.
 */
module CronUtils {
  import opened Wrappers
  import opened Models
  import Sorting
  import Counting

  /** Default `grid_size` of `identify_focus_hotspots`. */
  const DefaultGridSize: int := 10
  /** Default `threshold` of `calculate_focus_transitions`. */
  const DefaultThreshold: real := 0.1

  function Timestamp(s: Sample): int { s.t }

  /** The batch is in ascending timestamp order. */
  ghost predicate TimeOrdered(data: seq<Sample>)
  {
    Sorting.SortedBy(data, Timestamp)
  }

  // ---------------------------------------------------------------- total duration

  /** Earliest timestamp of a non-empty batch. */
  function MinTime(data: seq<Sample>): (m: int)
    requires |data| > 0
    ensures exists i :: 0 <= i < |data| && data[i].t == m
    ensures forall i :: 0 <= i < |data| ==> m <= data[i].t
  {
    if |data| == 1 then data[0].t
    else
      var m := MinTime(data[1..]);
      assert forall i :: 1 <= i < |data| ==> data[i] == data[1..][i - 1];
      if data[0].t < m then data[0].t else m
  }

  /** Latest timestamp of a non-empty batch. */
  function MaxTime(data: seq<Sample>): (m: int)
    requires |data| > 0
    ensures exists i :: 0 <= i < |data| && data[i].t == m
    ensures forall i :: 0 <= i < |data| ==> data[i].t <= m
  {
    if |data| == 1 then data[0].t
    else
      var m := MaxTime(data[1..]);
      assert forall i :: 1 <= i < |data| ==> data[i] == data[1..][i - 1];
      if data[0].t > m then data[0].t else m
  }

  /** The time the batch covers: latest minus earliest timestamp, 0 below two samples. */
  function Span(data: seq<Sample>): (d: int)
    ensures d >= 0
  {
    if |data| < 2 then 0 else MaxTime(data) - MinTime(data)
  }

  /** Two batches holding the same samples have the same earliest and latest timestamps. */
  lemma SameSamplesSameBounds(a: seq<Sample>, b: seq<Sample>)
    requires multiset(a) == multiset(b) && |a| > 0
    ensures |b| == |a| && MinTime(a) == MinTime(b) && MaxTime(a) == MaxTime(b)
  {
    assert |multiset(a)| == |multiset(b)|;
    var i :| 0 <= i < |a| && a[i].t == MinTime(a);
    var j :| 0 <= j < |b| && b[j].t == MinTime(b);
    assert a[i] in multiset(b) && b[j] in multiset(a);
    var k :| 0 <= k < |a| && a[k].t == MaxTime(a);
    var l :| 0 <= l < |b| && b[l].t == MaxTime(b);
    assert a[k] in multiset(b) && b[l] in multiset(a);
  }

  /** In a time-ordered batch the first sample is the earliest and the last the latest. */
  lemma OrderedBounds(data: seq<Sample>)
    requires TimeOrdered(data) && |data| > 0
    ensures MinTime(data) == data[0].t && MaxTime(data) == data[|data| - 1].t
  {
  }

  /** `calculate_total_duration`: sorts a copy by timestamp and adds up the gaps between
      neighbours. The gaps telescope, so the result is the batch's span. */
  method TotalDuration(data: seq<Sample>) returns (total: int)
    ensures total == Span(data)
    ensures total >= 0
  {
    if |data| < 2 {
      return 0;
    }
    var sorted := Sorting.Sorted(data, Timestamp);
    total := 0;
    for i := 1 to |sorted|
      invariant total == sorted[i - 1].t - sorted[0].t
    {
      total := total + (sorted[i].t - sorted[i - 1].t);
    }
    SortedSpan(data, sorted);
  }

  /** The span of a batch is the last minus the first timestamp of its sorted copy. */
  lemma SortedSpan(data: seq<Sample>, sorted: seq<Sample>)
    requires |data| >= 2 && sorted == Sorting.Sorted(data, Timestamp)
    ensures |sorted| == |data|
    ensures Span(data) == sorted[|sorted| - 1].t - sorted[0].t
  {
    assert TimeOrdered(sorted) && multiset(sorted) == multiset(data);
    SameSamplesSameBounds(data, sorted);
    OrderedBounds(sorted);
  }

  /** The total duration does not depend on the order of the batch. */
  lemma DurationIgnoresOrder(a: seq<Sample>, b: seq<Sample>)
    requires multiset(a) == multiset(b)
    ensures Span(a) == Span(b)
  {
    assert |multiset(a)| == |multiset(b)|;
    if |a| > 0 {
      SameSamplesSameBounds(a, b);
    }
  }

  /** The total duration is 0 exactly when there are fewer than two samples or all
      timestamps are equal (duplicate timestamps add nothing). */
  lemma SpanZeroIff(data: seq<Sample>)
    ensures Span(data) == 0 <==> |data| < 2 || forall i :: 0 <= i < |data| ==> data[i].t == data[0].t
  {
  }

  // ---------------------------------------------------------------- distraction

  /** What an outside sample adds: the time since the sample before it in the batch. */
  function OutsideGap(previous: Sample, current: Sample): int
  {
    if current.outside then current.t - previous.t else 0
  }

  /** Distraction time of a batch in the order given: the gap before every outside
      sample that has a predecessor. */
  function Distraction(data: seq<Sample>): int
  {
    if |data| < 2 then 0
    else Distraction(data[..|data| - 1]) + OutsideGap(data[|data| - 2], data[|data| - 1])
  }

  /** `calculate_distraction_time`: one pass in the given order with a cursor on the
      previous timestamp, which every sample advances. */
  method DistractionTime(data: seq<Sample>) returns (distraction: int)
    ensures distraction == Distraction(data)
  {
    distraction := 0;
    var previousTime: Option<int> := None;
    for i := 0 to |data|
      invariant distraction == Distraction(data[..i])
      invariant previousTime == if i == 0 then None else Some(data[i - 1].t)
    {
      var entry := data[i];
      assert data[..i + 1][..i] == data[..i];
      if entry.outside {
        if previousTime.Some? {
          distraction := distraction + (entry.t - previousTime.value);
        }
      }
      previousTime := Some(entry.t);
    }
    assert data[..|data|] == data;
  }

  /** A batch without outside samples has no distraction time. */
  lemma {:induction false} NoOutsideNoDistraction(data: seq<Sample>)
    requires forall i :: 0 <= i < |data| ==> !data[i].outside
    ensures Distraction(data) == 0
  {
    if |data| >= 2 {
      NoOutsideNoDistraction(data[..|data| - 1]);
    }
  }

  /** On a time-ordered batch the distraction time lies between 0 and the time from
      the first to the last sample. */
  lemma {:induction false} OrderedDistractionBounds(data: seq<Sample>)
    requires TimeOrdered(data) && |data| > 0
    ensures 0 <= Distraction(data) <= data[|data| - 1].t - data[0].t
  {
    if |data| >= 2 {
      var p := data[..|data| - 1];
      OrderedDistractionBounds(p);
    }
  }

  /** On a time-ordered batch, distraction never exceeds the total duration. */
  lemma OrderedDistractionWithinDuration(data: seq<Sample>)
    requires TimeOrdered(data)
    ensures 0 <= Distraction(data) <= Span(data)
  {
    if |data| > 0 {
      OrderedDistractionBounds(data);
      OrderedBounds(data);
    }
  }

  // ---------------------------------------------------------------- focus time

  /** `calculate_focus_time`: the given total duration minus the distraction time,
      not clamped at 0. */
  method FocusTime(data: seq<Sample>, totalDuration: int) returns (focus: int)
    ensures focus + Distraction(data) == totalDuration
  {
    var distraction := DistractionTime(data);
    focus := totalDuration - distraction;
  }

  /** On a time-ordered batch the focus time lies between 0 and the total duration. */
  lemma OrderedFocusWithinDuration(data: seq<Sample>)
    requires TimeOrdered(data)
    ensures 0 <= Span(data) - Distraction(data) <= Span(data)
  {
    OrderedDistractionWithinDuration(data);
  }

  /** Out of order, distraction can exceed the duration and focus time goes negative:
      two outside samples each 10 s after a sample at time 0, span 10 s, distraction 20 s. */
  lemma UnorderedFocusCanBeNegative()
    ensures var data := [Sample(0.2, 0.2, false, 0), Sample(0.2, 0.2, true, 10_000_000),
                         Sample(0.2, 0.2, false, 0), Sample(0.2, 0.2, true, 10_000_000)];
            Span(data) - Distraction(data) == -10_000_000
  {
    var data := [Sample(0.2, 0.2, false, 0), Sample(0.2, 0.2, true, 10_000_000),
                 Sample(0.2, 0.2, false, 0), Sample(0.2, 0.2, true, 10_000_000)];
    assert data[..3][..2] == data[..2] && data[..2][..1] == data[..1];
    assert Distraction(data[..2]) == 10_000_000;
    assert Distraction(data[..3]) == 10_000_000;
    assert MinTime(data) == 0 && MaxTime(data) == 10_000_000;
  }

  // ---------------------------------------------------------------- quadrants

  /** Quadrant tests as written: x splits at 0.5 with 0.5 on the right, y splits at
      0.5 with 0.5 at the bottom. */
  predicate InTopLeft(s: Sample) { s.x < 0.5 && s.y > 0.5 }
  predicate InTopRight(s: Sample) { s.x >= 0.5 && s.y > 0.5 }
  predicate InBottomLeft(s: Sample) { s.x < 0.5 && s.y <= 0.5 }
  predicate InBottomRight(s: Sample) { s.x >= 0.5 && s.y <= 0.5 }

  /** `sum(1 for entry in data if p(entry))`. */
  function CountWhere(data: seq<Sample>, p: Sample -> bool): (n: nat)
    ensures n <= |data|
  {
    if data == [] then 0
    else CountWhere(data[..|data| - 1], p) + (if p(data[|data| - 1]) then 1 else 0)
  }

  /** The four quadrant tests split every batch: their counts add up to its size. */
  lemma {:induction false} QuadrantsPartition(data: seq<Sample>)
    ensures CountWhere(data, InTopLeft) + CountWhere(data, InTopRight)
          + CountWhere(data, InBottomLeft) + CountWhere(data, InBottomRight) == |data|
  {
    if data != [] {
      QuadrantsPartition(data[..|data| - 1]);
    }
  }

  datatype Distribution = Distribution(topLeft: real, topRight: real, bottomLeft: real, bottomRight: real)


  /** `share` is the fraction `count / n`. */
  ghost predicate IsShare(share: real, count: nat, n: nat)
  {
    n > 0 && share == count as real / n as real
  }

  /** `count / n` for `0 <= count <= n`. */
  function Share(count: nat, n: nat): (r: real)
    requires count <= n && n > 0
    ensures IsShare(r, count, n)
    ensures 0.0 <= r <= 1.0
  {
    FractionOfWhole(count as real, n as real);
    count as real / n as real
  }

  lemma FractionOfWhole(part: real, whole: real)
    requires 0.0 <= part <= whole && whole > 0.0
    ensures 0.0 <= part / whole <= 1.0
  {
  }

  /** Each field of `r` is the share of `data` in that quadrant. */
  ghost predicate QuadrantShares(r: Distribution, data: seq<Sample>)
  {
    && IsShare(r.topLeft, CountWhere(data, InTopLeft), |data|)
    && IsShare(r.topRight, CountWhere(data, InTopRight), |data|)
    && IsShare(r.bottomLeft, CountWhere(data, InBottomLeft), |data|)
    && IsShare(r.bottomRight, CountWhere(data, InBottomRight), |data|)
  }

  /** `calculate_focus_distribution`: the share of samples in each quadrant; all zero
      for an empty batch, otherwise shares in [0, 1] that add up to 1. */
  function FocusDistribution(data: seq<Sample>): (r: Distribution)
    ensures |data| == 0 ==> r == Distribution(0.0, 0.0, 0.0, 0.0)
    ensures |data| > 0 ==> QuadrantShares(r, data)
    ensures |data| > 0 ==> r.topLeft + r.topRight + r.bottomLeft + r.bottomRight == 1.0
  {
    if |data| == 0 then Distribution(0.0, 0.0, 0.0, 0.0)
    else
      var n := |data|;
      var tl, tr := CountWhere(data, InTopLeft), CountWhere(data, InTopRight);
      var bl, br := CountWhere(data, InBottomLeft), CountWhere(data, InBottomRight);
      QuadrantsPartition(data);
      var r := Distribution(Share(tl, n), Share(tr, n), Share(bl, n), Share(br, n));
      SharesOfPartition(r, tl, tr, bl, br, n);
      r
  }

  lemma SharesOfPartition(r: Distribution, tl: nat, tr: nat, bl: nat, br: nat, n: nat)
    requires n > 0 && tl + tr + bl + br == n
    requires IsShare(r.topLeft, tl, n) && IsShare(r.topRight, tr, n)
    requires IsShare(r.bottomLeft, bl, n) && IsShare(r.bottomRight, br, n)
    ensures r.topLeft + r.topRight + r.bottomLeft + r.bottomRight == 1.0
  {
    var a, b, c, d, m := tl as real, tr as real, bl as real, br as real, n as real;
    SumOfFractions(a, b, m);
    SumOfFractions(a + b, c, m);
    SumOfFractions(a + b + c, d, m);
    assert a + b + c + d == m;
    WholeFraction(m);
  }

  lemma WholeFraction(m: real)
    requires m > 0.0
    ensures m / m == 1.0
  {
  }

  lemma SumOfFractions(a: real, b: real, n: real)
    requires n > 0.0
    ensures a / n + b / n == (a + b) / n
  {
  }

  // ---------------------------------------------------------------- hotspot

  /** Python's `int(r)`: truncation toward zero. */
  function Trunc(r: real): (i: int)
    ensures r >= 0.0 ==> 0 <= i && i as real <= r < i as real + 1.0
    ensures r < 0.0 ==> i <= 0 && i as real - 1.0 < r <= i as real
  {
    if r >= 0.0 then r.Floor else -((-r).Floor)
  }

  type Cell = (int, int)

  /** The grid cell of a sample: `(int(x * grid_size), int(y * grid_size))`. */
  function CellOf(s: Sample, gridSize: int): Cell
  {
    (Trunc(s.x * gridSize as real), Trunc(s.y * gridSize as real))
  }

  function Cells(data: seq<Sample>, gridSize: int): (cells: seq<Cell>)
    ensures |cells| == |data|
    ensures forall i :: 0 <= i < |data| ==> cells[i] == CellOf(data[i], gridSize)
  {
    if data == [] then []
    else Cells(data[..|data| - 1], gridSize) + [CellOf(data[|data| - 1], gridSize)]
  }

  datatype Hotspot = Hotspot(cell: Cell, intensity: nat, totalPoints: nat, ratio: real)

  /** `h` reports a cell holding the most samples, the first such cell in order of first
      appearance when several tie, out of a batch of `cells.` */
  ghost predicate IsHotspot(h: Hotspot, cells: seq<Cell>)
  {
    && h.totalPoints == |cells|
    && 1 <= h.intensity <= |cells|
    && h.ratio == h.intensity as real / |cells| as real
    && h.cell in cells
    && h.intensity == Counting.Occurrences(cells, h.cell)
    && (forall c :: c in cells ==> Counting.Occurrences(cells, c) <= h.intensity)
    && (forall i :: 0 <= i < |cells| && Counting.Occurrences(cells, cells[i]) == h.intensity
                    ==> Counting.FirstIndex(cells, h.cell) <= i)
  }

  /** `identify_focus_hotspots`: `None` for an empty batch; otherwise the cell holding the
      most samples, the first such cell in order of first appearance when several tie. */
  function IdentifyHotspot(data: seq<Sample>, gridSize: int): (r: Option<Hotspot>)
    ensures r.None? <==> |data| == 0
    ensures r.Some? ==> IsHotspot(r.value, Cells(data, gridSize))
  {
    if |data| == 0 then None
    else
      var cells := Cells(data, gridSize);
      var (hotspot, count) := Counting.MostCommon(cells);
      Some(Hotspot(hotspot, count, |data|, count as real / |data| as real))
  }

  /** A batch whose samples all fall in one cell has that cell as hotspot, holding every sample. */
  lemma UniformBatchHotspot(data: seq<Sample>, gridSize: int)
    requires |data| > 0
    requires forall i :: 0 <= i < |data| ==> CellOf(data[i], gridSize) == CellOf(data[0], gridSize)
    ensures IdentifyHotspot(data, gridSize) == Some(Hotspot(CellOf(data[0], gridSize), |data|, |data|, 1.0))
  {
    var cells := Cells(data, gridSize);
    UniformMostCommon(cells, CellOf(data[0], gridSize));
    WholeFraction(|data| as real);
  }

  lemma UniformMostCommon(cells: seq<Cell>, c: Cell)
    requires |cells| > 0
    requires forall i :: 0 <= i < |cells| ==> cells[i] == c
    ensures Counting.MostCommon(cells) == (c, |cells|)
  {
    AllSameOccurrences(cells, c);
    var k :| 0 <= k < |cells| && cells[k] == Counting.MostCommon(cells).0;
  }

  lemma {:induction false} AllSameOccurrences(cells: seq<Cell>, c: Cell)
    requires forall i :: 0 <= i < |cells| ==> cells[i] == c
    ensures Counting.Occurrences(cells, c) == |cells|
  {
    if cells != [] {
      AllSameOccurrences(cells[..|cells| - 1], c);
    }
  }

  // ---------------------------------------------------------------- transitions

  function Abs(r: real): real { if r < 0.0 then -r else r }

  /** A move from `previous` to `current` counts when either coordinate changes by more
      than the threshold. */
  predicate Jump(previous: Sample, current: Sample, threshold: real)
  {
    Abs(current.x - previous.x) > threshold || Abs(current.y - previous.y) > threshold
  }

  /** Number of consecutive pairs of the batch, in the order given, that jump. */
  function Transitions(data: seq<Sample>, threshold: real): nat
  {
    if |data| < 2 then 0
    else Transitions(data[..|data| - 1], threshold) + (if Jump(data[|data| - 2], data[|data| - 1], threshold) then 1 else 0)
  }

  /** `calculate_focus_transitions`: a pass in the given order comparing each sample
      with the one just before it. */
  method CountTransitions(data: seq<Sample>, threshold: real) returns (transitions: nat)
    ensures transitions == Transitions(data, threshold)
  {
    if |data| < 2 {
      return 0;
    }
    transitions := 0;
    var previousX, previousY := data[0].x, data[0].y;
    for i := 1 to |data|
      invariant transitions == Transitions(data[..i], threshold)
      invariant previousX == data[i - 1].x && previousY == data[i - 1].y
    {
      var entry := data[i];
      assert data[..i + 1][..i] == data[..i];
      if Abs(entry.x - previousX) > threshold || Abs(entry.y - previousY) > threshold {
        transitions := transitions + 1;
      }
      previousX, previousY := entry.x, entry.y;
    }
    assert data[..|data|] == data;
  }

  /** At most one transition per step: below `|data| - 1` unless every step jumps. */
  lemma {:induction false} TransitionsBound(data: seq<Sample>, threshold: real)
    requires |data| > 0
    ensures Transitions(data, threshold) <= |data| - 1
    ensures Transitions(data, threshold) == |data| - 1
            <==> forall i :: 1 <= i < |data| ==> Jump(data[i - 1], data[i], threshold)
  {
    if |data| >= 2 {
      var p := data[..|data| - 1];
      TransitionsBound(p, threshold);
      assert forall i :: 0 <= i < |p| ==> p[i] == data[i];
    }
  }

  /** No transitions exactly when no step jumps. */
  lemma {:induction false} TransitionsZeroIff(data: seq<Sample>, threshold: real)
    ensures Transitions(data, threshold) == 0
            <==> forall i :: 1 <= i < |data| ==> !Jump(data[i - 1], data[i], threshold)
  {
    if |data| >= 2 {
      var p := data[..|data| - 1];
      TransitionsZeroIff(p, threshold);
      assert forall i :: 0 <= i < |p| ==> p[i] == data[i];
    }
  }

  /** Transitions read only the coordinates: shifting timestamps or changing the outside
      flags leaves the count alone. */
  lemma {:induction false} TransitionsIgnoreTime(a: seq<Sample>, b: seq<Sample>, threshold: real)
    requires |a| == |b|
    requires forall i :: 0 <= i < |a| ==> a[i].x == b[i].x && a[i].y == b[i].y
    ensures Transitions(a, threshold) == Transitions(b, threshold)
  {
    if |a| >= 2 {
      TransitionsIgnoreTime(a[..|a| - 1], b[..|b| - 1], threshold);
    }
  }

  // ---------------------------------------------------------------- summary

  datatype Quadrant = TopLeft | TopRight | BottomLeft | BottomRight

  /** One line of the summary text, with its numbers unformatted. */
  datatype Line =
    | TotalLine(seconds: real)
    | FocusLine(seconds: real, percent: real)
    | DistractionLine(seconds: real, percent: real)
    | DistributionHeader
    | QuadrantLine(quadrant: Quadrant, percent: real)
    | HotspotLine(cell: Cell, points: nat, percent: real)
    | TransitionsLine(count: nat)

  /** Microseconds to seconds, as `timedelta.total_seconds()` does. */
  function Seconds(ticks: int): real
  {
    ticks as real / 1_000_000.0
  }

  /** `(part / whole) * 100`. */
  function Percent(part: real, whole: real): real
    requires whole != 0.0
  {
    part / whole * 100.0
  }

  lemma PercentsOfSplit(a: real, b: real, whole: real)
    requires whole != 0.0 && a + b == whole
    ensures Percent(a, whole) + Percent(b, whole) == 100.0
  {
    assert a / whole + b / whole == (a + b) / whole;
  }

  lemma SecondsOfSplit(a: int, b: int, whole: int)
    requires whole != 0 && a + b == whole
    ensures Seconds(whole) != 0.0 && Seconds(a) + Seconds(b) == Seconds(whole)
  {
  }

  lemma QuadrantPercents(d: Distribution)
    requires d.topLeft + d.topRight + d.bottomLeft + d.bottomRight == 1.0
    ensures d.topLeft * 100.0 + d.topRight * 100.0 + d.bottomLeft * 100.0 + d.bottomRight * 100.0 == 100.0
  {
  }

  /** The summary lines for metrics whose total duration is not 0: the lines of the
      `try` block, the hotspot line when there is a hotspot, the transitions line last. */
  function Narrative(total: real, focus: real, distraction: real, distribution: Distribution,
                     hotspots: Option<Hotspot>, transitions: nat): (lines: seq<Line>)
    requires total != 0.0
    ensures |lines| == if hotspots.Some? then 10 else 9
    ensures lines[1].FocusLine? && lines[2].DistractionLine?
    ensures lines[4].QuadrantLine? && lines[5].QuadrantLine? && lines[6].QuadrantLine? && lines[7].QuadrantLine?
  {
    [ TotalLine(total),
      FocusLine(focus, Percent(focus, total)),
      DistractionLine(distraction, Percent(distraction, total)),
      DistributionHeader,
      QuadrantLine(TopLeft, distribution.topLeft * 100.0),
      QuadrantLine(TopRight, distribution.topRight * 100.0),
      QuadrantLine(BottomLeft, distribution.bottomLeft * 100.0),
      QuadrantLine(BottomRight, distribution.bottomRight * 100.0) ]
    + (if hotspots.Some? then [HotspotLine(hotspots.value.cell, hotspots.value.intensity, hotspots.value.ratio * 100.0)] else [])
    + [TransitionsLine(transitions)]
  }

  /** The six metrics `summarize_focus_behavior` computes, durations in microseconds. */
  datatype Metrics = Metrics(total: int, distraction: int, distribution: Distribution,
                             hotspots: Option<Hotspot>, transitions: nat)

  /** The metrics of a batch, in terms of the metric definitions above. */
  ghost function MetricsOf(data: seq<Sample>): Metrics
  {
    Metrics(Span(data), Distraction(data), FocusDistribution(data),
            IdentifyHotspot(data, DefaultGridSize), Transitions(data, DefaultThreshold))
  }

  /** The summary of a set of metrics: none when the total duration is 0 (the percentages
      divide by it), otherwise the narrative lines with the focus time as total minus
      distraction. */
  function Summary(m: Metrics): (r: Option<seq<Line>>)
    ensures r.None? <==> m.total == 0
  {
    if m.total == 0 then None
    else Some(Narrative(Seconds(m.total), Seconds(m.total - m.distraction), Seconds(m.distraction),
                        m.distribution, m.hotspots, m.transitions))
  }

  /** The report of a batch. */
  ghost function Report(data: seq<Sample>): Option<seq<Line>>
  {
    Summary(MetricsOf(data))
  }

  /** The text-building part of `summarize_focus_behavior` once the percentages can be
      computed: the `try` block's lines, `+=` the hotspot line when there is a hotspot,
      `+=` the transitions line. */
  method BuildSummary(total: real, focus: real, distraction: real, distribution: Distribution,
                      hotspots: Option<Hotspot>, transitions: nat) returns (lines: seq<Line>)
    requires total != 0.0
    ensures lines == Narrative(total, focus, distraction, distribution, hotspots, transitions)
  {
    lines := [
      TotalLine(total),
      FocusLine(focus, Percent(focus, total)),
      DistractionLine(distraction, Percent(distraction, total)),
      DistributionHeader,
      QuadrantLine(TopLeft, distribution.topLeft * 100.0),
      QuadrantLine(TopRight, distribution.topRight * 100.0),
      QuadrantLine(BottomLeft, distribution.bottomLeft * 100.0),
      QuadrantLine(BottomRight, distribution.bottomRight * 100.0)
    ];
    if hotspots.Some? {
      var h := hotspots.value;
      lines := lines + [HotspotLine(h.cell, h.intensity, h.ratio * 100.0)];
    }
    lines := lines + [TransitionsLine(transitions)];
  }

  /** The summary lines, with the focus time given separately. */
  lemma SummaryWithFocus(m: Metrics, focus: int)
    requires m.total != 0 && focus == m.total - m.distraction
    ensures Summary(m) == Some(Narrative(Seconds(m.total), Seconds(focus), Seconds(m.distraction),
                                         m.distribution, m.hotspots, m.transitions))
  {
  }

  /** `summarize_focus_behavior`: computes every metric, then gives up (`None`) when the
      division by the total duration fails, and otherwise builds the summary lines. */
  method SummarizeFocusBehavior(data: seq<Sample>) returns (summary: Option<seq<Line>>)
    ensures summary == Report(data)
  {
    var totalDuration := TotalDuration(data);
    var distractionTime := DistractionTime(data);
    var focusTime := FocusTime(data, totalDuration);
    var distribution := FocusDistribution(data);
    var hotspots := IdentifyHotspot(data, DefaultGridSize);
    var transitions := CountTransitions(data, DefaultThreshold);

    ghost var metrics := Metrics(totalDuration, distractionTime, distribution, hotspots, transitions);
    assert metrics == MetricsOf(data);
    if totalDuration == 0 {
      // ZeroDivisionError in the percentages: the error is logged and no summary made.
      return None;
    }
    var lines := BuildSummary(Seconds(totalDuration), Seconds(focusTime), Seconds(distractionTime),
                              distribution, hotspots, transitions);
    SummaryWithFocus(metrics, focusTime);
    return Some(lines);
  }

  /** There is no report exactly when the batch has fewer than two samples or all its
      timestamps are equal. */
  lemma NoReportIff(data: seq<Sample>)
    ensures Report(data).None? <==> |data| < 2 || forall i :: 0 <= i < |data| ==> data[i].t == data[0].t
  {
    SpanZeroIff(data);
  }

  /** The lines of a summary: the total duration first, the hotspot line (when there is
      a hotspot) before the transitions line, which comes last. */
  lemma SummaryShape(m: Metrics)
    requires m.total != 0
    ensures var lines := Summary(m).value;
      && |lines| == (if m.hotspots.Some? then 10 else 9)
      && lines[0] == TotalLine(Seconds(m.total))
      && lines[|lines| - 1] == TransitionsLine(m.transitions)
      && (m.hotspots.Some? ==> lines[8] == HotspotLine(m.hotspots.value.cell, m.hotspots.value.intensity,
                                                       m.hotspots.value.ratio * 100.0))
  {
  }

  /** In a summary the focus and distraction percentages add up to 100, and so do the four
      quadrant percentages when the quadrant shares add up to 1. */
  lemma SummaryPercents(m: Metrics)
    requires m.total != 0
    requires m.distribution.topLeft + m.distribution.topRight + m.distribution.bottomLeft
           + m.distribution.bottomRight == 1.0
    ensures var lines := Summary(m).value;
      && lines[1].percent + lines[2].percent == 100.0
      && lines[4].percent + lines[5].percent + lines[6].percent + lines[7].percent == 100.0
  {
    SecondsOfSplit(m.total - m.distraction, m.distraction, m.total);
    PercentsOfSplit(Seconds(m.total - m.distraction), Seconds(m.distraction), Seconds(m.total));
    QuadrantPercents(m.distribution);
  }

  /** When the distraction lies within the total duration, the focus percentage of the
      summary lies in [0, 100]. */
  lemma SummaryFocusPercent(m: Metrics)
    requires 0 <= m.distraction <= m.total && m.total != 0
    ensures 0.0 <= Summary(m).value[1].percent <= 100.0
  {
    var focus, total := Seconds(m.total - m.distraction), Seconds(m.total);
    FractionOfWhole(focus, total);
    assert Summary(m).value[1].percent == focus / total * 100.0;
  }

  /** A report has ten lines: a batch with a non-zero duration is not empty, so the
      hotspot line is present. */
  lemma ReportShape(data: seq<Sample>)
    requires Report(data).Some?
    ensures |Report(data).value| == 10
    ensures Report(data).value[0] == TotalLine(Seconds(Span(data)))
    ensures Report(data).value[8].HotspotLine?
    ensures Report(data).value[8].points == IdentifyHotspot(data, DefaultGridSize).value.intensity
    ensures Report(data).value[9] == TransitionsLine(Transitions(data, DefaultThreshold))
  {
    var m := MetricsOf(data);
    assert |data| >= 2;
    assert m.hotspots.Some?;
    SummaryShape(m);
  }

  /** In a report the focus and distraction percentages add up to 100, and so do the four
      quadrant percentages. */
  lemma ReportPercents(data: seq<Sample>)
    requires Report(data).Some?
    ensures Report(data).value[1].percent + Report(data).value[2].percent == 100.0
    ensures Report(data).value[4].percent + Report(data).value[5].percent
          + Report(data).value[6].percent + Report(data).value[7].percent == 100.0
  {
    var m := MetricsOf(data);
    assert |data| > 0;
    SummaryPercents(m);
  }

  /** For a time-ordered batch the focus percentage of a report lies in [0, 100]. */
  lemma OrderedFocusPercent(data: seq<Sample>)
    requires TimeOrdered(data) && Report(data).Some?
    ensures 0.0 <= Report(data).value[1].percent <= 100.0
  {
    var m := MetricsOf(data);
    assert m.total == Span(data) && m.distraction == Distraction(data);
    OrderedDistractionWithinDuration(data);
    SummaryFocusPercent(m);
  }

}
