/** The expected calibration error of candidate lists (flood_system/candidate_evaluation.py). */
module Calibration {
  import opened Ordering

  datatype Row = Row(confidence: real, hit: bool)

  function Clamp(x: real): (r: real)
    ensures 0.0 <= r <= 1.0
    ensures 0.0 <= x <= 1.0 ==> r == x
  {
    var low := if x > 0.0 then x else 0.0;
    if low < 1.0 then low else 1.0
  }

  function Hit(row: Row): real {
    if row.hit then 1.0 else 0.0
  }

  function Abs(x: real): real {
    if x >= 0.0 then x else -x
  }

  /** The bins are half open, but for the last one. */
  predicate InBin(c: real, bin: nat, bins: nat)
    requires bins >= 1
  {
    bin as real / bins as real <= c <= (bin + 1) as real / bins as real
    && (bin == bins - 1 || c < (bin + 1) as real / bins as real)
  }

  lemma BinBounds(c: real, bin: nat, bins: nat)
    requires bins >= 1
    ensures InBin(c, bin, bins) <==>
      bin as real <= c * bins as real <= bin as real + 1.0
      && (bin == bins - 1 || c * bins as real < bin as real + 1.0)
  {
    var b := bins as real;
    assert bin as real / b * b == bin as real;
    assert (bin + 1) as real / b * b == bin as real + 1.0;
    Scaled(bin as real / b, c, b);
    Scaled(c, (bin + 1) as real / b, b);
    Scaled((bin + 1) as real / b, c, b);
  }

  lemma Scaled(x: real, y: real, b: real)
    requires b > 0.0
    ensures x <= y <==> x * b <= y * b
  {
  }

  /** Every clamped confidence is in exactly one bin. */
  lemma BinsPartition(c: real, bins: nat) returns (bin: nat)
    requires bins >= 1 && 0.0 <= c <= 1.0
    ensures bin < bins && InBin(c, bin, bins)
    ensures forall other: nat | other < bins && InBin(c, other, bins) :: other == bin
  {
    var scaled := c * bins as real;
    assert 0.0 <= scaled <= bins as real;
    bin := if scaled.Floor >= bins then bins - 1 else scaled.Floor;
    BinBounds(c, bin, bins);
    forall other: nat | other < bins && InBin(c, other, bins) ensures other == bin {
      BinBounds(c, other, bins);
    }
  }

  /** The rows that are calibrated: every candidate's confidence, clamped, and whether it is gold. */
  method CalibrationRows(scored: seq<Row>) returns (rows: seq<Row>)
    ensures |rows| == |scored| && Clamped(rows)
    ensures forall i | 0 <= i < |rows| :: rows[i] == Row(Clamp(scored[i].confidence), scored[i].hit)
  {
    rows := [];
    for i := 0 to |scored|
      invariant |rows| == i && Clamped(rows)
      invariant forall k | 0 <= k < i :: rows[k] == Row(Clamp(scored[k].confidence), scored[k].hit)
    {
      rows := rows + [Row(Clamp(scored[i].confidence), scored[i].hit)];
    }
  }

  predicate Clamped(rows: seq<Row>) {
    forall row | row in rows :: 0.0 <= row.confidence <= 1.0
  }

  // ---------------------------------------------------------------- the sums

  function Count(rows: seq<Row>, bin: nat, bins: nat): nat
    requires bins >= 1
  {
    if rows == [] then 0
    else
      Count(rows[..|rows| - 1], bin, bins) + if InBin(rows[|rows| - 1].confidence, bin, bins) then 1 else 0
  }

  /** Confidence minus accuracy, summed over the rows of a bin. */
  function Gap(rows: seq<Row>, bin: nat, bins: nat): real
    requires bins >= 1
  {
    if rows == [] then 0.0
    else
      var last := rows[|rows| - 1];
      Gap(rows[..|rows| - 1], bin, bins)
      + if InBin(last.confidence, bin, bins) then last.confidence - Hit(last) else 0.0
  }

  function TotalGap(rows: seq<Row>): real {
    if rows == [] then 0.0
    else TotalGap(rows[..|rows| - 1]) + rows[|rows| - 1].confidence - Hit(rows[|rows| - 1])
  }

  function SumGaps(rows: seq<Row>, k: nat, bins: nat): real
    requires bins >= 1
  {
    if k == 0 then 0.0 else SumGaps(rows, k - 1, bins) + Gap(rows, k - 1, bins)
  }

  function SumAbsGaps(rows: seq<Row>, k: nat, bins: nat): real
    requires bins >= 1
  {
    if k == 0 then 0.0 else SumAbsGaps(rows, k - 1, bins) + Abs(Gap(rows, k - 1, bins))
  }

  function SumCounts(rows: seq<Row>, k: nat, bins: nat): nat
    requires bins >= 1
  {
    if k == 0 then 0 else SumCounts(rows, k - 1, bins) + Count(rows, k - 1, bins)
  }

  /** One more row adds to its own bin and to no other. */
  lemma {:induction false} OneMoreRow(rows: seq<Row>, row: Row, bin: nat, k: nat, bins: nat)
    requires bins >= 1 && bin < bins && k <= bins && InBin(row.confidence, bin, bins)
    requires forall other: nat | other < bins && InBin(row.confidence, other, bins) :: other == bin
    ensures SumGaps(rows + [row], k, bins)
         == SumGaps(rows, k, bins) + if bin < k then row.confidence - Hit(row) else 0.0
    ensures SumCounts(rows + [row], k, bins) == SumCounts(rows, k, bins) + if bin < k then 1 else 0
  {
    if k > 0 {
      OneMoreRow(rows, row, bin, k - 1, bins);
      assert (rows + [row])[..|rows|] == rows;
    }
  }

  lemma {:induction false} BinsExhaustRows(rows: seq<Row>, bins: nat)
    requires bins >= 1 && Clamped(rows)
    ensures SumGaps(rows, bins, bins) == TotalGap(rows) && SumCounts(rows, bins, bins) == |rows|
  {
    if rows == [] {
      NoRows(bins, bins);
    } else {
      var front, last := rows[..|rows| - 1], rows[|rows| - 1];
      BinsExhaustRows(front, bins);
      var bin := BinsPartition(last.confidence, bins);
      OneMoreRow(front, last, bin, bins, bins);
      assert rows == front + [last];
    }
  }

  lemma {:induction false} NoRows(k: nat, bins: nat)
    requires bins >= 1
    ensures SumGaps([], k, bins) == 0.0 && SumCounts([], k, bins) == 0
  {
    if k > 0 {
      NoRows(k - 1, bins);
    }
  }

  lemma {:induction false} GapAtMostCount(rows: seq<Row>, bin: nat, bins: nat)
    requires bins >= 1 && Clamped(rows)
    ensures Abs(Gap(rows, bin, bins)) <= Count(rows, bin, bins) as real
  {
    if rows != [] {
      GapAtMostCount(rows[..|rows| - 1], bin, bins);
      assert rows[|rows| - 1] in rows;
    }
  }

  lemma {:induction false} Triangle(rows: seq<Row>, k: nat, bins: nat)
    requires bins >= 1 && Clamped(rows)
    ensures Abs(SumGaps(rows, k, bins)) <= SumAbsGaps(rows, k, bins) <= SumCounts(rows, k, bins) as real
  {
    if k > 0 {
      Triangle(rows, k - 1, bins);
      GapAtMostCount(rows, k - 1, bins);
    }
  }

  function SumConfidence(rows: seq<Row>): real {
    if rows == [] then 0.0 else SumConfidence(rows[..|rows| - 1]) + rows[|rows| - 1].confidence
  }

  function SumHits(rows: seq<Row>): real {
    if rows == [] then 0.0 else SumHits(rows[..|rows| - 1]) + Hit(rows[|rows| - 1])
  }

  lemma {:induction false} TotalGapIsDifference(rows: seq<Row>)
    ensures TotalGap(rows) == SumConfidence(rows) - SumHits(rows)
  {
    if rows != [] {
      TotalGapIsDifference(rows[..|rows| - 1]);
    }
  }

  /** A bin weighs as much as its gap. */
  lemma BinTerm(count: real, n: real, confidence: real, hits: real)
    requires count > 0.0 && n > 0.0
    ensures count / n * Abs(confidence / count - hits / count) == Abs(confidence - hits) / n
  {
    var d := confidence - hits;
    Quotients(confidence, hits, count);
    assert count / n * (Abs(d) / count) == Abs(d) / n;
  }

  lemma Quotients(x: real, y: real, n: real)
    requires n > 0.0
    ensures x / n - y / n == (x - y) / n
    ensures Abs((x - y) / n) == Abs(x - y) / n
    ensures x <= y ==> x / n <= y / n
    ensures x / n + y / n == (x + y) / n
    ensures n / n == 1.0
  {
  }

  method SumBin(rows: seq<Row>, index: nat, bins: nat) returns (count: nat, confidence: real, hits: real)
    requires bins >= 1
    ensures count == Count(rows, index, bins) && confidence - hits == Gap(rows, index, bins)
  {
    hide InBin;
    count, confidence, hits := 0, 0.0, 0.0;
    for i := 0 to |rows|
      invariant count == Count(rows[..i], index, bins) && confidence - hits == Gap(rows[..i], index, bins)
    {
      assert rows[..i + 1][..i] == rows[..i];
      if InBin(rows[i].confidence, index, bins) {
        count, confidence, hits := count + 1, confidence + rows[i].confidence, hits + Hit(rows[i]);
      }
    }
    assert rows[..|rows|] == rows;
  }

  /** The bins' gaps, weighted by their share of the rows. The result lies between the gap of all rows
      taken together and one. */
  method ComputeEce(rows: seq<Row>, bins: nat) returns (ece: real)
    requires bins >= 1
    ensures rows == [] ==> ece == 0.0
    ensures rows != [] ==> ece == SumAbsGaps(rows, bins, bins) / |rows| as real
    ensures rows != [] && Clamped(rows) ==>
      Abs(SumConfidence(rows) / |rows| as real - SumHits(rows) / |rows| as real) <= ece <= 1.0
  {
    hide Count, Gap, Abs, SumConfidence, SumHits;
    ece := 0.0;
    if rows == [] {
      return;
    }
    for index := 0 to bins
      invariant ece == SumAbsGaps(rows, index, bins) / |rows| as real
    {
      var count, confidence, hits := SumBin(rows, index, bins);
      if count == 0 {
        EmptyBin(rows, index, bins);
        continue;
      }
      BinTerm(count as real, |rows| as real, confidence, hits);
      Quotients(SumAbsGaps(rows, index, bins), Abs(confidence - hits), |rows| as real);
      ece := ece + count as real / |rows| as real * Abs(confidence / count as real - hits / count as real);
    }
    if Clamped(rows) {
      Sandwich(rows, bins);
    }
  }

  lemma {:induction false} EmptyBin(rows: seq<Row>, bin: nat, bins: nat)
    requires bins >= 1 && Count(rows, bin, bins) == 0
    ensures Gap(rows, bin, bins) == 0.0 && Abs(Gap(rows, bin, bins)) == 0.0
  {
    if rows != [] {
      EmptyBin(rows[..|rows| - 1], bin, bins);
    }
  }

  /** The calibration error is at least the gap between mean confidence and accuracy, and at most one. */
  lemma Sandwich(rows: seq<Row>, bins: nat)
    requires bins >= 1 && rows != [] && Clamped(rows)
    ensures Abs(SumConfidence(rows) / |rows| as real - SumHits(rows) / |rows| as real)
         <= SumAbsGaps(rows, bins, bins) / |rows| as real <= 1.0
  {
    hide *;
    BinsExhaustRows(rows, bins);
    Triangle(rows, bins, bins);
    TotalGapIsDifference(rows);
    var n, sum := |rows| as real, SumAbsGaps(rows, bins, bins);
    Quotients(SumConfidence(rows), SumHits(rows), n);
    Quotients(Abs(TotalGap(rows)), sum, n);
    Quotients(sum, n, n);
  }

  // ---------------------------------------------------------------- what the error measures

  /** The bin of a clamped confidence: it is scaled and cut off, and the value 1 goes to the last bin. */
  function BinOf(c: real, bins: nat): int
    requires bins >= 1
  {
    if (c * bins as real).Floor >= bins then bins - 1 else (c * bins as real).Floor
  }

  function RowsIn(rows: seq<Row>, bin: nat, bins: nat): seq<Row>
    requires bins >= 1
  {
    if rows == [] then []
    else
      RowsIn(rows[..|rows| - 1], bin, bins)
      + if BinOf(rows[|rows| - 1].confidence, bins) == bin then [rows[|rows| - 1]] else []
  }

  function HitPlaces(rows: seq<Row>): set<nat> {
    set i: nat | i < |rows| && rows[i].hit
  }

  lemma InBinIff(c: real, bin: nat, bins: nat)
    requires 0.0 <= c <= 1.0 && bin < bins
    ensures InBin(c, bin, bins) <==> BinOf(c, bins) == bin
  {
    BinBounds(c, bin, bins);
    hide InBin;
    assert 0.0 <= c * bins as real <= bins as real;
  }

  lemma {:induction false} HitsAre(rows: seq<Row>)
    ensures SumHits(rows) == |HitPlaces(rows)| as real
  {
    if rows != [] {
      var n := |rows| - 1;
      HitsAre(rows[..n]);
      assert HitPlaces(rows) == HitPlaces(rows[..n]) + if rows[n].hit then {n} else {};
    }
  }

  /** The gap of a bin is the confidence of its rows minus the number of those that are gold. */
  lemma {:induction false} GapIs(rows: seq<Row>, bin: nat, bins: nat)
    requires bin < bins && Clamped(rows)
    ensures var here := RowsIn(rows, bin, bins);
      Count(rows, bin, bins) == |here| && Gap(rows, bin, bins) == SumConfidence(here) - |HitPlaces(here)| as real
  {
    hide HitPlaces, InBin, BinOf;
    HitsAre(RowsIn(rows, bin, bins));
    if rows != [] {
      var front, last := rows[..|rows| - 1], rows[|rows| - 1];
      assert last in rows;
      GapIs(front, bin, bins);
      HitsAre(RowsIn(front, bin, bins));
      InBinIff(last.confidence, bin, bins);
      var before := RowsIn(front, bin, bins);
      assert (before + [last])[..|before|] == before;
      if BinOf(last.confidence, bins) != bin {
        assert RowsIn(rows, bin, bins) == before;
      }
    }
  }

  predicate Level(rows: seq<Row>, bin: nat, bins: nat)
    requires bins >= 1
  {
    Gap(rows, bin, bins) == 0.0
  }

  lemma {:induction false} SumIsZeroIff(rows: seq<Row>, k: nat, bins: nat)
    requires bins >= 1
    ensures SumAbsGaps(rows, k, bins) >= 0.0
    ensures SumAbsGaps(rows, k, bins) == 0.0 <==> forall bin: nat | bin < k :: Level(rows, bin, bins)
  {
    if k > 0 {
      SumIsZeroIff(rows, k - 1, bins);
      assert SumAbsGaps(rows, k, bins) == 0.0 <==> SumAbsGaps(rows, k - 1, bins) == 0.0 && Level(rows, k - 1, bins);
      hide Level, SumAbsGaps;
    }
  }

  /** In the bin the confidences add up to the number of rows that are gold. */
  predicate Balanced(rows: seq<Row>, bin: nat, bins: nat)
    requires bins >= 1
  {
    SumConfidence(RowsIn(rows, bin, bins)) == |HitPlaces(RowsIn(rows, bin, bins))| as real
  }

  /** The error is zero exactly when every bin is balanced. */
  lemma PerfectIff(rows: seq<Row>, bins: nat)
    requires bins >= 1 && rows != [] && Clamped(rows)
    ensures SumAbsGaps(rows, bins, bins) / |rows| as real == 0.0 <==> forall bin: nat | bin < bins :: Balanced(rows, bin, bins)
  {
    hide Level, SumAbsGaps, Clamped, Balanced;
    SumIsZeroIff(rows, bins, bins);
    ZeroQuotient(SumAbsGaps(rows, bins, bins), |rows| as real);
    forall bin: nat | bin < bins ensures Level(rows, bin, bins) <==> Balanced(rows, bin, bins) {
      BalancedIff(rows, bin, bins);
    }
  }

  lemma BalancedIff(rows: seq<Row>, bin: nat, bins: nat)
    requires bin < bins && Clamped(rows)
    ensures Level(rows, bin, bins) <==> Balanced(rows, bin, bins)
  {
    hide Gap, RowsIn, Clamped;
    GapIs(rows, bin, bins);
  }

  lemma ZeroQuotient(x: real, n: real)
    requires n > 0.0
    ensures x / n == 0.0 <==> x == 0.0
  {
    assert x / n * n == x;
  }
}
