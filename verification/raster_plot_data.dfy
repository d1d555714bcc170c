/**
 * The raster-plot data client of the spike-sorting plugin: the per-second
 * spike-count table built from the flat `spike_counts_1sec` dataset, the
 * reference-time scans that turn a time range into a spike index range,
 * and the re-binning of the count table so that at most 500 bins are drawn.
 *
 * Dataset reads are parameters. A read of a missing array element
 * (`undefined` in JavaScript) is `None`.
 */
module RasterPlotData {
  import opened Common

  // ---------------------------------------------------------------------
  // The count table and bin edges built by `create`
  // ---------------------------------------------------------------------

  /** `index < data.length ? data[index] : 0`. */
  function CountAt(flat: seq<int>, index: nat): int
  {
    if index < |flat| then flat[index] else 0
  }

  /** Row `i` of the table: the `numUnits` counts starting at `i * numUnits`. */
  method CountsRow(flat: seq<int>, numUnits: nat, i: nat) returns (row: seq<int>)
    ensures |row| == numUnits
    ensures forall j :: 0 <= j < numUnits ==> row[j] == CountAt(flat, i * numUnits + j)
  {
    row := [];
    for j := 0 to numUnits
      invariant |row| == j
      invariant forall j' :: 0 <= j' < j ==> row[j'] == CountAt(flat, i * numUnits + j')
    {
      var index := i * numUnits + j;
      row := row + [if index < |flat| then flat[index] else 0];
    }
  }

  /** The [numBins x numUnits] table, row-major over the flat dataset, zero past its end. */
  method Counts2d(flat: seq<int>, numBins: nat, numUnits: nat) returns (counts: seq<seq<int>>)
    ensures |counts| == numBins
    ensures forall i :: 0 <= i < numBins ==> |counts[i]| == numUnits
    ensures forall i, j :: 0 <= i < numBins && 0 <= j < numUnits ==> counts[i][j] == CountAt(flat, i * numUnits + j)
  {
    counts := [];
    for i := 0 to numBins
      invariant |counts| == i
      invariant forall i' :: 0 <= i' < i ==> |counts[i']| == numUnits
      invariant forall i', j :: 0 <= i' < i && 0 <= j < numUnits ==> counts[i'][j] == CountAt(flat, i' * numUnits + j)
    {
      var row := CountsRow(flat, numUnits, i);
      counts := counts + [row];
    }
  }

  /** Every element of a flat dataset of the full size lands in exactly the cell its index names. */
  lemma CountsCoverFlat(flat: seq<int>, numBins: nat, numUnits: nat, counts: seq<seq<int>>, index: nat)
    requires numUnits > 0 && |flat| == numBins * numUnits && index < |flat|
    requires |counts| == numBins
    requires forall i :: 0 <= i < numBins ==> |counts[i]| == numUnits
    requires forall i, j :: 0 <= i < numBins && 0 <= j < numUnits ==> counts[i][j] == CountAt(flat, i * numUnits + j)
    ensures index / numUnits < numBins && counts[index / numUnits][index % numUnits] == flat[index]
  {
    var i, j := index / numUnits, index % numUnits;
    assert index == i * numUnits + j;
    if i >= numBins {
      MulMono(numBins, i, numUnits);
    }
  }

  /** `binEdges[i] = startTimeSec + i` for i in [0, numBins]. */
  method BinEdges(startTimeSec: real, numBins: nat) returns (edges: seq<real>)
    ensures |edges| == numBins + 1
    ensures forall i :: 0 <= i <= numBins ==> edges[i] == startTimeSec + i as real
    ensures forall i :: 0 <= i < numBins ==> edges[i + 1] - edges[i] == 1.0
  {
    edges := [];
    for i := 0 to numBins + 1
      invariant |edges| == i
      invariant forall i' :: 0 <= i' < i ==> edges[i'] == startTimeSec + i' as real
    {
      edges := edges + [startTimeSec + i as real];
    }
  }

  datatype CreateError = NegativeBinCount  // `Array(numBins)` with numBins < 0 throws a RangeError

  datatype Tables = Tables(counts: seq<seq<int>>, binEdges: seq<real>) | CreateFailure(error: CreateError)

  /** The tables `create` precomputes, with `numBins = ceil(endTimeSec - startTimeSec)`. */
  method CreateTables(startTimeSec: real, endTimeSec: real, numUnits: nat, flat: seq<int>) returns (t: Tables)
    ensures t.CreateFailure? <==> Ceil(endTimeSec - startTimeSec) < 0
    ensures t.Tables? ==>
              var numBins := Ceil(endTimeSec - startTimeSec);
              && |t.counts| == numBins && |t.binEdges| == numBins + 1
              && (forall i, j :: 0 <= i < numBins && 0 <= j < numUnits ==>
                    |t.counts[i]| == numUnits && t.counts[i][j] == CountAt(flat, i * numUnits + j))
              && forall i :: 0 <= i <= numBins ==> t.binEdges[i] == startTimeSec + i as real
  {
    var numBins := Ceil(endTimeSec - startTimeSec);
    if numBins < 0 {
      return CreateFailure(NegativeBinCount);
    }
    var counts := Counts2d(flat, numBins, numUnits);
    var edges := BinEdges(startTimeSec, numBins);
    t := Tables(counts, edges);
  }

  // ---------------------------------------------------------------------
  // Reference-time scans (`findStartIndex`, `findEndIndex`)
  // ---------------------------------------------------------------------

  /** Element `i` of a dataset, `None` when out of range. */
  function Get<T>(s: seq<T>, i: int): Option<T>
  {
    if 0 <= i < |s| then Some(s[i]) else None
  }

  /**
   * Where the forward scan stops: the first position i whose successor's
   * time is at or after `t`, or the last position.
   */
  predicate StartStop(refTimes: seq<real>, t: real, i: nat)
  {
    && i < |refTimes|
    && (i + 1 == |refTimes| || refTimes[i + 1] >= t)
    && forall j :: 1 <= j <= i ==> refTimes[j] < t
  }

  /**
   * Where the backward scan stops: the first position i from the top whose
   * predecessor's time is at or before `t`, or position 0.
   */
  predicate EndStop(refTimes: seq<real>, t: real, i: nat)
  {
    && i < |refTimes|
    && (i == 0 || refTimes[i - 1] <= t)
    && forall j :: i <= j < |refTimes| - 1 ==> refTimes[j] > t
  }

  /** Where the forward scan started at position `i` stops. */
  function StartPos(refTimes: seq<real>, t: real, i: nat): (p: nat)
    requires i < |refTimes|
    ensures i <= p < |refTimes|
    ensures p + 1 == |refTimes| || refTimes[p + 1] >= t
    ensures forall j :: i < j <= p ==> refTimes[j] < t
    decreases |refTimes| - i
  {
    if i + 1 < |refTimes| && refTimes[i + 1] < t then StartPos(refTimes, t, i + 1) else i
  }

  /** Where the backward scan started at position `i` stops. */
  function EndPos(refTimes: seq<real>, t: real, i: nat): (p: nat)
    requires i < |refTimes|
    ensures p <= i
    ensures p == 0 || refTimes[p - 1] <= t
    ensures forall j :: p <= j < i ==> refTimes[j] > t
  {
    if i >= 1 && refTimes[i - 1] > t then EndPos(refTimes, t, i - 1) else i
  }

  /** The reference index the forward scan returns (index 0 of an empty array is `undefined`). */
  function StartRef(refTimes: seq<real>, refIndices: seq<int>, t: real): (r: Option<int>)
    ensures |refTimes| == 0 ==> r == Get(refIndices, 0)
    ensures |refTimes| > 0 ==> StartStop(refTimes, t, StartPos(refTimes, t, 0)) && r == Get(refIndices, StartPos(refTimes, t, 0))
  {
    if |refTimes| == 0 then Get(refIndices, 0) else Get(refIndices, StartPos(refTimes, t, 0))
  }

  /** The reference index the backward scan returns (index -1 of an empty array is `undefined`). */
  function EndRef(refTimes: seq<real>, refIndices: seq<int>, t: real): (r: Option<int>)
    ensures |refTimes| == 0 ==> r == Get(refIndices, -1)
    ensures |refTimes| > 0 ==> EndStop(refTimes, t, EndPos(refTimes, t, |refTimes| - 1)) &&
                                r == Get(refIndices, EndPos(refTimes, t, |refTimes| - 1))
  {
    if |refTimes| == 0 then Get(refIndices, -1) else Get(refIndices, EndPos(refTimes, t, |refTimes| - 1))
  }

  /** `findStartIndex`. */
  method FindStartIndex(refTimes: seq<real>, refIndices: seq<int>, startTime: real) returns (r: Option<int>)
    ensures r == StartRef(refTimes, refIndices, startTime)
  {
    var i := 0;
    while i + 1 < |refTimes| && refTimes[i + 1] < startTime
      invariant |refTimes| == 0 ==> i == 0
      invariant |refTimes| > 0 ==> i < |refTimes| && StartPos(refTimes, startTime, i) == StartPos(refTimes, startTime, 0)
    {
      i := i + 1;
    }
    r := Get(refIndices, i);
  }

  /** `findEndIndex`. */
  method FindEndIndex(refTimes: seq<real>, refIndices: seq<int>, endTime: real) returns (r: Option<int>)
    ensures r == EndRef(refTimes, refIndices, endTime)
  {
    var i := |refTimes| - 1;
    while i - 1 >= 0 && refTimes[i - 1] > endTime
      invariant -1 <= i < |refTimes|
      invariant |refTimes| > 0 ==> i >= 0 && EndPos(refTimes, endTime, i) == EndPos(refTimes, endTime, |refTimes| - 1)
    {
      i := i - 1;
    }
    r := Get(refIndices, i);
  }

  /** Each scan stops at exactly one position. */
  lemma StartStopUnique(refTimes: seq<real>, t: real, i: nat, i': nat)
    requires StartStop(refTimes, t, i) && StartStop(refTimes, t, i')
    ensures i == i'
  {
  }

  lemma EndStopUnique(refTimes: seq<real>, t: real, i: nat, i': nat)
    requires EndStop(refTimes, t, i) && EndStop(refTimes, t, i')
    ensures i == i'
  {
  }

  predicate SortedAsc(s: seq<real>)
  {
    forall i, j :: 0 <= i < j < |s| ==> s[i] <= s[j]
  }

  /**
   * For sorted reference times and `t0 <= t1`, the forward scan for `t0`
   * never stops after the backward scan for `t1`, so the index range read
   * is ordered whenever the reference indices are.
   */
  lemma StartNotAfterEnd(refTimes: seq<real>, t0: real, t1: real, s: nat, e: nat)
    requires SortedAsc(refTimes) && t0 <= t1
    requires StartStop(refTimes, t0, s) && EndStop(refTimes, t1, e)
    ensures s <= e
  {
    var n := |refTimes|;
    assert refTimes[s] < t0 || s == 0;
    if n >= 2 {
      assert refTimes[n - 2] <= refTimes[n - 1];
    }
  }

  datatype RangeData = RangeData(timestamps: seq<real>, unitIndices: seq<int>) | UnresolvedRange

  /**
   * `getDataForRange` after the two scans: nothing when the start index is
   * not below the end index, else the spikes in [start, end). A scan that
   * read past the reference array leaves the range unresolved.
   */
  function DataForRange(startIndex: Option<int>, endIndex: Option<int>, timestamps: seq<real>, unitIndices: seq<int>)
    : (r: RangeData)
    ensures r.UnresolvedRange? <==> startIndex.None? || endIndex.None?
    ensures r.RangeData? && startIndex.value >= endIndex.value ==> r == RangeData([], [])
    ensures r.RangeData? && 0 <= startIndex.value <= endIndex.value <= |timestamps| && endIndex.value <= |unitIndices| ==>
              r.timestamps == timestamps[startIndex.value..endIndex.value] &&
              r.unitIndices == unitIndices[startIndex.value..endIndex.value]
  {
    if startIndex.None? || endIndex.None? then UnresolvedRange
    else if startIndex.value >= endIndex.value then RangeData([], [])
    else RangeData(JsSlice(timestamps, startIndex.value, endIndex.value), JsSlice(unitIndices, startIndex.value, endIndex.value))
  }

  // ---------------------------------------------------------------------
  // Re-binning (`getSpikeCountsForRange`)
  // ---------------------------------------------------------------------

  const MaxBins := 500

  /** The least d >= 1 that leaves at most 500 bins. */
  method DownsamplingFactor(span: int) returns (d: nat)
    ensures d >= 1 && span <= MaxBins * d
    ensures d == 1 || span > MaxBins * (d - 1)
  {
    d := 1;
    QuotientExceeds(span, d, MaxBins);
    while (span as real) / (d as real) > MaxBins as real
      invariant d >= 1 && (d == 1 || span > MaxBins * (d - 1))
      invariant (span as real) / (d as real) > MaxBins as real <==> span > MaxBins * d
      decreases span - MaxBins * d
    {
      d := d + 1;
      QuotientExceeds(span, d, MaxBins);
    }
  }

  /** Column k summed over rows [lo, hi). */
  function ColumnSum(counts: seq<seq<int>>, numUnits: nat, k: nat, lo: nat, hi: nat): int
    requires lo <= hi <= |counts| && k < numUnits
    requires forall r :: 0 <= r < |counts| ==> |counts[r]| == numUnits
    decreases hi - lo
  {
    if lo == hi then 0 else ColumnSum(counts, numUnits, k, lo, hi - 1) + counts[hi - 1][k]
  }

  lemma {:induction false} ColumnSumSplit(counts: seq<seq<int>>, numUnits: nat, k: nat, lo: nat, mid: nat, hi: nat)
    requires lo <= mid <= hi <= |counts| && k < numUnits
    requires forall r :: 0 <= r < |counts| ==> |counts[r]| == numUnits
    ensures ColumnSum(counts, numUnits, k, lo, hi) == ColumnSum(counts, numUnits, k, lo, mid) + ColumnSum(counts, numUnits, k, mid, hi)
    decreases hi - mid
  {
    if mid < hi {
      ColumnSumSplit(counts, numUnits, k, lo, mid, hi - 1);
    }
  }

  /** The per-unit totals of rows [lo, hi). */
  function BinTotals(counts: seq<seq<int>>, numUnits: nat, lo: nat, hi: nat): (r: seq<int>)
    requires lo <= hi <= |counts|
    requires forall r :: 0 <= r < |counts| ==> |counts[r]| == numUnits
    ensures |r| == numUnits
  {
    seq(numUnits, k requires 0 <= k < numUnits => ColumnSum(counts, numUnits, k, lo, hi))
  }

  /** `aggCounts[k] += row[k]` for every unit. */
  method AddRow(agg: seq<int>, row: seq<int>) returns (r: seq<int>)
    requires |row| == |agg|
    ensures |r| == |agg| && forall k :: 0 <= k < |agg| ==> r[k] == agg[k] + row[k]
  {
    r := agg;
    for k := 0 to |agg|
      invariant |r| == |agg|
      invariant forall k' :: 0 <= k' < k ==> r[k'] == agg[k'] + row[k']
      invariant forall k' :: k <= k' < |agg| ==> r[k'] == agg[k']
    {
      r := r[k := r[k] + row[k]];
    }
  }

  /** One output bin: the totals of rows [i, min(i + d, len)). */
  method AggregateBin(counts: seq<seq<int>>, numUnits: nat, i: nat, d: nat) returns (agg: seq<int>)
    requires i < |counts|
    requires forall r :: 0 <= r < |counts| ==> |counts[r]| == numUnits
    ensures agg == BinTotals(counts, numUnits, i, Min(i + d, |counts|))
  {
    agg := seq(numUnits, _ => 0);
    for j := 0 to d
      invariant agg == BinTotals(counts, numUnits, i, Min(i + j, |counts|))
    {
      if i + j < |counts| {
        agg := AddRow(agg, counts[i + j]);
      }
    }
  }

  /** The re-binned table: bin b holds the totals of rows [b*d, min(b*d + d, len)). */
  function Aggregate(counts: seq<seq<int>>, numUnits: nat, d: nat): (r: seq<seq<int>>)
    requires d >= 1
    requires forall r :: 0 <= r < |counts| ==> |counts[r]| == numUnits
    ensures |r| == CeilDiv(|counts|, d)
  {
    var nb := CeilDiv(|counts|, d);
    seq(nb, b requires 0 <= b < nb =>
      BinStartInRange(|counts|, d, b);
      BinTotals(counts, numUnits, b * d, Min(b * d + d, |counts|)))
  }

  lemma BinStartInRange(len: nat, d: nat, b: nat)
    requires d >= 1 && b < CeilDiv(len, d)
    ensures b * d < len
  {
    MulMono(b + 1, CeilDiv(len, d), d);
  }

  /**
   * Summing the first m bins of a column gives that column's total over the
   * rows they cover, for any table whose bin b holds the totals of rows
   * [b*d, min(b*d + d, len)).
   */
  lemma {:induction false} BinSumsPrefix(ds: seq<seq<int>>, counts: seq<seq<int>>, numUnits: nat, d: nat, k: nat, m: nat)
    requires d >= 1 && k < numUnits && m <= |ds|
    requires forall r :: 0 <= r < |counts| ==> |counts[r]| == numUnits
    requires forall b :: 0 <= b < |ds| ==>
               && k < |ds[b]| && b * d < |counts|
               && ds[b][k] == ColumnSum(counts, numUnits, k, b * d, Min(b * d + d, |counts|))
    ensures Sum(Column(ds[..m], k)) == ColumnSum(counts, numUnits, k, 0, Min(m * d, |counts|))
  {
    if m > 0 {
      var p := m - 1;
      assert p * d < |counts| && k < |ds[p]|;
      BinBounds(|counts|, d, p);
      BinSumsPrefix(ds, counts, numUnits, d, k, p);
      ColumnPrefixSnoc(ds, m, k);
      ColumnSumSplit(counts, numUnits, k, 0, p * d, Min(m * d, |counts|));
    }
  }

  /** Bin p starts inside the table, and the next bin starts d rows later. */
  lemma BinBounds(len: nat, d: nat, p: nat)
    requires p * d < len
    ensures 0 <= p * d && Min(p * d, len) == p * d
    ensures (p + 1) * d == p * d + d
    ensures p * d <= Min((p + 1) * d, len) == Min(p * d + d, len)
  {
  }

  lemma AggregateCell(counts: seq<seq<int>>, numUnits: nat, d: nat, b: nat, k: nat)
    requires d >= 1 && k < numUnits && b < CeilDiv(|counts|, d)
    requires forall r :: 0 <= r < |counts| ==> |counts[r]| == numUnits
    ensures b * d < |counts|
    ensures Aggregate(counts, numUnits, d)[b][k] == ColumnSum(counts, numUnits, k, b * d, Min(b * d + d, |counts|))
  {
    BinStartInRange(|counts|, d, b);
  }

  lemma ColumnSnoc(rows: seq<seq<int>>, k: nat)
    requires |rows| > 0 && forall r :: 0 <= r < |rows| ==> k < |rows[r]|
    ensures Sum(Column(rows, k)) == Sum(Column(rows[..|rows| - 1], k)) + rows[|rows| - 1][k]
  {
    var c := Column(rows, k);
    assert c[..|c| - 1] == Column(rows[..|rows| - 1], k);
  }

  lemma ColumnPrefixSnoc(rows: seq<seq<int>>, m: nat, k: nat)
    requires 0 < m <= |rows| && forall r :: 0 <= r < |rows| ==> k < |rows[r]|
    ensures Sum(Column(rows[..m], k)) == Sum(Column(rows[..m - 1], k)) + rows[m - 1][k]
  {
    ColumnSnoc(rows[..m], k);
    assert rows[..m][..m - 1] == rows[..m - 1];
  }

  /** Column k of a table whose rows have at least k + 1 entries. */
  function Column(rows: seq<seq<int>>, k: nat): (c: seq<int>)
    requires forall r :: 0 <= r < |rows| ==> k < |rows[r]|
    ensures |c| == |rows|
  {
    if |rows| == 0 then [] else Column(rows[..|rows| - 1], k) + [rows[|rows| - 1][k]]
  }

  /** Re-binning keeps each unit's total spike count. */
  lemma AggregateKeepsTotals(counts: seq<seq<int>>, numUnits: nat, d: nat, k: nat)
    requires d >= 1 && k < numUnits
    requires forall r :: 0 <= r < |counts| ==> |counts[r]| == numUnits
    ensures Sum(Column(Aggregate(counts, numUnits, d), k)) == ColumnSum(counts, numUnits, k, 0, |counts|)
  {
    var ds := Aggregate(counts, numUnits, d);
    var nb := |ds|;
    forall b | 0 <= b < nb
      ensures && k < |ds[b]| && b * d < |counts|
              && ds[b][k] == ColumnSum(counts, numUnits, k, b * d, Min(b * d + d, |counts|))
    {
      AggregateCell(counts, numUnits, d, b, k);
    }
    BinSumsPrefix(ds, counts, numUnits, d, k, nb);
    assert ds[..nb] == ds;
  }

  datatype SpikeCounts = SpikeCounts(binEdges: seq<Option<real>>, counts: seq<seq<int>>)

  /**
   * `getSpikeCountsForRange` over the precomputed tables. With factor 1 the
   * sliced tables are returned as they are; otherwise each output bin sums
   * `d` consecutive rows and starts at the edge of its first row.
   */
  method SpikeCountsForRange(recordingStartTimeSec: real, numUnits: nat,
                             counts2d: seq<seq<int>>, binEdges: seq<real>,
                             startTimeSec: real, endTimeSec: real) returns (r: SpikeCounts, d: nat)
    requires forall row :: 0 <= row < |counts2d| ==> |counts2d[row]| == numUnits
    ensures var startBin := Floor(startTimeSec - recordingStartTimeSec);
            var endBin := Ceil(endTimeSec - recordingStartTimeSec);
            var counts := JsSlice(counts2d, startBin, endBin);
            var edges := JsSlice(binEdges, startBin, endBin + 1);
            && d >= 1 && endBin - startBin <= MaxBins * d && (d == 1 || endBin - startBin > MaxBins * (d - 1))
            && (d == 1 ==> r.counts == counts && r.binEdges == Defined(edges))
            && (d > 1 ==>
                  && r.counts == Aggregate(counts, numUnits, d)
                  && |r.binEdges| == |r.counts| + (if |edges| > 0 then 1 else 0)
                  && (forall b :: 0 <= b < |r.counts| ==> r.binEdges[b] == Get(edges, b * d))
                  && (|edges| > 0 ==> r.binEdges[|r.counts|] == Get(edges, Min(|edges| - 1, |r.counts| * d))))
  {
    var startBin := Floor(startTimeSec - recordingStartTimeSec);
    var endBin := Ceil(endTimeSec - recordingStartTimeSec);
    d := DownsamplingFactor(endBin - startBin);
    var counts := JsSlice(counts2d, startBin, endBin);
    var edges := JsSlice(binEdges, startBin, endBin + 1);
    if d == 1 {
      return SpikeCounts(Defined(edges), counts), d;
    }
    var dsCounts: seq<seq<int>> := [];
    var dsBinEdges: seq<Option<real>> := [];
    var i := 0;
    while i < |counts|
      invariant i == |dsCounts| * d && |dsBinEdges| == |dsCounts|
      invariant |dsCounts| <= CeilDiv(|counts|, d)
      invariant dsCounts == Aggregate(counts, numUnits, d)[..|dsCounts|]
      invariant forall b :: 0 <= b < |dsBinEdges| ==> dsBinEdges[b] == Get(edges, b * d)
      decreases |counts| - i
    {
      var aggCounts := AggregateBin(counts, numUnits, i, d);
      NextBin(|counts|, d, |dsCounts|);
      dsCounts := dsCounts + [aggCounts];
      dsBinEdges := dsBinEdges + [Get(edges, i)];
      i := i + d;
    }
    LastBin(|counts|, d, |dsCounts|);
    assert dsCounts == Aggregate(counts, numUnits, d);
    if |edges| > 0 {
      dsBinEdges := dsBinEdges + [Get(edges, Min(|edges| - 1, |dsBinEdges| * d))];
    }
    r := SpikeCounts(dsBinEdges, dsCounts);
  }

  /** `Math.floor`. */
  function Floor(x: real): int { x.Floor }

  /** Every element of a slice of `binEdges` is a defined number. */
  function Defined(edges: seq<real>): (r: seq<Option<real>>)
    ensures |r| == |edges| && forall i :: 0 <= i < |edges| ==> r[i] == Some(edges[i])
  {
    seq(|edges|, i requires 0 <= i < |edges| => Some(edges[i]))
  }

  lemma NextBin(len: nat, d: nat, b: nat)
    requires d >= 1 && b * d < len
    ensures b < CeilDiv(len, d) && (b + 1) * d == b * d + d
  {
    if b >= CeilDiv(len, d) {
      MulMono(CeilDiv(len, d), b, d);
    }
  }

  lemma LastBin(len: nat, d: nat, b: nat)
    requires d >= 1 && b * d >= len && b <= CeilDiv(len, d)
    ensures b == CeilDiv(len, d)
  {
    if b < CeilDiv(len, d) {
      MulMono(b + 1, CeilDiv(len, d), d);
    }
  }
}
