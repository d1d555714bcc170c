/**
 * The LinearDecode view: a max-pooling pyramid over a (time x position)
 * array at factors 4, 16, 64, ..., and the chunk shape used to store the
 * array and each pyramid level.
 *
 * NaN cells are modelled by `Missing`; `NanMax` ignores them the way
 * numpy's `nanmax` does, and a block holding only NaN pools to NaN.
 */
module LinearDecode {
  import opened Common

  /** One float cell of the array; `Missing` stands for NaN. */
  datatype Sample = Missing | Value(x: real)

  /** Rows are time bins, columns are positions. */
  type Matrix = seq<seq<Sample>>

  predicate Rectangular(m: Matrix, cols: nat)
  {
    forall i :: 0 <= i < |m| ==> |m[i]| == cols
  }

  /** numpy `nanmax` of two cells. */
  function NanMax(a: Sample, b: Sample): (r: Sample)
    ensures r == a || r == b
    ensures r.Missing? <==> a.Missing? && b.Missing?
    ensures a.Value? ==> r.Value? && r.x >= a.x
    ensures b.Value? ==> r.Value? && r.x >= b.x
  {
    match (a, b)
    case (Missing, _) => b
    case (_, Missing) => a
    case (Value(x), Value(y)) => if x >= y then a else b
  }

  /** numpy `nanmax` of column `c` over rows [lo, hi). */
  function ColumnMax(m: Matrix, cols: nat, c: nat, lo: nat, hi: nat): (r: Sample)
    requires Rectangular(m, cols) && c < cols && lo <= hi <= |m|
    ensures r.Missing? <==> forall i :: lo <= i < hi ==> m[i][c].Missing?
    ensures forall i :: lo <= i < hi && m[i][c].Value? ==> r.Value? && r.x >= m[i][c].x
    ensures r.Value? ==> exists i :: lo <= i < hi && m[i][c] == r
    decreases hi - lo
  {
    if lo == hi then Missing else NanMax(ColumnMax(m, cols, c, lo, hi - 1), m[hi - 1][c])
  }

  /**
   * One pyramid step: pad the time axis with NaN up to a multiple of 4,
   * then pool every 4 consecutive rows with `nanmax`.
   */
  function Downsample4(m: Matrix, cols: nat): (r: Matrix)
    requires Rectangular(m, cols)
    ensures |r| == CeilDiv(|m|, 4) && Rectangular(r, cols)
  {
    var bins := CeilDiv(|m|, 4);
    seq(bins, b requires 0 <= b < bins =>
      seq(cols, c requires 0 <= c < cols => ColumnMax(m, cols, c, 4 * b, Min(4 * b + 4, |m|))))
  }

  /** The pyramid level of factor 4^k (k >= 1), each built from the one below. */
  function Level(data: Matrix, cols: nat, k: nat): (r: Matrix)
    requires Rectangular(data, cols) && k >= 1
    ensures Rectangular(r, cols)
  {
    if k == 1 then Downsample4(data, cols) else Downsample4(Level(data, cols, k - 1), cols)
  }

  /**
   * `_compute_downsampled_data`. The returned dict is modelled as two aligned
   * sequences: its keys in insertion order (which become the
   * `downsample_factors` attribute) and the level stored under each key.
   * The loop test `factor < N / 1000` is written `factor * 1000 < N`.
   */
  method ComputeDownsampledData(data: Matrix, cols: nat) returns (factors: seq<nat>, levels: seq<Matrix>)
    requires Rectangular(data, cols)
    ensures |levels| == |factors|
    ensures |data| < 4 ==> factors == []
    ensures |data| >= 4 ==> |factors| >= 1 && factors[0] == 4
    ensures forall i :: 0 <= i < |factors| ==> factors[i] == Pow(4, i + 1)
    ensures forall i :: 1 <= i < |factors| ==> factors[i] * 1000 < |data|
    ensures |data| >= 4 ==> Pow(4, |factors| + 1) * 1000 >= |data|
    ensures forall i :: 0 <= i < |factors| ==> levels[i] == Level(data, cols, i + 1)
  {
    var n := |data|;
    if n < 4 {
      return [], [];
    }
    var factor: nat := 4;
    var level := Downsample4(data, cols);
    factors := [factor];
    levels := [level];
    factor := factor * 4;
    while factor * 1000 < n
      invariant |factors| >= 1 && factors == PowersOfFour(|factors|)
      invariant levels == Levels(data, cols, |factors|)
      invariant factor == Pow(4, |factors| + 1)
      invariant forall i :: 1 <= i < |factors| ==> factors[i] * 1000 < n
      invariant level == Level(data, cols, |factors|)
      decreases n - factor
    {
      LevelStep(data, cols, |factors|);
      level := Downsample4(level, cols);
      factors := factors + [factor];
      levels := levels + [level];
      factor := factor * 4;
    }
    PowersOfFourIndex(|factors|);
    LevelsIndex(data, cols, |factors|);
  }

  /** The pyramid levels 1..n. */
  function Levels(data: Matrix, cols: nat, n: nat): (r: seq<Matrix>)
    requires Rectangular(data, cols)
    ensures |r| == n
  {
    if n == 0 then [] else Levels(data, cols, n - 1) + [Level(data, cols, n)]
  }

  lemma {:induction false} LevelsIndex(data: Matrix, cols: nat, n: nat)
    requires Rectangular(data, cols)
    ensures forall i :: 0 <= i < n ==> Levels(data, cols, n)[i] == Level(data, cols, i + 1)
  {
    if n > 0 {
      LevelsIndex(data, cols, n - 1);
    }
  }

  /** Each level is the 4x reduction of the one before. */
  lemma LevelStep(data: Matrix, cols: nat, k: nat)
    requires Rectangular(data, cols) && k >= 1
    ensures Level(data, cols, k + 1) == Downsample4(Level(data, cols, k), cols)
  {
  }

  /** The dataset name each level is stored under in the zarr group. */
  function LevelDatasetName(factor: nat): string
  {
    "data_ds_" + NatToString(factor)
  }

  /** Distinct factors are stored under distinct dataset names. */
  lemma LevelDatasetNamesDistinct(f: nat, g: nat)
    requires LevelDatasetName(f) == LevelDatasetName(g)
    ensures f == g
  {
    var p := "data_ds_";
    assert LevelDatasetName(f)[|p|..] == NatToString(f);
    assert LevelDatasetName(g)[|p|..] == NatToString(g);
    NatToStringInjective(f, g);
  }

  // ---------------------------------------------------------------------
  // Laws of the pyramid
  // ---------------------------------------------------------------------

  /** Each cell of a step is the NaN-ignoring max of the (at most 4) cells it pools. */
  lemma Downsample4Pools(m: Matrix, cols: nat, b: nat, c: nat)
    requires Rectangular(m, cols) && c < cols && b < |Downsample4(m, cols)|
    ensures var cell := Downsample4(m, cols)[b][c];
            var lo, hi := 4 * b, Min(4 * b + 4, |m|);
            && lo < hi <= lo + 4
            && (cell.Missing? <==> forall i :: lo <= i < hi ==> m[i][c].Missing?)
            && (forall i :: lo <= i < hi && m[i][c].Value? ==> cell.Value? && cell.x >= m[i][c].x)
            && (cell.Value? ==> exists i :: lo <= i < hi && m[i][c] == cell)
  {
  }

  /** The row of level k that covers raw row i: i divided by 4, k times. */
  function Cover(i: nat, k: nat): nat
  {
    if k == 0 then i else Cover(i, k - 1) / 4
  }

  /** Max dominance: a raw value never exceeds the cell that covers it, at any level. */
  lemma {:induction false} LevelDominates(data: Matrix, cols: nat, k: nat, i: nat, c: nat)
    requires Rectangular(data, cols) && k >= 1 && i < |data| && c < cols && data[i][c].Value?
    ensures Cover(i, k) < |Level(data, cols, k)|
    ensures var cell := Level(data, cols, k)[Cover(i, k)][c]; cell.Value? && cell.x >= data[i][c].x
    decreases k
  {
    if k == 1 {
      Downsample4Pools(data, cols, i / 4, c);
    } else {
      LevelDominates(data, cols, k - 1, i, c);
      var prev := Level(data, cols, k - 1);
      Downsample4Pools(prev, cols, Cover(i, k - 1) / 4, c);
    }
  }

  // ---------------------------------------------------------------------
  // Chunk shape (`_calculate_optimal_chunk_size`)
  // ---------------------------------------------------------------------

  datatype ChunkError =
    | DivisionByZero   // n_frequencies == 0: float floor division by zero
    | LogOfZero        // fewer than one row fits the budget: math.log2(0)

  datatype ChunkResult = Chunk(rows: nat, columns: nat) | ChunkFailure(error: ChunkError)

  const BytesPerElement: nat := 4
  const TargetBytes: nat := 5 * 1024 * 1024

  predicate IsPow2(n: nat)
  {
    n == 1 || (n >= 2 && n % 2 == 0 && IsPow2(n / 2))
  }

  function PowerOfTwo(e: nat): nat
  {
    Pow(2, e)
  }

  /** floor(log2(n)) for n >= 1 (0 for n == 0, where the source fails before using it). */
  function Log2Floor(n: nat): nat
  {
    if n <= 1 then 0 else 1 + Log2Floor(n / 2)
  }

  /** 2^floor(log2 n) is the largest power of two not above n. */
  lemma {:induction false} Log2FloorBounds(n: nat)
    requires n >= 1
    ensures IsPow2(Pow(2, Log2Floor(n)))
    ensures Pow(2, Log2Floor(n)) <= n < 2 * Pow(2, Log2Floor(n))
    decreases n
  {
    if n > 1 {
      Log2FloorBounds(n / 2);
      var p := Pow(2, Log2Floor(n / 2));
      assert Pow(2, Log2Floor(n)) == 2 * p;
      assert (2 * p) / 2 == p;
    }
  }

  /**
   * Rows per chunk: the largest power of two whose rows fit in 5 MiB,
   * at least 1 and at most n_timepoints; columns are never split.
   */
  function ChunkShape(nTimepoints: nat, nFrequencies: nat): (r: ChunkResult)
    ensures r.ChunkFailure? <==> nFrequencies == 0 || nFrequencies * BytesPerElement > TargetBytes
    ensures r.ChunkFailure? ==> (r.error == DivisionByZero <==> nFrequencies == 0)
    ensures r.Chunk? ==> r.columns == nFrequencies
    ensures r.Chunk? ==> r.rows <= nTimepoints && (nTimepoints >= 1 ==> r.rows >= 1)
    ensures r.Chunk? ==> r.rows * (nFrequencies * BytesPerElement) <= TargetBytes
    ensures r.Chunk? && r.rows < nTimepoints ==>
              IsPow2(r.rows) && 2 * r.rows * (nFrequencies * BytesPerElement) > TargetBytes
  {
    if nFrequencies == 0 then ChunkFailure(DivisionByZero)
    else
      var rowBytes := nFrequencies * BytesPerElement;
      var maxRows := TargetBytes / rowBytes;
      if maxRows == 0 then
        DivBounds(TargetBytes, rowBytes);
        ChunkFailure(LogOfZero)
      else
        var pow := PowerOfTwo(Log2Floor(maxRows));
        var atLeastOne := Max(pow, 1);
        var rows := Min(atLeastOne, nTimepoints);
        var rows' := if rows > nTimepoints then PowerOfTwo(Log2Floor(nTimepoints)) else rows;
        ChunkShapeFacts(maxRows, rowBytes, pow, rows');
        Chunk(rows', nFrequencies)
  }

  lemma ChunkShapeFacts(maxRows: nat, rowBytes: nat, pow: nat, rows: nat)
    requires rowBytes > 0 && maxRows == TargetBytes / rowBytes && maxRows >= 1
    requires pow == PowerOfTwo(Log2Floor(maxRows)) && rows <= pow
    ensures rows * rowBytes <= TargetBytes && rowBytes <= TargetBytes
    ensures IsPow2(pow) && 2 * pow * rowBytes > TargetBytes && pow >= 1
  {
    Log2FloorBounds(maxRows);
    DivBounds(TargetBytes, rowBytes);
    MulMono(rows, maxRows, rowBytes);
    MulMono(maxRows + 1, 2 * pow, rowBytes);
    MulMono(1, maxRows, rowBytes);
  }

  /** The source's fallback for `chunk_timepoints > n_timepoints` can never run. */
  lemma ChunkFallbackUnreachable(nTimepoints: nat, nFrequencies: nat)
    requires ChunkShape(nTimepoints, nFrequencies).Chunk?
    ensures ChunkShape(nTimepoints, nFrequencies).rows
         == Min(Max(PowerOfTwo(Log2Floor(TargetBytes / (nFrequencies * BytesPerElement))), 1), nTimepoints)
  {
  }
}
