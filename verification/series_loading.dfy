/**
 * Loading a uniformly sampled time series for the timeseries graph: the
 * choice of pyramid level for the visible range, the clamped index window,
 * and the split of the interleaved (time x channel) slice into one array
 * per channel.
 *
 * The zarr read is a parameter (`raw`); a read past its end yields
 * `undefined`, which a Float32Array stores as NaN (`Missing`).
 */
module SeriesLoading {
  import opened Common
  import LinearDecode

  type Sample = LinearDecode.Sample

  // ---------------------------------------------------------------------
  // `selectDownsampleFactor`
  // ---------------------------------------------------------------------

  /**
   * `visibleTimepoints / factor > canvasWidth`. A zero factor divides to
   * Infinity (positive numerator), NaN (zero) or -Infinity (negative).
   */
  predicate Exceeds(visibleTimepoints: real, factor: nat, canvasWidth: real)
  {
    if factor == 0 then visibleTimepoints > 0.0 else visibleTimepoints / factor as real > canvasWidth
  }

  function NatKey(x: nat): int { x }

  /** The factors on offer: 1 (the raw data) and every stored pyramid factor. */
  function Available(downsampleFactors: seq<nat>): seq<nat>
  {
    [1] + downsampleFactors
  }

  /**
   * The largest available factor that still leaves more points than canvas
   * pixels; if none does, the smallest available factor (1 when that is 0).
   */
  method SelectDownsampleFactor(visibleTimepoints: real, canvasWidth: real, downsampleFactors: seq<nat>)
    returns (factor: nat)
    ensures factor in Available(downsampleFactors)
    ensures (exists g :: g in Available(downsampleFactors) && Exceeds(visibleTimepoints, g, canvasWidth)) ==>
              Exceeds(visibleTimepoints, factor, canvasWidth) &&
              forall g :: g in Available(downsampleFactors) && g > factor ==> !Exceeds(visibleTimepoints, g, canvasWidth)
    ensures (forall g :: g in Available(downsampleFactors) ==> !Exceeds(visibleTimepoints, g, canvasWidth)) ==>
              if 0 in Available(downsampleFactors) then factor == 1
              else forall g :: g in Available(downsampleFactors) ==> factor <= g
  {
    var candidates := Available(downsampleFactors);
    var availableFactors: seq<nat> := SortDesc<nat>(candidates, NatKey);
    SortedFactors(candidates);
    var i := 0;
    while i < |availableFactors|
      invariant 0 <= i <= |availableFactors|
      invariant forall j :: 0 <= j < i ==> !Exceeds(visibleTimepoints, availableFactors[j], canvasWidth)
    {
      if Exceeds(visibleTimepoints, availableFactors[i], canvasWidth) {
        factor := availableFactors[i];
        forall g | g in candidates && g > factor
          ensures !Exceeds(visibleTimepoints, g, canvasWidth)
        {
          var j :| 0 <= j < |availableFactors| && availableFactors[j] == g;
          assert j < i;
        }
        return;
      }
      i := i + 1;
    }
    var last := availableFactors[|availableFactors| - 1];
    forall g | g in candidates
      ensures last <= g && !Exceeds(visibleTimepoints, g, canvasWidth)
    {
      var j :| 0 <= j < |availableFactors| && availableFactors[j] == g;
    }
    factor := if last == 0 then 1 else last;
  }

  /** Sorting the candidates keeps exactly the same factors, largest first. */
  lemma SortedFactors(candidates: seq<nat>)
    requires |candidates| > 0
    ensures var sorted := SortDesc<nat>(candidates, NatKey);
            && |sorted| > 0
            && (forall g :: g in sorted <==> g in candidates)
            && forall i, j :: 0 <= i < j < |sorted| ==> sorted[i] >= sorted[j]
  {
    var sorted := SortDesc<nat>(candidates, NatKey);
    SortDescCorrect<nat>(candidates, NatKey);
    assert |sorted| == |multiset(sorted)| == |candidates|;
    forall g ensures g in sorted <==> g in candidates {
      assert g in sorted <==> g in multiset(sorted);
      assert g in candidates <==> g in multiset(candidates);
    }
    forall i, j | 0 <= i < j < |sorted| ensures sorted[i] >= sorted[j] {
      assert NatKey(sorted[i]) >= NatKey(sorted[j]);
    }
  }

  // ---------------------------------------------------------------------
  // The visible index window
  // ---------------------------------------------------------------------

  /** `Math.floor` on a real. */
  function Floor(x: real): int { x.Floor }

  /**
   * `startIndex = max(0, floor((t0 - start) * rate))` and
   * `endIndex = min(count - 1, ceil((t1 - start) * rate))`.
   */
  function IndexWindow(visibleStartTimeSec: real, visibleEndTimeSec: real, startTimeSec: real, rate: real, count: nat)
    : (w: (int, int))
    ensures 0 <= w.0 && w.1 <= count - 1
    ensures w.0 == Max(0, Floor((visibleStartTimeSec - startTimeSec) * rate))
    ensures w.1 == Min(count - 1, Ceil((visibleEndTimeSec - startTimeSec) * rate))
  {
    (Max(0, Floor((visibleStartTimeSec - startTimeSec) * rate)),
     Min(count - 1, Ceil((visibleEndTimeSec - startTimeSec) * rate)))
  }

  /** A window inside the recording reads a non-empty, in-range run of samples. */
  lemma WindowInRange(visibleStartTimeSec: real, visibleEndTimeSec: real, startTimeSec: real, rate: real, count: nat)
    requires count >= 1 && rate > 0.0
    requires startTimeSec <= visibleStartTimeSec <= visibleEndTimeSec
    requires (visibleStartTimeSec - startTimeSec) * rate < count as real
    ensures var w := IndexWindow(visibleStartTimeSec, visibleEndTimeSec, startTimeSec, rate, count);
            0 <= w.0 <= w.1 < count
  {
    var a := (visibleStartTimeSec - startTimeSec) * rate;
    var b := (visibleEndTimeSec - startTimeSec) * rate;
    assert 0.0 <= a <= b by {
      assert visibleEndTimeSec - startTimeSec >= visibleStartTimeSec - startTimeSec >= 0.0;
    }
    assert Floor(a) <= Ceil(b);
    assert Floor(a) < count;
  }

  /**
   * The time reported for a loaded window is that of its first sample: no
   * later than the visible start, and less than one sample period before it
   * (or the series start, when the visible range begins before the series).
   */
  lemma FirstSampleTime(visibleStartTimeSec: real, visibleEndTimeSec: real, startTimeSec: real, rate: real, count: nat)
    requires rate > 0.0
    ensures var w := IndexWindow(visibleStartTimeSec, visibleEndTimeSec, startTimeSec, rate, count);
            var t := WindowStartTime(startTimeSec, w.0, rate);
            && t.Value?
            && (visibleStartTimeSec <= startTimeSec ==> t.x == startTimeSec)
            && (startTimeSec <= visibleStartTimeSec ==> t.x <= visibleStartTimeSec < t.x + 1.0 / rate)
  {
    var a := (visibleStartTimeSec - startTimeSec) * rate;
    var f := Floor(a);
    if startTimeSec <= visibleStartTimeSec {
      assert 0.0 <= a;
      assert f as real <= a < f as real + 1.0;
      assert a / rate == visibleStartTimeSec - startTimeSec;
      assert f as real / rate <= a / rate;
      assert a / rate < (f as real + 1.0) / rate;
      assert (f as real + 1.0) / rate == f as real / rate + 1.0 / rate;
    } else {
      assert a < 0.0;
    }
  }

  datatype LoadError = InvalidArrayLength  // `new Float32Array(length)` with length < 0

  /**
   * What a loader returns: the per-channel arrays, the first index read, the
   * number of samples, the time of the first sample and the sampling rate of
   * the arrays.
   */
  datatype Loaded =
    | Loaded(data: seq<seq<Sample>>, startIndex: int, length: nat, startTimeSec: Sample, samplingFrequency: real)
    | LoadFailure(error: LoadError)

  /**
   * `startTimeSec + startIndex / rate`. A zero rate makes the window start at
   * index 0, and 0 / 0 is NaN.
   */
  function WindowStartTime(startTimeSec: real, startIndex: int, rate: real): Sample
  {
    if rate == 0.0 then LinearDecode.Missing else LinearDecode.Value(startTimeSec + startIndex as real / rate)
  }

  /** A cell of the flat slice; a read past its end is NaN. */
  function At(raw: seq<Sample>, k: nat): Sample
  {
    if k < |raw| then raw[k] else LinearDecode.Missing
  }

  // ---------------------------------------------------------------------
  // De-interleaving the original data (`loadOriginalData`)
  // ---------------------------------------------------------------------

  /** Channel `ch` of a (length x nChannels) row-major slice. */
  method OriginalChannel(raw: seq<Sample>, nChannels: nat, length: nat, ch: nat) returns (channelArray: array<Sample>)
    requires ch < nChannels
    ensures fresh(channelArray) && channelArray.Length == length
    ensures forall i :: 0 <= i < length ==> channelArray[i] == At(raw, i * nChannels + ch)
  {
    channelArray := new Sample[length](_ => LinearDecode.Missing);
    for i := 0 to length
      invariant forall j :: 0 <= j < i ==> channelArray[j] == At(raw, j * nChannels + ch)
    {
      channelArray[i] := At(raw, i * nChannels + ch);
    }
  }

  /** One array per channel, sample `i` of channel `ch` read from `raw[i * nChannels + ch]`. */
  method SplitOriginal(raw: seq<Sample>, nChannels: nat, length: nat) returns (channelData: seq<seq<Sample>>)
    ensures |channelData| == nChannels
    ensures forall ch :: 0 <= ch < nChannels ==> |channelData[ch]| == length
    ensures forall ch, i :: 0 <= ch < nChannels && 0 <= i < length ==>
              channelData[ch][i] == At(raw, i * nChannels + ch)
  {
    channelData := [];
    for ch := 0 to nChannels
      invariant |channelData| == ch
      invariant forall c :: 0 <= c < ch ==> |channelData[c]| == length
      invariant forall c, i :: 0 <= c < ch && 0 <= i < length ==> channelData[c][i] == At(raw, i * nChannels + c)
    {
      var channelArray := OriginalChannel(raw, nChannels, length, ch);
      channelData := channelData + [channelArray[..]];
    }
  }

  /** The row-major (time x channel) layout of per-channel series of equal length. */
  function Interleave(channels: seq<seq<Sample>>, length: nat): (raw: seq<Sample>)
    requires |channels| > 0 && forall c :: 0 <= c < |channels| ==> |channels[c]| == length
    ensures |raw| == length * |channels|
  {
    var n := |channels|;
    seq(length * n, k requires 0 <= k < length * n =>
      DivModBounds(k, n, length);
      channels[k % n][k / n])
  }

  lemma DivModBounds(k: nat, n: nat, length: nat)
    requires n > 0 && k < length * n
    ensures k % n < n && k / n < length
  {
    if k / n >= length {
      MulMono(length, k / n, n);
    }
  }

  /** Splitting an interleaved slice gives back the channels it was built from. */
  lemma SplitInterleaveRoundTrip(channels: seq<seq<Sample>>, length: nat, ch: nat, i: nat)
    requires |channels| > 0 && forall c :: 0 <= c < |channels| ==> |channels[c]| == length
    requires ch < |channels| && i < length
    ensures At(Interleave(channels, length), i * |channels| + ch) == channels[ch][i]
  {
    var n := |channels|;
    DivModUnique(i * n + ch, n, i, ch);
    MulMono(i + 1, length, n);
  }

  /** `loadOriginalData` after the read: the window, its length and the per-channel arrays. */
  method LoadOriginal(raw: seq<Sample>, nChannels: nat, nTimepoints: nat,
                      startTimeSec: real, samplingFrequencyHz: real,
                      visibleStartTimeSec: real, visibleEndTimeSec: real) returns (r: Loaded)
    ensures var w := IndexWindow(visibleStartTimeSec, visibleEndTimeSec, startTimeSec, samplingFrequencyHz, nTimepoints);
            && (r.LoadFailure? <==> w.1 - w.0 + 1 < 0)
            && (r.Loaded? ==>
                  && r.startIndex == w.0 && r.length == w.1 - w.0 + 1
                  && r.startTimeSec == WindowStartTime(startTimeSec, w.0, samplingFrequencyHz)
                  && r.samplingFrequency == samplingFrequencyHz
                  && |r.data| == nChannels
                  && (forall ch :: 0 <= ch < nChannels ==> |r.data[ch]| == r.length)
                  && forall ch, i :: 0 <= ch < nChannels && 0 <= i < r.length ==>
                       r.data[ch][i] == At(raw, i * nChannels + ch))
  {
    var w := IndexWindow(visibleStartTimeSec, visibleEndTimeSec, startTimeSec, samplingFrequencyHz, nTimepoints);
    var length := w.1 - w.0 + 1;
    if length < 0 {
      return LoadFailure(InvalidArrayLength);
    }
    var channelData := SplitOriginal(raw, nChannels, length);
    r := Loaded(channelData, w.0, length, WindowStartTime(startTimeSec, w.0, samplingFrequencyHz), samplingFrequencyHz);
  }

  // ---------------------------------------------------------------------
  // Min/max pairs of a pyramid level (`loadDownsampledData`)
  // ---------------------------------------------------------------------

  /** Offset of (time i, min-or-max m, channel ch) in a [length][2][nChannels] slice. */
  function MinMaxOffset(i: nat, m: nat, ch: nat, nChannels: nat): nat
  {
    i * 2 * nChannels + m * nChannels + ch
  }

  /** Channel `ch` as interleaved min/max pairs. */
  method MinMaxChannel(raw: seq<Sample>, nChannels: nat, length: nat, ch: nat) returns (channelArray: array<Sample>)
    requires ch < nChannels
    ensures fresh(channelArray) && channelArray.Length == 2 * length
    ensures forall i :: 0 <= i < length ==>
              channelArray[2 * i] == At(raw, MinMaxOffset(i, 0, ch, nChannels)) &&
              channelArray[2 * i + 1] == At(raw, MinMaxOffset(i, 1, ch, nChannels))
  {
    channelArray := new Sample[length * 2](_ => LinearDecode.Missing);
    for i := 0 to length
      invariant forall j :: 0 <= j < i ==>
                  channelArray[2 * j] == At(raw, MinMaxOffset(j, 0, ch, nChannels)) &&
                  channelArray[2 * j + 1] == At(raw, MinMaxOffset(j, 1, ch, nChannels))
    {
      var minValue := At(raw, i * 2 * nChannels + 0 * nChannels + ch);
      var maxValue := At(raw, i * 2 * nChannels + 1 * nChannels + ch);
      channelArray[i * 2] := minValue;
      channelArray[i * 2 + 1] := maxValue;
    }
  }

  method SplitMinMax(raw: seq<Sample>, nChannels: nat, length: nat) returns (channelData: seq<seq<Sample>>)
    ensures |channelData| == nChannels
    ensures forall ch :: 0 <= ch < nChannels ==> |channelData[ch]| == 2 * length
    ensures forall ch, i :: 0 <= ch < nChannels && 0 <= i < length ==>
              channelData[ch][2 * i] == At(raw, MinMaxOffset(i, 0, ch, nChannels)) &&
              channelData[ch][2 * i + 1] == At(raw, MinMaxOffset(i, 1, ch, nChannels))
  {
    channelData := [];
    for ch := 0 to nChannels
      invariant |channelData| == ch
      invariant forall c :: 0 <= c < ch ==> |channelData[c]| == 2 * length
      invariant forall c, i :: 0 <= c < ch && 0 <= i < length ==>
                  channelData[c][2 * i] == At(raw, MinMaxOffset(i, 0, c, nChannels)) &&
                  channelData[c][2 * i + 1] == At(raw, MinMaxOffset(i, 1, c, nChannels))
    {
      var channelArray := MinMaxChannel(raw, nChannels, length, ch);
      channelData := channelData + [channelArray[..]];
    }
  }

  /** Distinct (time, min/max, channel) cells sit at distinct offsets, so no two outputs share a cell. */
  lemma MinMaxOffsetInjective(i: nat, m: nat, ch: nat, i': nat, m': nat, ch': nat, nChannels: nat)
    requires m < 2 && m' < 2 && ch < nChannels && ch' < nChannels
    requires MinMaxOffset(i, m, ch, nChannels) == MinMaxOffset(i', m', ch', nChannels)
    ensures i == i' && m == m' && ch == ch'
  {
    var k := MinMaxOffset(i, m, ch, nChannels);
    OffsetRow(i, m, ch, nChannels);
    OffsetRow(i', m', ch', nChannels);
    assert 2 * i + m == 2 * i' + m' && ch == ch' by {
      DivModUnique(k, nChannels, 2 * i + m, ch);
      DivModUnique(k, nChannels, 2 * i' + m', ch');
    }
  }

  /** The offset counts whole rows of `nChannels` values, two rows (min, max) per bin. */
  lemma OffsetRow(i: nat, m: nat, ch: nat, nChannels: nat)
    ensures MinMaxOffset(i, m, ch, nChannels) == (2 * i + m) * nChannels + ch
  {
  }

  /** `loadDownsampledData` after the read: the window on the level and the per-channel min/max pairs. */
  method LoadDownsampled(raw: seq<Sample>, nChannels: nat, nTimepoints: nat, downsampleFactor: nat,
                         startTimeSec: real, samplingFrequencyHz: real,
                         visibleStartTimeSec: real, visibleEndTimeSec: real) returns (r: Loaded)
    requires downsampleFactor > 0
    ensures var w := IndexWindow(visibleStartTimeSec, visibleEndTimeSec, startTimeSec,
                                 samplingFrequencyHz / downsampleFactor as real, CeilDiv(nTimepoints, downsampleFactor));
            && (r.LoadFailure? <==> w.1 - w.0 + 1 < 0)
            && (r.Loaded? ==>
                  && r.startIndex == w.0 && r.length == w.1 - w.0 + 1
                  && r.samplingFrequency == samplingFrequencyHz / downsampleFactor as real
                  && r.startTimeSec == WindowStartTime(startTimeSec, w.0, r.samplingFrequency)
                  && |r.data| == nChannels
                  && (forall ch :: 0 <= ch < nChannels ==> |r.data[ch]| == 2 * r.length)
                  && forall ch, i :: 0 <= ch < nChannels && 0 <= i < r.length ==>
                       r.data[ch][2 * i] == At(raw, MinMaxOffset(i, 0, ch, nChannels)) &&
                       r.data[ch][2 * i + 1] == At(raw, MinMaxOffset(i, 1, ch, nChannels)))
  {
    var downsampledLength := CeilDiv(nTimepoints, downsampleFactor);
    var downsampledSamplingFreq := samplingFrequencyHz / downsampleFactor as real;
    var w := IndexWindow(visibleStartTimeSec, visibleEndTimeSec, startTimeSec, downsampledSamplingFreq, downsampledLength);
    var length := w.1 - w.0 + 1;
    if length < 0 {
      return LoadFailure(InvalidArrayLength);
    }
    var channelData := SplitMinMax(raw, nChannels, length);
    r := Loaded(channelData, w.0, length, WindowStartTime(startTimeSec, w.0, downsampledSamplingFreq),
                downsampledSamplingFreq);
  }
}
