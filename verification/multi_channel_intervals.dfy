/**
 * The MultiChannelIntervals view: the checks its constructor makes on the
 * (interval x timepoint x channel) array, the channel ids it stores, and
 * the chunk shape used to write the array.
 */
module MultiChannelIntervals {
  import opened Common

  /** A user-supplied channel id: the source accepts strings and integers. */
  datatype ChannelId = StrId(s: string) | IntId(n: int)

  /** `str(ch_id)`. */
  function ChannelIdText(id: ChannelId): string
  {
    match id
    case StrId(s) => s
    case IntId(n) => IntToString(n)
  }

  datatype ViewError =
    | NotThreeDimensional     // data.ndim != 3
    | NonPositiveSamplingRate // sampling_frequency_hz <= 0
    | ChannelIdCountMismatch  // len(channel_ids) != n_channels

  datatype ViewResult =
    | View(nIntervals: nat, nTimepoints: nat, nChannels: nat, channelIds: seq<string>)
    | Rejected(error: ViewError)

  /** The default id of channel i. */
  function DefaultChannelId(i: nat): string
  {
    "ch_" + NatToString(i)
  }

  /**
   * The constructor's checks, in source order, and the channel ids it keeps.
   * `shape` is the array's shape (its length is `ndim`).
   */
  function MakeView(shape: seq<nat>, samplingFrequencyHz: real, channelIds: Option<seq<ChannelId>>): (r: ViewResult)
    ensures r.View? <==>
              |shape| == 3 && samplingFrequencyHz > 0.0 &&
              (channelIds.Some? ==> |channelIds.value| == shape[2])
    ensures r.Rejected? && |shape| != 3 ==> r.error == NotThreeDimensional
    ensures r.Rejected? && |shape| == 3 && samplingFrequencyHz <= 0.0 ==> r.error == NonPositiveSamplingRate
    ensures r.View? ==> r.nIntervals == shape[0] && r.nTimepoints == shape[1] && r.nChannels == shape[2]
    ensures r.View? ==> |r.channelIds| == r.nChannels
    ensures r.View? && channelIds.None? ==>
              forall i :: 0 <= i < |r.channelIds| ==> r.channelIds[i] == DefaultChannelId(i)
    ensures r.View? && channelIds.Some? ==>
              forall i :: 0 <= i < |r.channelIds| ==> r.channelIds[i] == ChannelIdText(channelIds.value[i])
  {
    if |shape| != 3 then Rejected(NotThreeDimensional)
    else if samplingFrequencyHz <= 0.0 then Rejected(NonPositiveSamplingRate)
    else
      var nChannels := shape[2];
      match channelIds
      case None =>
        View(shape[0], shape[1], nChannels, seq(nChannels, i requires 0 <= i < nChannels => DefaultChannelId(i)))
      case Some(ids) =>
        if |ids| != nChannels then Rejected(ChannelIdCountMismatch)
        else View(shape[0], shape[1], nChannels, seq(nChannels, i requires 0 <= i < nChannels => ChannelIdText(ids[i])))
  }

  /** Default ids are distinct, so no two channels share a label. */
  lemma DefaultChannelIdsDistinct(i: nat, j: nat)
    requires DefaultChannelId(i) == DefaultChannelId(j)
    ensures i == j
  {
    assert DefaultChannelId(i)[3..] == NatToString(i);
    assert DefaultChannelId(j)[3..] == NatToString(j);
    NatToStringInjective(i, j);
  }

  // ---------------------------------------------------------------------
  // Chunk shape
  // ---------------------------------------------------------------------

  const TargetChunkBytes: nat := 5 * 1024 * 1024
  const BytesPerElement: nat := 4

  datatype ChunkResult =
    | Chunk(intervals: nat, timepoints: nat, channels: nat)
    | DivisionByZero   // a zero timepoint or channel count makes the divisor 0

  /** The bytes of one interval: every timepoint of every channel, 4 bytes each. */
  function IntervalBytes(nTimepoints: nat, nChannels: nat): nat
  {
    nTimepoints * nChannels * BytesPerElement
  }

  lemma IntervalBytesZero(nTimepoints: nat, nChannels: nat)
    ensures IntervalBytes(nTimepoints, nChannels) == 0 <==> nTimepoints == 0 || nChannels == 0
  {
    if nTimepoints > 0 && nChannels > 0 {
      MulMono(1, nTimepoints, nChannels);
    }
  }

  /**
   * `_calculate_optimal_chunk_size`: whole intervals per chunk, as many as
   * fit in 5 MiB, at least 1, at most n_intervals; the timepoint and channel
   * dimensions are never split.
   */
  function IntervalChunk(nIntervals: nat, nTimepoints: nat, nChannels: nat): (r: ChunkResult)
    ensures r.DivisionByZero? <==> nTimepoints == 0 || nChannels == 0
    ensures r.Chunk? ==> r.timepoints == nTimepoints && r.channels == nChannels
    ensures r.Chunk? ==> r.intervals <= nIntervals && (nIntervals >= 1 ==> r.intervals >= 1)
    ensures r.Chunk? && r.intervals > 1 ==>
              r.intervals * IntervalBytes(nTimepoints, nChannels) <= TargetChunkBytes
    ensures r.Chunk? && r.intervals < nIntervals ==>
              (r.intervals + 1) * IntervalBytes(nTimepoints, nChannels) > TargetChunkBytes
  {
    var bytesPerInterval := IntervalBytes(nTimepoints, nChannels);
    IntervalBytesZero(nTimepoints, nChannels);
    if bytesPerInterval == 0 then DivisionByZero
    else
      IntervalChunkFacts(nIntervals, bytesPerInterval);
      Chunk(Min(Max(TargetChunkBytes / bytesPerInterval, 1), nIntervals), nTimepoints, nChannels)
  }

  /** At most as many whole intervals as fit in the target, and at least one. */
  lemma IntervalChunkFacts(nIntervals: nat, bytes: nat)
    requires bytes > 0
    ensures var rows := Min(Max(TargetChunkBytes / bytes, 1), nIntervals);
            && 0 <= rows <= nIntervals && (nIntervals >= 1 ==> rows >= 1)
            && (rows > 1 ==> rows * bytes <= TargetChunkBytes)
            && (rows < nIntervals ==> (rows + 1) * bytes > TargetChunkBytes)
  {
    var fit := TargetChunkBytes / bytes;
    DivBounds(TargetChunkBytes, bytes);
    var rows := Min(Max(fit, 1), nIntervals);
    if rows > 1 {
      MulMono(rows, fit, bytes);
    }
    if rows < nIntervals && fit == 0 {
      MulMono(1, 2, bytes);
    }
  }

}
