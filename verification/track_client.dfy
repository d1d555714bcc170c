/**
 * The track-animation data client: per-frame reads of a figure's datasets,
 * with the sparse probability field of a frame located by a cumulative sum
 * over per-frame lengths and kept in a cache of at most 50 frames that
 * evicts the frame cached first.
 *
 * The zarr group is a `Store` parameter holding each dataset in full (or
 * nothing when it is missing); reading a slice of a dataset takes the part
 * of the range that exists.
 */
module TrackClient {
  import opened Common

  const MaxCacheSize: nat := 50

  datatype Store = Store(
    frameBounds: Option<seq<nat>>,
    locations: Option<seq<int>>,
    values: Option<seq<real>>,
    /** The (2 x frames) position dataset, row by row. */
    positions: Option<seq<seq<real>>>,
    headDirection: Option<seq<real>>,
    timestamps: Option<seq<real>>,
    trackBinCorners: Option<seq<real>>)

  /** The sparse probability field of one frame. `maxValue` is `None` for `Math.max()` of nothing, -Infinity. */
  datatype FieldData = FieldData(locations: seq<int>, values: seq<real>, maxValue: Option<real>)

  /** The outcome of a probability-field read: the data, `null`, or the NaN-range case this model treats as a failed read. */
  datatype Load = Loaded(data: FieldData) | NoData | InvalidSlice

  /** Elements `start` up to `end` of a dataset, as far as they exist. */
  function Window<T>(data: seq<T>, start: nat, end: nat): (w: seq<T>)
    ensures |w| <= |data|
    ensures start <= end <= |data| ==> w == data[start..end]
  {
    var a := Min(start, |data|);
    var b := Min(end, |data|);
    if a >= b then [] else data[a..b]
  }

  /** `Math.max(...values)`. */
  function MaxOf(values: seq<real>): (m: Option<real>)
    ensures m.None? <==> |values| == 0
    ensures m.Some? ==> m.value in values && forall v :: v in values ==> v <= m.value
  {
    if |values| == 0 then None
    else
      var rest := MaxOf(values[..|values| - 1]);
      var last := values[|values| - 1];
      assert values == values[..|values| - 1] + [last];
      if rest.None? || last > rest.value then Some(last) else rest
  }

  /** Where frame `frame` starts in the location and value datasets: the total length of the frames before it. */
  function FrameOffset(frameLengths: seq<nat>, frame: nat): nat
    requires frame <= |frameLengths|
  {
    SumNonNegative(frameLengths[..frame]);
    Sum(frameLengths[..frame])
  }

  lemma {:induction false} SumNonNegative(s: seq<nat>)
    ensures Sum(s) >= 0
    decreases |s|
  {
    if |s| > 0 {
      SumNonNegative(s[..|s| - 1]);
    }
  }

  /** The cumulative-sum loop: the first entry of a frame is the total length of the frames before it. */
  method FrameStart(frameLengths: seq<nat>, frame: nat) returns (frameStart: nat)
    requires frame <= |frameLengths|
    ensures frameStart == FrameOffset(frameLengths, frame)
  {
    frameStart := 0;
    for i := 0 to frame
      invariant frameStart == FrameOffset(frameLengths, i)
    {
      assert frameLengths[..i + 1][..i] == frameLengths[..i];
      frameStart := frameStart + frameLengths[i];
    }
  }

  /**
   * Reading a frame's probability field from the store: the frame lengths
   * up to this frame, the cumulative sum, and the locations and values in
   * the frame's range. A frame past the end of the length dataset makes the
   * range NaN; the zarr reader's answer to a NaN slice is not part of this
   * model, which answers `InvalidSlice` there.
   */
  function LoadField(store: Store, frame: nat): Load
  {
    if store.frameBounds.None? then NoData
    else
      var frameLengths := Window(store.frameBounds.value, 0, frame + 1);
      if |frameLengths| == 0 then NoData
      else if frame >= |frameLengths| then InvalidSlice
      else
        var frameStart := FrameOffset(frameLengths, frame);
        var frameLength := frameLengths[frame];
        var frameEnd := frameStart + frameLength;
        if frameLength == 0 then NoData
        else if store.locations.None? || store.values.None? then NoData
        else
          var values := Window(store.values.value, frameStart, frameEnd);
          Loaded(FieldData(Window(store.locations.value, frameStart, frameEnd), values, MaxOf(values)))
  }

  /** Each frame ends where the next one starts. */
  lemma FramesAdjacent(frameLengths: seq<nat>, frame: nat)
    requires frame < |frameLengths|
    ensures FrameOffset(frameLengths, frame + 1) == FrameOffset(frameLengths, frame) + frameLengths[frame]
  {
    assert frameLengths[..frame + 1][..frame] == frameLengths[..frame];
  }

  /** Frames occupy consecutive ranges that do not overlap: a frame ends no later than any later frame starts. */
  lemma {:induction false} FramesOrdered(frameLengths: seq<nat>, frame: nat, later: nat)
    requires frame < later <= |frameLengths|
    ensures FrameOffset(frameLengths, frame) + frameLengths[frame] <= FrameOffset(frameLengths, later)
    decreases later - frame
  {
    FramesAdjacent(frameLengths, frame);
    if later > frame + 1 {
      FramesOrdered(frameLengths, frame + 1, later);
      SumNonNegative([frameLengths[frame + 1]]);
    }
  }

  /**
   * A frame's field is found exactly when the length dataset covers the
   * frame, the frame is not empty and both sparse datasets exist; it then
   * holds the locations and values of the frame's range in the whole
   * length dataset, and the largest of those values.
   */
  lemma LoadFieldSpec(store: Store, frame: nat)
    ensures LoadField(store, frame).Loaded? <==>
              && store.frameBounds.Some? && frame < |store.frameBounds.value|
              && store.frameBounds.value[frame] > 0
              && store.locations.Some? && store.values.Some?
    ensures LoadField(store, frame) == InvalidSlice <==>
              store.frameBounds.Some? && 0 < |store.frameBounds.value| <= frame
    ensures LoadField(store, frame).Loaded? ==>
              var lengths := store.frameBounds.value;
              var start := FrameOffset(lengths, frame);
              var end := start + lengths[frame];
              var data := LoadField(store, frame).data;
              && data.locations == Window(store.locations.value, start, end)
              && data.values == Window(store.values.value, start, end)
              && data.maxValue == MaxOf(data.values)
  {
    if store.frameBounds.Some? && frame < |store.frameBounds.value| {
      var lengths := store.frameBounds.value;
      var frameLengths := Window(lengths, 0, frame + 1);
      assert frameLengths == lengths[..frame + 1];
      assert frameLengths[..frame] == lengths[..frame];
    }
  }

  // ---------------------------------------------------------------------
  // The probability-field cache
  // ---------------------------------------------------------------------

  predicate NoRepeats(s: seq<nat>)
  {
    forall i, j :: 0 <= i < j < |s| ==> s[i] != s[j]
  }

  /** A cache in insertion order: the frames it holds, each once, at most 50 of them. */
  ghost predicate CacheShape(order: seq<nat>, cache: map<nat, FieldData>)
  {
    && |order| <= MaxCacheSize
    && NoRepeats(order)
    && forall frame :: frame in cache <==> frame in order
  }

  /** The frames in insertion order after caching `frame`, the first one dropped when there are over 50. */
  function InsertOrder(order: seq<nat>, frame: nat): seq<nat>
  {
    var grown := order + [frame];
    if |grown| > MaxCacheSize then grown[1..] else grown
  }

  /** The cache after `set(frame, data)` and, when it then holds over 50 frames, deleting its first key. */
  function InsertCache(cache: map<nat, FieldData>, order: seq<nat>, frame: nat, data: FieldData): map<nat, FieldData>
  {
    var grown := cache[frame := data];
    if |order| + 1 > MaxCacheSize && |order| > 0 then grown - {order[0]} else grown
  }

  /** Caching a new frame keeps the cache in shape: still at most 50 frames, each once. */
  lemma InsertKeepsShape(order: seq<nat>, cache: map<nat, FieldData>, frame: nat, data: FieldData)
    requires CacheShape(order, cache) && frame !in cache
    ensures CacheShape(InsertOrder(order, frame), InsertCache(cache, order, frame, data))
  {
    var grown := order + [frame];
    assert forall k :: k in grown <==> k in order || k == frame;
    if |grown| > MaxCacheSize {
      assert grown[0] == order[0];
      forall k
        ensures k in grown[1..] <==> k in grown && k != order[0]
      {
        if k in grown[1..] {
          var i :| 0 <= i < |grown[1..]| && grown[1..][i] == k;
          assert grown[i + 1] == k;
        }
        if k in grown && k != order[0] {
          var i :| 0 <= i < |grown| && grown[i] == k;
          assert i != 0;
          assert grown[1..][i - 1] == k;
        }
      }
    }
  }

  /** The frame just cached is in the cache with its data: a repeated read of it is a hit. */
  lemma InsertedIsCached(order: seq<nat>, cache: map<nat, FieldData>, frame: nat, data: FieldData)
    requires CacheShape(order, cache) && frame !in cache
    ensures var c := InsertCache(cache, order, frame, data); frame in c && c[frame] == data
  {
  }

  /**
   * A full cache evicts the frame cached first, and only it: every other
   * frame stays, in order, followed by the new one.
   */
  lemma EvictsOldest(order: seq<nat>, cache: map<nat, FieldData>, frame: nat, data: FieldData)
    requires CacheShape(order, cache) && frame !in cache && |order| == MaxCacheSize
    ensures InsertOrder(order, frame) == order[1..] + [frame]
    ensures var c := InsertCache(cache, order, frame, data);
            && order[0] !in c
            && forall k :: k in order[1..] ==> k in c && c[k] == cache[k]
  {
    assert (order + [frame])[1..] == order[1..] + [frame];
    forall k | k in order[1..]
      ensures k != order[0]
    {
      var i :| 0 <= i < |order[1..]| && order[1..][i] == k;
      assert order[i + 1] == k;
    }
  }

  /** Below 50 frames nothing is evicted. */
  lemma NoEvictionBelowLimit(order: seq<nat>, cache: map<nat, FieldData>, frame: nat, data: FieldData)
    requires CacheShape(order, cache) && frame !in cache && |order| < MaxCacheSize
    ensures InsertOrder(order, frame) == order + [frame]
    ensures InsertCache(cache, order, frame, data) == cache[frame := data]
  {
  }

  /**
   * The store-reading part of `getProbabilityFieldData`, after the range
   * and cache checks: it reads the frame lengths, sums them with the loop,
   * and reads the frame's range of both sparse datasets.
   */
  method ReadField(store: Store, frame: nat) returns (r: Load)
    ensures r == LoadField(store, frame)
  {
    if store.frameBounds.None? {
      return NoData;
    }
    var frameLengths := Window(store.frameBounds.value, 0, frame + 1);
    if |frameLengths| == 0 {
      return NoData;
    }
    if frame >= |frameLengths| {
      return InvalidSlice;
    }
    var frameStart := FrameStart(frameLengths, frame);
    var frameLength := frameLengths[frame];
    var frameEnd := frameStart + frameLength;
    if frameLength == 0 {
      return NoData;
    }
    if store.locations.None? || store.values.None? {
      return NoData;
    }
    var values := Window(store.values.value, frameStart, frameEnd);
    r := Loaded(FieldData(Window(store.locations.value, frameStart, frameEnd), values, MaxOf(values)));
  }

  class TrackAnimationClient {
    const totalRecordingFrameLength: int
    /** The cached frames, in the order they were cached (the key order of the JavaScript `Map`). */
    var cacheOrder: seq<nat>
    var cache: map<nat, FieldData>
    var trackBinCornersCache: Option<seq<real>>

    ghost predicate Valid()
      reads this
    {
      CacheShape(cacheOrder, cache)
    }

    constructor(totalRecordingFrameLength: int)
      ensures this.totalRecordingFrameLength == totalRecordingFrameLength
      ensures cacheOrder == [] && cache == map[] && trackBinCornersCache.None?
      ensures Valid()
    {
      this.totalRecordingFrameLength := totalRecordingFrameLength;
      cacheOrder := [];
      cache := map[];
      trackBinCornersCache := None;
    }

    /**
     * `getProbabilityFieldData`. A frame past the recording gives `null`
     * without reading anything; a cached frame gives its cached data;
     * otherwise the field is read from the store and, when found, cached.
     */
    method GetProbabilityFieldData(frame: nat, store: Store) returns (r: Load)
      requires Valid()
      modifies this
      ensures Valid()
      ensures frame >= totalRecordingFrameLength ==> r == NoData && unchanged(this)
      ensures frame < totalRecordingFrameLength && frame in old(cache) ==>
                r == Loaded(old(cache)[frame]) && unchanged(this)
      ensures frame < totalRecordingFrameLength && frame !in old(cache) ==>
                && r == LoadField(store, frame)
                && trackBinCornersCache == old(trackBinCornersCache)
                && (if r.Loaded?
                    then cacheOrder == InsertOrder(old(cacheOrder), frame)
                         && cache == InsertCache(old(cache), old(cacheOrder), frame, r.data)
                    else cacheOrder == old(cacheOrder) && cache == old(cache))
    {
      if frame >= totalRecordingFrameLength {
        return NoData;
      }
      if frame in cache {
        return Loaded(cache[frame]);
      }
      r := ReadField(store, frame);
      if !r.Loaded? {
        return;
      }
      var result := r.data;
      InsertKeepsShape(cacheOrder, cache, frame, result);
      cache := InsertCache(cache, cacheOrder, frame, result);
      cacheOrder := InsertOrder(cacheOrder, frame);
    }

    /** `getTrackBinCorners`: read once, then served from the cache; `None` is the "not found" error. */
    method GetTrackBinCorners(store: Store) returns (r: Option<seq<real>>)
      modifies this
      ensures old(trackBinCornersCache).Some? ==> r == old(trackBinCornersCache) && unchanged(this)
      ensures old(trackBinCornersCache).None? ==> r == store.trackBinCorners && trackBinCornersCache == r
      ensures cacheOrder == old(cacheOrder) && cache == old(cache)
    {
      if trackBinCornersCache.Some? {
        return trackBinCornersCache;
      }
      if store.trackBinCorners.None? {
        return None;
      }
      trackBinCornersCache := store.trackBinCorners;
      return trackBinCornersCache;
    }

    /** `getPosition`: the two rows of the position dataset at this frame. */
    function GetPosition(frame: nat, store: Store): (p: Option<(real, real)>)
      reads this
      ensures frame >= totalRecordingFrameLength ==> p.None?
    {
      if frame >= totalRecordingFrameLength || store.positions.None? then None
      else
        var rows := Window(store.positions.value, 0, 2);
        var data := if |rows| == 0 then []
                    else if |rows| == 1 then Window(rows[0], frame, frame + 1)
                    else Window(rows[0], frame, frame + 1) + Window(rows[1], frame, frame + 1);
        if |data| < 2 then None else Some((data[0], data[1]))
    }

    /** `getHeadDirection` and `getTimestamp`: the entry of a per-frame dataset at this frame. */
    function FrameEntry(frame: nat, dataset: Option<seq<real>>): (v: Option<real>)
      reads this
      ensures frame >= totalRecordingFrameLength ==> v.None?
      ensures v.Some? ==> dataset.Some? && frame < |dataset.value| && v.value == dataset.value[frame]
    {
      if frame >= totalRecordingFrameLength || dataset.None? then None
      else
        var data := Window(dataset.value, frame, frame + 1);
        if |data| == 0 then None else Some(data[0])
    }

    function GetHeadDirection(frame: nat, store: Store): Option<real>
      reads this
    {
      FrameEntry(frame, store.headDirection)
    }

    function GetTimestamp(frame: nat, store: Store): Option<real>
      reads this
    {
      FrameEntry(frame, store.timestamps)
    }
  }

  /** Inside the recording, a position is read exactly when both rows cover the frame. */
  lemma PositionSpec(client: TrackAnimationClient, frame: nat, xs: seq<real>, ys: seq<real>, store: Store)
    requires store.positions == Some([xs, ys]) && frame < client.totalRecordingFrameLength
    ensures client.GetPosition(frame, store) ==
              if frame < |xs| && frame < |ys| then Some((xs[frame], ys[frame])) else None
  {
    assert Window([xs, ys], 0, 2) == [xs, ys];
  }

  /**
   * Reading a frame twice gives the same field the second time, whatever
   * the store then holds: the first read cached it.
   */
  method ReadTwice(client: TrackAnimationClient, frame: nat, store: Store, later: Store) returns (first: Load, second: Load)
    requires client.Valid()
    modifies client
    ensures first.Loaded? ==> second == first
  {
    first := client.GetProbabilityFieldData(frame, store);
    if first.Loaded? && frame !in old(client.cache) {
      InsertedIsCached(old(client.cacheOrder), old(client.cache), frame, first.data);
    }
    second := client.GetProbabilityFieldData(frame, later);
  }
}
