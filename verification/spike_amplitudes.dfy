/**
 * The spike-amplitudes data client: discovery of the pre-subsampled copies
 * (`subsampled_data/factor_4`, `factor_16`, ...) and the choice of copy
 * when a time range holds more events than the caller wants to draw.
 *
 * Group listings and dataset reads are parameters; the range scans are the
 * reference-time scans of the raster-plot client, which this client
 * repeats verbatim.
 */
module SpikeAmplitudes {
  import opened Common
  import RasterPlotData

  // ---------------------------------------------------------------------
  // Factor discovery in `create`
  // ---------------------------------------------------------------------

  function FactorGroupName(f: nat): string
  {
    "factor_" + NatToString(f)
  }

  lemma FactorGroupNameInjective(f: nat, g: nat)
    requires FactorGroupName(f) == FactorGroupName(g)
    ensures f == g
  {
    var p := "factor_";
    assert FactorGroupName(f)[|p|..] == NatToString(f);
    assert FactorGroupName(g)[|p|..] == NatToString(g);
    NatToStringInjective(f, g);
  }

  /** The `subsampled_data` subgroup: absent, present but failing to load, or loaded with its subgroup names. */
  datatype SubsampledGroup = NoSubsampledData | SubsampledUnloadable | SubsampledData(subgroupNames: seq<string>)

  datatype Discovery = Factors(factors: seq<nat>) | GroupLoadFailed(name: string)

  /**
   * The discovery loop: try 4, 16, 64, ... and stop at the first factor
   * whose `factor_<f>` group is not listed. Each listed group is loaded
   * through `loads` (which stands for `getGroup` on the client's own group
   * followed by the recursive `create`); a failed load aborts.
   */
  method DiscoverFactors(subsampled: SubsampledGroup, loads: string -> bool) returns (r: Discovery)
    ensures subsampled.NoSubsampledData? ==> r == Factors([])
    ensures subsampled.SubsampledUnloadable? ==> r == GroupLoadFailed("subsampled_data")
    ensures r.Factors? && subsampled.SubsampledData? ==>
              && (forall i :: 0 <= i < |r.factors| ==> r.factors[i] == Pow(4, i + 1))
              && (forall i :: 0 <= i < |r.factors| ==> FactorGroupName(r.factors[i]) in subsampled.subgroupNames)
              && (forall i :: 0 <= i < |r.factors| ==> loads(FactorGroupName(r.factors[i])))
              && FactorGroupName(Pow(4, |r.factors| + 1)) !in subsampled.subgroupNames
    ensures r.GroupLoadFailed? && subsampled.SubsampledData? ==>
              exists k: nat :: k >= 1 && r.name == FactorGroupName(Pow(4, k)) && r.name in subsampled.subgroupNames && !loads(r.name)
  {
    match subsampled
    case NoSubsampledData => return Factors([]);
    case SubsampledUnloadable => return GroupLoadFailed("subsampled_data");
    case SubsampledData(names) =>
      var factors: seq<nat> := [];
      var f: nat := 4;
      while true
        invariant f == Pow(4, |factors| + 1)
        invariant factors == PowersOfFour(|factors|)
        invariant forall x :: x in factors ==> FactorGroupName(x) in names && loads(FactorGroupName(x))
        invariant NamesOf(factors) <= set n | n in names
        decreases |set n | n in names| - |NamesOf(factors)|
      {
        var name := FactorGroupName(f);
        if name !in names {
          break;
        }
        if !loads(name) {
          return GroupLoadFailed(name);
        }
        assert FactorGroupName(f) !in NamesOf(factors) by {
          PowersOfFourIndex(|factors|);
          NewFactorUnseen(factors, f, |factors| + 1);
        }
        var prev := factors;
        factors := factors + [f];
        assert factors[..|factors| - 1] == prev;
        SubsetCard(NamesOf(factors), set n | n in names);
        f := f * 4;
      }
      PowersOfFourIndex(|factors|);
      r := Factors(factors);
  }

  /** The group names of the discovered factors. */
  function NamesOf(factors: seq<nat>): set<string>
  {
    if |factors| == 0 then {} else NamesOf(factors[..|factors| - 1]) + {FactorGroupName(factors[|factors| - 1])}
  }

  lemma SubsetCard(a: set<string>, b: set<string>)
    requires a <= b
    ensures |a| <= |b|
  {
    assert b == a + (b - a);
  }

  /** A later power of 4 has a group name that no earlier factor has. */
  lemma {:induction false} NewFactorUnseen(factors: seq<nat>, f: nat, m: nat)
    requires forall i :: 0 <= i < |factors| ==> factors[i] == Pow(4, i + 1)
    requires f == Pow(4, m) && m > |factors|
    ensures FactorGroupName(f) !in NamesOf(factors)
    decreases |factors|
  {
    if |factors| > 0 {
      var n := |factors| - 1;
      NewFactorUnseen(factors[..n], f, m);
      PowStrictMono(n + 1, m);
      if FactorGroupName(factors[n]) == FactorGroupName(f) {
        FactorGroupNameInjective(factors[n], f);
      }
    }
  }

  lemma {:induction false} PowStrictMono(a: nat, b: nat)
    requires a < b
    ensures Pow(4, a) < Pow(4, b)
    decreases b
  {
    if a < b - 1 {
      PowStrictMono(a, b - 1);
    }
  }

  // ---------------------------------------------------------------------
  // `getDataForRange`
  // ---------------------------------------------------------------------

  /** A client: its reference arrays, its spike arrays and the subsampled clients by factor. */
  datatype Client = Client(
    referenceTimes: seq<real>,
    referenceIndices: seq<int>,
    timestamps: seq<real>,
    unitIndices: seq<int>,
    amplitudes: seq<real>,
    subsampleClients: map<nat, Client>)

  datatype RangeData =
    | RangeData(timestamps: seq<real>, unitIndices: seq<int>, amplitudes: seq<real>, subsampleFactor: nat)
    | UnresolvedRange

  /** Advance the factor while the next copy exists and the current one still shows too many events. */
  function ChosenFactor(count: nat, maxNumEvents: nat, factors: set<nat>, f: nat): (r: nat)
    requires maxNumEvents > 0 && f >= 4
    ensures r >= f
    ensures !(4 * r in factors && count > maxNumEvents * r)
    decreases count - f
  {
    if 4 * f in factors && count > maxNumEvents * f then
      MulMono(1, maxNumEvents, f);
      ChosenFactor(count, maxNumEvents, factors, 4 * f)
    else f
  }

  /** Every step of the advance was to a copy that exists. */
  lemma {:induction false} ChosenFactorExists(count: nat, maxNumEvents: nat, factors: set<nat>, f: nat)
    requires maxNumEvents > 0 && f >= 4
    ensures ChosenFactor(count, maxNumEvents, factors, f) == f || ChosenFactor(count, maxNumEvents, factors, f) in factors
    decreases count - f
  {
    if 4 * f in factors && count > maxNumEvents * f {
      MulMono(1, maxNumEvents, f);
      ChosenFactorExists(count, maxNumEvents, factors, 4 * f);
    }
  }

  /** The factor is 4 times a power of 4. */
  lemma {:induction false} ChosenFactorPower(count: nat, maxNumEvents: nat, factors: set<nat>, f: nat, k: nat)
    requires maxNumEvents > 0 && f >= 4 && f == Pow(4, k)
    ensures exists k': nat :: k' >= k && ChosenFactor(count, maxNumEvents, factors, f) == Pow(4, k')
    decreases count - f
  {
    if 4 * f in factors && count > maxNumEvents * f {
      MulMono(1, maxNumEvents, f);
      ChosenFactorPower(count, maxNumEvents, factors, 4 * f, k + 1);
    }
  }

  /**
   * A subsampled copy is used iff the 4x copy exists, or the 16x copy
   * exists and even the 4x copy would show too many events.
   */
  lemma SubsampleUsed(count: nat, maxNumEvents: nat, factors: set<nat>)
    requires maxNumEvents > 0
    ensures ChosenFactor(count, maxNumEvents, factors, 4) in factors <==>
              4 in factors || (16 in factors && count > maxNumEvents * 4)
  {
    if 16 in factors && count > maxNumEvents * 4 {
      MulMono(1, maxNumEvents, 4);
      ChosenFactorExists(count, maxNumEvents, factors, 16);
    }
  }

  /** With the contiguous factors discovery produces, a copy is used iff the 4x copy exists. */
  lemma SubsampleUsedWithDiscovered(count: nat, maxNumEvents: nat, factors: seq<nat>)
    requires maxNumEvents > 0
    requires forall i :: 0 <= i < |factors| ==> factors[i] == Pow(4, i + 1)
    ensures var keys := set i | 0 <= i < |factors| :: factors[i];
            ChosenFactor(count, maxNumEvents, keys, 4) in keys <==> 4 in keys
  {
    var keys := set i | 0 <= i < |factors| :: factors[i];
    SubsampleUsed(count, maxNumEvents, keys);
    if 16 in keys {
      var i :| 0 <= i < |factors| && factors[i] == 16;
      assert factors[0] == Pow(4, 1) == 4;
    }
  }

  /** The factor loop of `getDataForRange`. */
  method ChooseSubsampleFactor(count: nat, maxNumEvents: nat, factors: set<nat>) returns (subsampleFactor: nat)
    requires maxNumEvents > 0
    ensures subsampleFactor == ChosenFactor(count, maxNumEvents, factors, 4)
  {
    subsampleFactor := 4;
    QuotientExceeds(count, subsampleFactor, maxNumEvents);
    while subsampleFactor * 4 in factors && (count as real) / (subsampleFactor as real) > maxNumEvents as real
      invariant subsampleFactor >= 4
      invariant ChosenFactor(count, maxNumEvents, factors, subsampleFactor) == ChosenFactor(count, maxNumEvents, factors, 4)
      invariant (count as real) / (subsampleFactor as real) > maxNumEvents as real <==> count > maxNumEvents * subsampleFactor
      decreases count - subsampleFactor
    {
      MulMono(1, maxNumEvents, subsampleFactor);
      subsampleFactor := subsampleFactor * 4;
      QuotientExceeds(count, subsampleFactor, maxNumEvents);
    }
  }

  /** The spikes in [start, end) of a client, without subsampling. */
  function OwnRange(c: Client, startIndex: int, endIndex: int): RangeData
  {
    RangeData(JsSlice(c.timestamps, startIndex, endIndex), JsSlice(c.unitIndices, startIndex, endIndex),
              JsSlice(c.amplitudes, startIndex, endIndex), 1)
  }

  /**
   * The answer of a client asked with no event limit: unresolved when a
   * boundary has no reference index, empty arrays with factor 1 for an
   * empty range, otherwise the client's own spikes.
   */
  function Unlimited(c: Client, startTimeSec: real, endTimeSec: real): (r: RangeData)
    ensures var s := RasterPlotData.StartRef(c.referenceTimes, c.referenceIndices, startTimeSec);
            var e := RasterPlotData.EndRef(c.referenceTimes, c.referenceIndices, endTimeSec);
            && (r.UnresolvedRange? <==> s.None? || e.None?)
            && (r.RangeData? ==> r.subsampleFactor == 1)
            && (s.Some? && e.Some? && s.value >= e.value ==> r.timestamps == [] && r.unitIndices == [] && r.amplitudes == [])
            && (s.Some? && e.Some? && 0 <= s.value < e.value <= |c.timestamps| ==> r.timestamps == c.timestamps[s.value..e.value])
  {
    var s := RasterPlotData.StartRef(c.referenceTimes, c.referenceIndices, startTimeSec);
    var e := RasterPlotData.EndRef(c.referenceTimes, c.referenceIndices, endTimeSec);
    if s.None? || e.None? then UnresolvedRange
    else if s.value >= e.value then RangeData([], [], [], 1)
    else OwnRange(c, s.value, e.value)
  }

  /** A subsampled copy's answer carries the factor of the copy. */
  function Relabel(d: RangeData, f: nat): (r: RangeData)
    ensures r.UnresolvedRange? <==> d.UnresolvedRange?
    ensures r.RangeData? ==> r.subsampleFactor == f && r.timestamps == d.timestamps
                             && r.unitIndices == d.unitIndices && r.amplitudes == d.amplitudes
  {
    if d.RangeData? then d.(subsampleFactor := f) else d
  }

  /**
   * `getDataForRange`. An empty range gives empty arrays with factor 1.
   * With too many events and a subsampled copy at the chosen factor, the
   * copy is asked for the same range with no event limit and its result is
   * relabelled with the factor; otherwise the client's own spikes with
   * factor 1.
   */
  method GetDataForRange(c: Client, startTimeSec: real, endTimeSec: real, maxNumEvents: int) returns (r: RangeData)
    ensures var s := RasterPlotData.StartRef(c.referenceTimes, c.referenceIndices, startTimeSec);
            var e := RasterPlotData.EndRef(c.referenceTimes, c.referenceIndices, endTimeSec);
            s.None? || e.None? ==> r.UnresolvedRange?
    ensures var s := RasterPlotData.StartRef(c.referenceTimes, c.referenceIndices, startTimeSec);
            var e := RasterPlotData.EndRef(c.referenceTimes, c.referenceIndices, endTimeSec);
            s.Some? && e.Some? && s.value >= e.value ==> r == RangeData([], [], [], 1)
    ensures var s := RasterPlotData.StartRef(c.referenceTimes, c.referenceIndices, startTimeSec);
            var e := RasterPlotData.EndRef(c.referenceTimes, c.referenceIndices, endTimeSec);
            s.Some? && e.Some? && s.value < e.value && (maxNumEvents <= 0 || e.value - s.value <= maxNumEvents) ==>
              r == OwnRange(c, s.value, e.value)
    ensures var s := RasterPlotData.StartRef(c.referenceTimes, c.referenceIndices, startTimeSec);
            var e := RasterPlotData.EndRef(c.referenceTimes, c.referenceIndices, endTimeSec);
            s.Some? && e.Some? && s.value < e.value && maxNumEvents > 0 && e.value - s.value > maxNumEvents ==>
              var f := ChosenFactor(e.value - s.value, maxNumEvents, c.subsampleClients.Keys, 4);
              r == if f in c.subsampleClients then Relabel(Unlimited(c.subsampleClients[f], startTimeSec, endTimeSec), f)
                   else OwnRange(c, s.value, e.value)
    decreases if maxNumEvents > 0 then 1 else 0
  {
    var startIndex := RasterPlotData.FindStartIndex(c.referenceTimes, c.referenceIndices, startTimeSec);
    var endIndex := RasterPlotData.FindEndIndex(c.referenceTimes, c.referenceIndices, endTimeSec);
    if startIndex.None? || endIndex.None? {
      return UnresolvedRange;
    }
    if startIndex.value >= endIndex.value {
      return RangeData([], [], [], 1);
    }
    var count := endIndex.value - startIndex.value;
    if maxNumEvents > 0 && count > maxNumEvents {
      var subsampleFactor := ChooseSubsampleFactor(count, maxNumEvents, c.subsampleClients.Keys);
      if subsampleFactor in c.subsampleClients {
        var subClient := c.subsampleClients[subsampleFactor];
        var d := GetDataForRange(subClient, startTimeSec, endTimeSec, 0);
        assert d == Unlimited(subClient, startTimeSec, endTimeSec);
        if d.RangeData? {
          d := d.(subsampleFactor := subsampleFactor);
        }
        assert d == Relabel(Unlimited(subClient, startTimeSec, endTimeSec), subsampleFactor);
        return d;
      }
    }
    r := OwnRange(c, startIndex.value, endIndex.value);
  }
}
