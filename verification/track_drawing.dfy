/**
 * The pure helpers of the track-animation drawing: spatial bins are
 * numbered row by row (`binIndex = binY * xcount + binX`), and a colour
 * scheme, chosen by name, turns a normalised probability into a colour.
 * Canvas drawing is not part of this model.
 */
module TrackDrawing {
  import opened Common

  /** `binIndexToXY`: the column and row of a bin, for a grid `xcount` bins wide. */
  function BinIndexToXY(binIndex: nat, xcount: nat): (xy: (nat, nat))
    requires xcount > 0
    ensures xy.0 < xcount
  {
    (binIndex % xcount, binIndex / xcount)
  }

  /** `xyToBinIndex`. */
  function XyToBinIndex(binX: nat, binY: nat, xcount: nat): nat
  {
    binY * xcount + binX
  }

  /** Numbering a bin's column and row gives the bin back. */
  lemma BinIndexRoundTrip(binIndex: nat, xcount: nat)
    requires xcount > 0
    ensures var xy := BinIndexToXY(binIndex, xcount);
            XyToBinIndex(xy.0, xy.1, xcount) == binIndex
  {
  }

  /** The column and row of a numbered cell are the cell's own, when its column is inside the grid. */
  lemma XyRoundTrip(binX: nat, binY: nat, xcount: nat)
    requires binX < xcount
    ensures BinIndexToXY(XyToBinIndex(binX, binY, xcount), xcount) == (binX, binY)
  {
    DivModUnique(XyToBinIndex(binX, binY, xcount), xcount, binY, binX);
  }

  /**
   * The drawing loop visits the bins `0 <= binIndex < xcount * ycount`;
   * each of them lands inside the `xcount` by `ycount` grid.
   */
  lemma BinInGrid(binIndex: nat, xcount: nat, ycount: nat)
    requires binIndex < xcount * ycount
    ensures xcount > 0
    ensures var xy := BinIndexToXY(binIndex, xcount);
            xy.0 < xcount && xy.1 < ycount
  {
    var y := binIndex / xcount;
    DivBounds(binIndex, xcount);
    if y >= ycount {
      MulMono(ycount, y, xcount);
    }
  }

  // ---------------------------------------------------------------------
  // Colour schemes
  // ---------------------------------------------------------------------

  datatype ColorScheme = BlueRed | Viridis | Hot | Grayscale | Cool

  datatype Rgb = Rgb(r: int, g: int, b: int)

  /** `colorSchemes[scheme] || colorSchemes["blue-red"]`. */
  function SchemeNamed(scheme: string): ColorScheme
  {
    if scheme == "viridis" then Viridis
    else if scheme == "hot" then Hot
    else if scheme == "grayscale" then Grayscale
    else if scheme == "cool" then Cool
    else BlueRed
  }

  /** Each scheme has its own name, and every other name falls back to blue-red. */
  lemma SchemeNamedSpec(scheme: string)
    ensures SchemeNamed("blue-red") == BlueRed && SchemeNamed("viridis") == Viridis
    ensures SchemeNamed("hot") == Hot && SchemeNamed("grayscale") == Grayscale && SchemeNamed("cool") == Cool
    ensures scheme !in {"blue-red", "viridis", "hot", "grayscale", "cool"} ==> SchemeNamed(scheme) == BlueRed
  {
  }

  /** `Math.round`: halves round up. */
  function Round(x: real): (n: int)
    ensures x - 0.5 < n as real <= x + 0.5
  {
    (x + 0.5).Floor
  }

  function Lerp(from: real, to: real, t: real): real
  {
    from + (to - from) * t
  }

  function ColorOf(scheme: ColorScheme, v: real): Rgb
  {
    match scheme
    case BlueRed =>
      var distance := if v - 0.5 < 0.0 then 0.5 - v else v - 0.5;
      Rgb(Round(255.0 * v), Round(128.0 * (1.0 - distance * 2.0)), Round(255.0 * (1.0 - v)))
    case Viridis =>
      if v < 0.25 then
        var t := v / 0.25;
        Rgb(Round(Lerp(68.0, 59.0, t)), Round(Lerp(1.0, 82.0, t)), Round(Lerp(84.0, 139.0, t)))
      else if v < 0.5 then
        var t := (v - 0.25) / 0.25;
        Rgb(Round(Lerp(59.0, 33.0, t)), Round(Lerp(82.0, 144.0, t)), Round(Lerp(139.0, 140.0, t)))
      else if v < 0.75 then
        var t := (v - 0.5) / 0.25;
        Rgb(Round(Lerp(33.0, 93.0, t)), Round(Lerp(144.0, 201.0, t)), Round(Lerp(140.0, 99.0, t)))
      else
        var t := (v - 0.75) / 0.25;
        Rgb(Round(Lerp(93.0, 253.0, t)), Round(Lerp(201.0, 231.0, t)), Round(Lerp(99.0, 37.0, t)))
    case Hot =>
      if v < 0.33 then Rgb(Round(255.0 * (v / 0.33)), 0, 0)
      else if v < 0.67 then Rgb(255, Round(255.0 * ((v - 0.33) / 0.34)), 0)
      else Rgb(255, 255, Round(255.0 * ((v - 0.67) / 0.33)))
    case Grayscale =>
      var intensity := Round(255.0 * v);
      Rgb(intensity, intensity, intensity)
    case Cool =>
      Rgb(Round(255.0 * v), Round(255.0 * (1.0 - v)), 255)
  }

  /** `valueToColor`, with the colour as its three channels rather than an "rgb(...)" string. */
  function ValueToColor(normalizedValue: real, scheme: string): Rgb
  {
    ColorOf(SchemeNamed(scheme), normalizedValue)
  }

  predicate IsChannel(c: int) { 0 <= c <= 255 }

  predicate IsColor(c: Rgb) { IsChannel(c.r) && IsChannel(c.g) && IsChannel(c.b) }

  lemma RoundChannel(x: real)
    requires 0.0 <= x <= 255.0
    ensures IsChannel(Round(x))
  {
  }

  /** Moving a fraction `t` in [0, 1] of the way between two channel values gives a channel value. */
  lemma LerpChannel(from: real, to: real, t: real)
    requires 0.0 <= from <= 255.0 && 0.0 <= to <= 255.0 && 0.0 <= t <= 1.0
    ensures IsChannel(Round(Lerp(from, to, t)))
  {
    var x := Lerp(from, to, t);
    assert x == from * (1.0 - t) + to * t;
    NonNegProduct(from, 1.0 - t);
    NonNegProduct(to, t);
    NonNegProduct(255.0 - from, 1.0 - t);
    NonNegProduct(255.0 - to, t);
    assert (255.0 - from) * (1.0 - t) + (255.0 - to) * t == 255.0 - x;
    RoundChannel(x);
  }

  lemma NonNegProduct(a: real, b: real)
    requires a >= 0.0 && b >= 0.0
    ensures a * b >= 0.0
  {
  }

  /** Viridis, one quarter of the range at a time. */
  lemma ViridisColor(v: real)
    requires 0.0 <= v <= 1.0
    ensures IsColor(ColorOf(Viridis, v))
  {
    if v < 0.25 {
      var t := v / 0.25;
      LerpChannel(68.0, 59.0, t); LerpChannel(1.0, 82.0, t); LerpChannel(84.0, 139.0, t);
    } else if v < 0.5 {
      var t := (v - 0.25) / 0.25;
      LerpChannel(59.0, 33.0, t); LerpChannel(82.0, 144.0, t); LerpChannel(139.0, 140.0, t);
    } else if v < 0.75 {
      var t := (v - 0.5) / 0.25;
      LerpChannel(33.0, 93.0, t); LerpChannel(144.0, 201.0, t); LerpChannel(140.0, 99.0, t);
    } else {
      var t := (v - 0.75) / 0.25;
      LerpChannel(93.0, 253.0, t); LerpChannel(201.0, 231.0, t); LerpChannel(99.0, 37.0, t);
    }
  }

  /** Hot, one third of the range at a time. */
  lemma HotColor(v: real)
    requires 0.0 <= v <= 1.0
    ensures IsColor(ColorOf(Hot, v))
  {
    if v < 0.33 {
      RoundChannel(255.0 * (v / 0.33));
    } else if v < 0.67 {
      RoundChannel(255.0 * ((v - 0.33) / 0.34));
    } else {
      RoundChannel(255.0 * ((v - 0.67) / 0.33));
    }
  }

  /**
   * Every scheme maps a normalised value in [0, 1] (the drawing clamps the
   * brightness-adjusted value to at most 1) to a colour whose three channels
   * lie in 0..255.
   */
  lemma ColorsInRange(normalizedValue: real, scheme: string)
    requires 0.0 <= normalizedValue <= 1.0
    ensures IsColor(ValueToColor(normalizedValue, scheme))
  {
    var v := normalizedValue;
    match SchemeNamed(scheme)
    case BlueRed =>
      var distance := if v - 0.5 < 0.0 then 0.5 - v else v - 0.5;
      RoundChannel(255.0 * v);
      RoundChannel(128.0 * (1.0 - distance * 2.0));
      RoundChannel(255.0 * (1.0 - v));
    case Viridis => ViridisColor(v);
    case Hot => HotColor(v);
    case Grayscale => RoundChannel(255.0 * v);
    case Cool =>
      RoundChannel(255.0 * v);
      RoundChannel(255.0 * (1.0 - v));
  }

  /** The ends of the default scheme: 0 is pure blue, 1 is pure red. */
  lemma BlueRedEnds()
    ensures ValueToColor(0.0, "blue-red") == Rgb(0, 0, 255)
    ensures ValueToColor(1.0, "blue-red") == Rgb(255, 0, 0)
  {
  }
}
