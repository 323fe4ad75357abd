/**
 * UPaletteGenerator: palettes sampled evenly along a spectrum of colours,
 * and single-hue palettes whose saturation and value run across a range.
 * The engine's colour conversions (FLinearColor::LerpUsingHSV,
 * LinearRGBToHSV and HSVToLinearRGB) are parameters.
 */
module PaletteGenerators {
  import opened UnrealMath
  import opened Vectors

  // An FLinearColor in HSV form holds the hue in R, the saturation in G and the value in B.

  /** FVector2D, used for a (from, to) range. */
  datatype Vec2 = Vec2(x: real, y: real)

  /** The blend fraction of colour i out of n: i / (n - 1), or the given value when there is a single colour. */
  function Alpha(i: nat, n: nat, single: real): real
    requires i < n
  {
    if n == 1 then single else i as real / (n - 1) as real
  }

  /** Colour fractions lie in [0, 1], run from 0 to 1, and never go back. */
  lemma AlphaInUnit(i: nat, n: nat, single: real)
    requires i < n && 0.0 <= single <= 1.0
    ensures 0.0 <= Alpha(i, n, single) <= 1.0
    ensures n >= 2 && i == 0 ==> Alpha(i, n, single) == 0.0
    ensures n >= 2 && i == n - 1 ==> Alpha(i, n, single) == 1.0
  {
    if n >= 2 {
      assert i as real <= (n - 1) as real;
    }
  }

  /** Fractions grow with the colour's place. */
  lemma AlphaMonotone(i: nat, j: nat, n: nat, single: real)
    requires i <= j < n
    ensures Alpha(i, n, single) <= Alpha(j, n, single)
  {
    if n >= 2 {
      var d := (n - 1) as real;
      assert i as real / d <= j as real / d;
    }
  }

  /** Where a fraction falls on a spectrum of m colours: the index below it and how far past that index. */
  function Position(m: nat, alpha: real): (r: (int, real))
    requires m >= 1 && 0.0 <= alpha <= 1.0
    ensures 0 <= r.0 < m && 0.0 <= r.1 < 1.0
    ensures r.0 as real + r.1 == alpha * (m - 1) as real
  {
    var s := alpha * (m - 1) as real;
    assert s <= 1.0 * (m - 1) as real;
    (FloorToInt(s), Frac(s))
  }

  /** Where colour i of n falls on a spectrum of m colours. */
  function SpectrumPos(m: nat, n: nat, i: nat): (r: (int, real))
    requires m >= 1 && i < n
    ensures 0 <= r.0 < m && 0.0 <= r.1 < 1.0
  {
    AlphaInUnit(i, n, 0.0);
    Position(m, Alpha(i, n, 0.0))
  }

  /** Palette colour i of n: the blend of the spectrum entry below its position and the next one (the last one at the end). */
  function SpectrumColor(spectrum: seq<LinearColor>, n: nat, i: nat,
                         lerp: (LinearColor, LinearColor, real) -> LinearColor): LinearColor
    requires |spectrum| > 0 && i < n
  {
    var m := |spectrum|;
    var pos := SpectrumPos(m, n, i);
    lerp(spectrum[pos.0], spectrum[MinInt(pos.0 + 1, m - 1)], pos.1)
  }

  /** GeneratePaletteFromSpectrum: no colours for an empty spectrum or NumColors <= 0, else NumColors colours sampled evenly. */
  method GeneratePaletteFromSpectrum(spectrum: seq<LinearColor>, numColors: int,
                                     lerp: (LinearColor, LinearColor, real) -> LinearColor)
    returns (palette: seq<LinearColor>)
    ensures |spectrum| == 0 || numColors <= 0 ==> palette == []
    ensures |spectrum| > 0 && numColors > 0 ==>
      |palette| == numColors
      && forall i :: 0 <= i < numColors ==> palette[i] == SpectrumColor(spectrum, numColors, i, lerp)
  {
    palette := [];
    if |spectrum| == 0 || numColors <= 0 {
      return;
    }
    var m := |spectrum|;
    for i := 0 to numColors
      invariant |palette| == i
      invariant forall k :: 0 <= k < i ==> palette[k] == SpectrumColor(spectrum, numColors, k, lerp)
    {
      var alpha := if numColors == 1 then 0.0 else i as real / (numColors - 1) as real;
      AlphaInUnit(i, numColors, 0.0);
      var index := FloorToInt(alpha * (m - 1) as real);
      var lerpAlpha := Frac(alpha * (m - 1) as real);
      assert alpha == Alpha(i, numColors, 0.0);
      assert Position(m, alpha).0 == FloorToInt(alpha * (m - 1) as real);
      assert Position(m, alpha).1 == Frac(alpha * (m - 1) as real);
      assert (index, lerpAlpha) == Position(m, alpha);
      assert (index, lerpAlpha) == SpectrumPos(m, numColors, i);
      var color := lerp(spectrum[index], spectrum[MinInt(index + 1, m - 1)], lerpAlpha);
      palette := palette + [color];
    }
  }

  /** The first colour starts at the first spectrum entry and the last ends on the last entry, each with fraction 0. */
  lemma SpectrumEnds(spectrum: seq<LinearColor>, n: nat, lerp: (LinearColor, LinearColor, real) -> LinearColor)
    requires |spectrum| > 0 && n >= 1
    ensures SpectrumColor(spectrum, n, 0, lerp) == lerp(spectrum[0], spectrum[MinInt(1, |spectrum| - 1)], 0.0)
    ensures n >= 2 ==>
      SpectrumColor(spectrum, n, n - 1, lerp) == lerp(spectrum[|spectrum| - 1], spectrum[|spectrum| - 1], 0.0)
  {
    var m := |spectrum|;
    AlphaInUnit(0, n, 0.0);
    assert Position(m, 0.0) == (0, 0.0);
    if n >= 2 {
      AlphaInUnit(n - 1, n, 0.0);
      assert Position(m, 1.0).0 as real + Position(m, 1.0).1 == (m - 1) as real;
    }
  }

  /** Later colours never sample an earlier part of the spectrum. */
  lemma SpectrumIndexMonotone(m: nat, n: nat, i: nat, j: nat)
    requires m >= 1 && i <= j < n
    ensures SpectrumPos(m, n, i).0 <= SpectrumPos(m, n, j).0
  {
    AlphaInUnit(i, n, 0.0);
    AlphaInUnit(j, n, 0.0);
    AlphaMonotone(i, j, n, 0.0);
    var a := Alpha(i, n, 0.0);
    var b := Alpha(j, n, 0.0);
    MulMonotone(a, b, (m - 1) as real);
    FloorMonotone(a * (m - 1) as real, b * (m - 1) as real);
    assert SpectrumPos(m, n, i).0 == FloorToInt(a * (m - 1) as real);
    assert SpectrumPos(m, n, j).0 == FloorToInt(b * (m - 1) as real);
  }

  /** FMath::Lerp(Range.X, Range.Y, Alpha). */
  function LerpRange(range: Vec2, alpha: real): real
  {
    range.x + alpha * (range.y - range.x)
  }

  /** The HSV colour i of n in a monochromatic palette: the base hue, and saturation and value at fraction i. */
  function MonoHsv(hue: real, n: nat, i: nat, saturationRange: Vec2, valueRange: Vec2): LinearColor
    requires i < n
  {
    var alpha := Alpha(i, n, 0.5);
    LinearColor(hue, LerpRange(saturationRange, alpha), LerpRange(valueRange, alpha), 1.0)
  }

  /** GenerateMonochromaticPalette: no colours for NumColors <= 0, else NumColors colours of the base colour's hue. */
  method GenerateMonochromaticPalette(baseColor: LinearColor, numColors: int, saturationRange: Vec2, valueRange: Vec2,
                                      toHsv: LinearColor -> LinearColor, fromHsv: LinearColor -> LinearColor)
    returns (palette: seq<LinearColor>)
    ensures numColors <= 0 ==> palette == []
    ensures numColors > 0 ==>
      |palette| == numColors
      && forall i :: 0 <= i < numColors ==>
           palette[i] == fromHsv(MonoHsv(toHsv(baseColor).r, numColors, i, saturationRange, valueRange))
  {
    palette := [];
    if numColors <= 0 {
      return;
    }
    var hsv := toHsv(baseColor);
    for i := 0 to numColors
      invariant |palette| == i
      invariant forall k :: 0 <= k < i ==>
        palette[k] == fromHsv(MonoHsv(hsv.r, numColors, k, saturationRange, valueRange))
    {
      var alpha := if numColors == 1 then 0.5 else i as real / (numColors - 1) as real;
      var newSaturation := saturationRange.x + alpha * (saturationRange.y - saturationRange.x);
      var newValue := valueRange.x + alpha * (valueRange.y - valueRange.x);
      assert alpha == Alpha(i, numColors, 0.5);
      assert newSaturation == LerpRange(saturationRange, alpha);
      assert newValue == LerpRange(valueRange, alpha);
      assert LinearColor(hsv.r, newSaturation, newValue, 1.0) == MonoHsv(hsv.r, numColors, i, saturationRange, valueRange);
      var newColor := fromHsv(LinearColor(hsv.r, newSaturation, newValue, 1.0));
      assert newColor == fromHsv(MonoHsv(hsv.r, numColors, i, saturationRange, valueRange));
      palette := palette + [newColor];
    }
  }

  /**
   * Saturation and value start at the range's X and end at its Y; a single
   * colour takes the middle of each range; every colour keeps the hue.
   */
  lemma MonoEnds(hue: real, n: nat, saturationRange: Vec2, valueRange: Vec2)
    requires n >= 1
    ensures n == 1 ==>
      MonoHsv(hue, n, 0, saturationRange, valueRange)
      == LinearColor(hue, (saturationRange.x + saturationRange.y) / 2.0, (valueRange.x + valueRange.y) / 2.0, 1.0)
    ensures n >= 2 ==>
      MonoHsv(hue, n, 0, saturationRange, valueRange) == LinearColor(hue, saturationRange.x, valueRange.x, 1.0)
      && MonoHsv(hue, n, n - 1, saturationRange, valueRange) == LinearColor(hue, saturationRange.y, valueRange.y, 1.0)
  {
    if n >= 2 {
      AlphaInUnit(0, n, 0.5);
      AlphaInUnit(n - 1, n, 0.5);
    }
  }

  /** Consecutive colours are evenly spaced: each step adds (Y - X) / (n - 1) to saturation and to value. */
  lemma MonoEvenSteps(hue: real, n: nat, i: nat, saturationRange: Vec2, valueRange: Vec2)
    requires 1 <= i < n
    ensures MonoHsv(hue, n, i, saturationRange, valueRange).g - MonoHsv(hue, n, i - 1, saturationRange, valueRange).g
            == (saturationRange.y - saturationRange.x) / (n - 1) as real
    ensures MonoHsv(hue, n, i, saturationRange, valueRange).b - MonoHsv(hue, n, i - 1, saturationRange, valueRange).b
            == (valueRange.y - valueRange.x) / (n - 1) as real
  {
    var d := (n - 1) as real;
    assert Alpha(i, n, 0.5) - Alpha(i - 1, n, 0.5) == 1.0 / d;
    StepScales(Alpha(i - 1, n, 0.5), 1.0 / d, saturationRange);
    StepScales(Alpha(i - 1, n, 0.5), 1.0 / d, valueRange);
  }

  /** Advancing the fraction by s advances the blended channel by s (Y - X). */
  lemma StepScales(a: real, s: real, range: Vec2)
    ensures LerpRange(range, a + s) - LerpRange(range, a) == s * (range.y - range.x)
  {
  }

  /** Every saturation and value lies between the two ends of its range. */
  lemma MonoWithinRange(hue: real, n: nat, i: nat, saturationRange: Vec2, valueRange: Vec2)
    requires i < n
    ensures Min(saturationRange.x, saturationRange.y) <= MonoHsv(hue, n, i, saturationRange, valueRange).g
                                                       <= Max(saturationRange.x, saturationRange.y)
    ensures Min(valueRange.x, valueRange.y) <= MonoHsv(hue, n, i, saturationRange, valueRange).b
                                             <= Max(valueRange.x, valueRange.y)
  {
    AlphaInUnit(i, n, 0.5);
    var a := Alpha(i, n, 0.5);
    BlendBetween(a, saturationRange);
    BlendBetween(a, valueRange);
  }

  /** A blend at a fraction in [0, 1] lies between the range's ends. */
  lemma BlendBetween(a: real, range: Vec2)
    requires 0.0 <= a <= 1.0
    ensures Min(range.x, range.y) <= LerpRange(range, a) <= Max(range.x, range.y)
  {
    BlendWithin(a, range.x, range.y);
  }
}
