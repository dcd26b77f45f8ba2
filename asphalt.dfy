/** The asphalt generator of grounds/asphalt.py: its colour ramps and noise
    palettes, the eight compass directions, and the crack walker that stamps
    quads along a random path into the texture, defect and depth images.

    The images themselves are not modelled. A `Surface` records, in order,
    the calls of `dynamic_width_crack` the walker makes (`Stroke` values);
    `StrokeStamp` gives the quad each call stamps and the grey it leaves in
    the depth image (the defect image always receives white, and the texture
    tint goes through an HLS conversion that is not modelled). Crack
    positions are the integer `Point2d` values the source computes. */
module Asphalt {
  import opened Wrappers
  import Numerals
  import Rand
  import Trig

  datatype AsphaltError =
    | DivisionByZero       // ZeroDivisionError
    | IndexOutOfRange      // IndexError
    | UnknownDirection     // ValueError("Unknown direction")
    | InvalidLengthIndex   // ValueError("Invalid length index")

  function Count(n: int): nat { if n < 0 then 0 else n }

  function Abs(x: real): real { if x < 0.0 then -x else x }

  // ---------------------------------------------------------------------
  // _int_ramp and the palettes

  /** Element v of a ramp from lo by the given step. */
  function RampValue(lo: int, step: real, v: nat): int {
    Numerals.RoundHalfEven(v as real * step) + lo
  }

  /** `(max_ - min_) / (num - 1)`. */
  function RampStep(lo: int, hi: int, num: int): real
    requires num >= 2
  {
    (hi - lo) as real / (num - 1) as real
  }

  function Ramp(lo: int, hi: int, num: int): (r: seq<int>)
    requires num >= 2
    ensures |r| == num
  {
    seq(num, v requires 0 <= v < num => RampValue(lo, RampStep(lo, hi, num), v))
  }

  /** `_int_ramp(min_, max_, num)`: no element for num <= 0; a single element
      divides by `num - 1`. */
  function IntRamp(lo: int, hi: int, num: int): Result<seq<int>, AsphaltError> {
    if num <= 0 then Success([])
    else if num == 1 then Failure(DivisionByZero)
    else Success(Ramp(lo, hi, num))
  }

  lemma MulMonotone(a: real, b: real, c: real)
    requires a <= b && 0.0 <= c
    ensures a * c <= b * c
  {
    assert (b - a) * c >= 0.0;
  }

  /** A ramp from lo up to hi climbs by a non-negative step that reaches hi
      after num - 1 steps. */
  lemma RampStepSpec(lo: int, hi: int, num: int)
    requires num >= 2 && lo <= hi
    ensures 0.0 <= RampStep(lo, hi, num)
    ensures (num - 1) as real * RampStep(lo, hi, num) == (hi - lo) as real
  {
  }

  lemma RampValueBounds(lo: int, hi: int, num: int, v: nat)
    requires num >= 2 && lo <= hi && v < num
    ensures lo <= RampValue(lo, RampStep(lo, hi, num), v) <= hi
  {
    RampStepSpec(lo, hi, num);
    ProductBetween(v as real, (num - 1) as real, RampStep(lo, hi, num), (hi - lo) as real);
    Numerals.RoundBetween(v as real * RampStep(lo, hi, num), hi - lo);
  }

  /** A product with a factor between 0 and n is between 0 and n times the
      other factor. */
  lemma ProductBetween(v: real, n: real, c: real, d: real)
    requires 0.0 <= v <= n && 0.0 <= c && n * c == d
    ensures 0.0 <= v * c <= d
  {
    MulMonotone(0.0, v, c);
    MulMonotone(v, n, c);
  }

  lemma RampValueMonotone(lo: int, step: real, v: nat, w: nat)
    requires 0.0 <= step && v <= w
    ensures RampValue(lo, step, v) <= RampValue(lo, step, w)
  {
    var x := v as real * step;
    var y := w as real * step;
    assert x <= y by {
      assert (w - v) as real * step >= 0.0;
    }
    Numerals.RoundMonotone(x, y);
  }

  /** `_int_ramp` yields num integers from lo to hi, both ends included, in
      non-decreasing order; it fails exactly for num == 1. */
  lemma IntRampSpec(lo: int, hi: int, num: int)
    requires lo <= hi
    ensures IntRamp(lo, hi, num).Failure? <==> num == 1
    ensures num <= 0 ==> IntRamp(lo, hi, num) == Success([])
    ensures num >= 2 ==>
      var r := IntRamp(lo, hi, num).value;
      |r| == num && r[0] == lo && r[num - 1] == hi &&
      (forall i :: 0 <= i < num ==> lo <= r[i] <= hi) &&
      (forall i, j :: 0 <= i <= j < num ==> r[i] <= r[j])
  {
    if num >= 2 {
      var r := Ramp(lo, hi, num);
      Numerals.RoundInteger(0);
      assert r[0] == lo;
      var step := RampStep(lo, hi, num);
      assert (num - 1) as real * step == (hi - lo) as real;
      Numerals.RoundInteger(hi - lo);
      assert r[num - 1] == hi;
      forall i | 0 <= i < num
        ensures lo <= r[i] <= hi
      {
        RampValueBounds(lo, hi, num, i);
      }
      forall i, j | 0 <= i <= j < num
        ensures r[i] <= r[j]
      {
        RampValueMonotone(lo, step, i, j);
      }
    }
  }

  /** An RGB colour. */
  type Rgb = (int, int, int)

  const Black: Rgb := (0, 0, 0)
  const White: Rgb := (255, 255, 255)

  function Greys(vs: seq<int>): (r: seq<Rgb>)
    ensures |r| == |vs|
  {
    seq(|vs|, i requires 0 <= i < |vs| => (vs[i], vs[i], vs[i]))
  }

  /** `COLOR_LIST`: 40 dark greys from 0 to 98 and 4 light ones from 105 to
      190. */
  function ColorList(): (r: seq<Rgb>)
    ensures |r| == 44
  {
    Greys(Ramp(0, 98, 40)) + Greys(Ramp(105, 190, 4))
  }

  /** `s[a:b]` for non-negative bounds: both are cut down to the length. */
  function Slice<T>(s: seq<T>, a: nat, b: nat): (r: seq<T>)
    ensures |r| <= |s|
  {
    var lo := if a < |s| then a else |s|;
    var hi := if b < |s| then b else |s|;
    if lo <= hi then s[lo..hi] else []
  }

  /** The colours the noise loop of `generate_asphalt` chooses from. */
  function Palette(asphaltType: int): seq<Rgb> {
    if asphaltType == 1 then Slice(ColorList(), 30, |ColorList()|)
    else if asphaltType == 2 then Slice(ColorList(), 3, 45)
    else [Black, White]
  }

  predicate IsGrey(c: Rgb) { c.0 == c.1 == c.2 }

  /** Every entry of `COLOR_LIST` is a grey between 0 and 190, in
      non-decreasing order. */
  lemma ColorListSpec()
    ensures forall i :: 0 <= i < 44 ==> IsGrey(ColorList()[i]) && 0 <= ColorList()[i].0 <= 190
    ensures forall i, j :: 0 <= i <= j < 44 ==> ColorList()[i].0 <= ColorList()[j].0
  {
    IntRampSpec(0, 98, 40);
    IntRampSpec(105, 190, 4);
    var dark := Ramp(0, 98, 40);
    var light := Ramp(105, 190, 4);
    var c := ColorList();
    assert forall i :: 0 <= i < 40 ==> c[i] == (dark[i], dark[i], dark[i]);
    assert forall i :: 40 <= i < 44 ==> c[i] == (light[i - 40], light[i - 40], light[i - 40]);
  }

  /** Type 1 draws from the 14 lightest entries of `COLOR_LIST`, type 2 from
      the 41 entries after the third (the slice end 45 is past the list),
      any other type from black and white. Every palette is non-empty and all
      its colours are greys. */
  lemma PaletteSpec(asphaltType: int)
    ensures asphaltType == 1 ==> Palette(asphaltType) == ColorList()[30..]
    ensures asphaltType == 2 ==> Palette(asphaltType) == ColorList()[3..]
    ensures asphaltType != 1 && asphaltType != 2 ==> Palette(asphaltType) == [Black, White]
    ensures |Palette(asphaltType)| == if asphaltType == 1 then 14 else if asphaltType == 2 then 41 else 2
    ensures forall i :: 0 <= i < |Palette(asphaltType)| ==> IsGrey(Palette(asphaltType)[i])
  {
    ColorListSpec();
  }

  /** `random.choice(palette)` for one pixel of the noise layer: a grey of
      the palette. */
  function NoiseColor(asphaltType: int, o: Rand.Oracle, k: nat): (c: Rgb)
    ensures c in Palette(asphaltType) && IsGrey(c)
  {
    PaletteSpec(asphaltType);
    Rand.ChoiceAt(o, k, Palette(asphaltType))
  }

  // ---------------------------------------------------------------------
  // DIR_V

  /** Pixel positions and offsets. */
  type Pixel = (int, int)

  /** The width and height of an image. */
  type Size = s: Pixel | s.0 >= 0 && s.1 >= 0 witness (0, 0)

  const NW: nat := 0
  const N: nat := 1
  const NE: nat := 2
  const E: nat := 3
  const SE: nat := 4
  const S: nat := 5
  const SW: nat := 6
  const W: nat := 7

  /** `DIR_V`: the unit offset of each compass direction, NW first, going
      clockwise. */
  function Directions(): (d: seq<Pixel>)
    ensures |d| == 8
  {
    [(-1, -1), (0, -1), (1, -1), (1, 0), (1, 1), (0, 1), (-1, 1), (-1, 0)]
  }

  function Unit(c: int): bool { -1 <= c <= 1 }

  /** Every direction moves by at most one in each axis and never stands
      still, and the direction four places on is the opposite one. */
  lemma DirectionsSpec()
    ensures forall i :: 0 <= i < 8 ==>
      Unit(Directions()[i].0) && Unit(Directions()[i].1) && Directions()[i] != (0, 0)
    ensures forall i :: 0 <= i < 4 ==>
      Directions()[i + 4] == (-Directions()[i].0, -Directions()[i].1)
  {
    var d := Directions();
    forall i | 0 <= i < 8
      ensures Unit(d[i].0) && Unit(d[i].1) && d[i] != (0, 0)
    {
      if i < 4 {
        assert i == 0 || i == 1 || i == 2 || i == 3;
      } else {
        assert i == 4 || i == 5 || i == 6 || i == 7;
      }
    }
  }

  // ---------------------------------------------------------------------
  // depth_brightness

  /** i / m as a float. */
  function Fraction(i: int, m: int): real
    requires m != 0
  {
    i as real / m as real
  }

  /** The step fraction is 0 at the first step and 1 at step m. */
  lemma FractionEnds(m: int)
    requires m != 0
    ensures Fraction(0, m) == 0.0 && Fraction(m, m) == 1.0
  {
    FractionTimes(m, m);
    CancelFactor(Fraction(m, m), 1.0, m as real);
  }

  /** Half way along, the step fraction is one half. */
  lemma FractionHalf(i: int, m: int)
    requires m != 0 && 2 * i == m
    ensures Fraction(i, m) == 0.5
  {
    var f := Fraction(i, m);
    FractionTimes(i, m);
    assert m as real == 2.0 * i as real;
    assert 0.5 * m as real == i as real;
    CancelFactor(f, 0.5, m as real);
  }

  /** Counting from the other end gives the complement of the fraction. */
  lemma FractionComplement(i: int, m: int)
    requires m != 0
    ensures Fraction(m - i, m) == 1.0 - Fraction(i, m)
  {
    var f := Fraction(i, m);
    var g := Fraction(m - i, m);
    FractionTimes(i, m);
    FractionTimes(m - i, m);
    assert (1.0 - f) * m as real == m as real - f * m as real;
    CancelFactor(g, 1.0 - f, m as real);
  }

  lemma FractionTimes(i: int, m: int)
    requires m != 0
    ensures Fraction(i, m) * m as real == i as real
  {
  }

  lemma CancelFactor(x: real, y: real, d: real)
    requires d != 0.0 && x * d == y * d
    ensures x == y
  {
    assert (x - y) * d == 0.0;
  }

  /** The grey at t turns around the profile: 255 minus a scaled
      `-cos(2πt) * 0.5 + 0.5`. */
  function Shade(trig: Trig.Trig, t: real): int {
    255 - Numerals.RoundHalfEven((-trig.cosTurn(t) * 0.5 + 0.5) * 250.0)
  }

  /** The grey of step i of m, for m != 0. */
  function DepthLevel(m: int, i: int, trig: Trig.Trig): int
    requires m != 0
  {
    Shade(trig, Fraction(i, m))
  }

  /** `depth_brightness(max_steps, i)`: the grey of the crack at step i, which
      divides by max_steps. */
  function DepthBrightness(m: int, i: int, trig: Trig.Trig): Result<int, AsphaltError> {
    if m == 0 then Failure(DivisionByZero) else Success(DepthLevel(m, i, trig))
  }

  /** The grey of a cosine value in [-1, 1] lies in [5, 255]; it is 255 for
      cosine 1 and 5 for cosine -1. */
  lemma ShadeSpec(trig: Trig.Trig, t: real)
    requires -1.0 <= trig.cosTurn(t) <= 1.0
    ensures 5 <= Shade(trig, t) <= 255
    ensures trig.cosTurn(t) == 1.0 ==> Shade(trig, t) == 255
    ensures trig.cosTurn(t) == -1.0 ==> Shade(trig, t) == 5
  {
    var x := (-trig.cosTurn(t) * 0.5 + 0.5) * 250.0;
    Numerals.RoundMonotone(0.0, x);
    Numerals.RoundMonotone(x, 250.0);
    Numerals.RoundInteger(0);
    Numerals.RoundInteger(250);
  }

  /** The crack is white (255, no depth) at both ends and darkest (5) in the
      middle, symmetric about the middle, and always within [5, 255]. */
  lemma DepthBrightnessSpec(m: int, i: int, trig: Trig.Trig)
    requires trig.Valid() && m != 0
    ensures DepthBrightness(m, i, trig).Success?
    ensures 5 <= DepthLevel(m, i, trig) <= 255
    ensures DepthLevel(m, 0, trig) == 255 && DepthLevel(m, m, trig) == 255
    ensures 2 * i == m ==> DepthLevel(m, i, trig) == 5
    ensures DepthLevel(m, m - i, trig) == DepthLevel(m, i, trig)
  {
    FractionEnds(m);
    FractionComplement(i, m);
    if 2 * i == m {
      FractionHalf(i, m);
    }
    ShadeSpec(trig, Fraction(i, m));
    ShadeSpec(trig, 0.0);
    ShadeSpec(trig, 1.0);
    ShadeSpec(trig, 0.5);
    assert Fraction(m - i, m) + Fraction(i, m) == 1.0;
  }

  // ---------------------------------------------------------------------
  // dynamic_width_crack

  function MidStart(m: int): real { m as real / 3.0 }

  function MidEnd(m: int): real { 2.0 * (m as real / 3.0) }

  function MinWidth(maxWidth: real): real { maxWidth * 0.2 }

  /** The width in the middle third: a sine arch from the minimal width up to
      the maximal one and back. */
  function ArchWidth(maxWidth: real, m: int, i: int, trig: Trig.Trig): real
    requires m != 0
  {
    Abs(trig.sinTurn(((i as real / m as real) * 3.0 - 1.0) / 2.0) * (maxWidth - MinWidth(maxWidth)) + MinWidth(maxWidth))
  }

  /** The `min_max` widths of the quad `dynamic_width_crack` stamps at step
      i of m: the minimal width in the first and last thirds, the arch width
      and half of it in the middle third, and ValueError outside [0, m]. */
  function CrackWidths(maxWidth: real, m: int, i: int, trig: Trig.Trig): Result<(real, real), AsphaltError> {
    if 0 <= i && i as real <= MidStart(m) then Success((MinWidth(maxWidth), MinWidth(maxWidth)))
    else if MidStart(m) < i as real <= MidEnd(m) then
      Success((ArchWidth(maxWidth, m, i, trig), ArchWidth(maxWidth, m, i, trig) * 0.5))
    else if MidEnd(m) < i as real <= m as real then Success((MinWidth(maxWidth), MinWidth(maxWidth)))
    else Failure(InvalidLengthIndex)
  }

  lemma ScaledSine(s: real, x: real)
    requires -1.0 <= s <= 1.0 && x >= 0.0
    ensures -x <= s * x <= x
  {
    MulMonotone(-1.0, s, x);
    MulMonotone(s, 1.0, x);
  }

  /** The arch never leaves [0, maxWidth]: the sine scales the span above
      the minimal width by at most one either way, and `math.fabs` keeps the
      result non-negative. */
  lemma ArchWidthBounds(maxWidth: real, m: int, i: int, trig: Trig.Trig)
    requires trig.Valid() && m != 0 && maxWidth >= 0.0
    ensures 0.0 <= ArchWidth(maxWidth, m, i, trig) <= maxWidth
  {
    var s := trig.sinTurn(((i as real / m as real) * 3.0 - 1.0) / 2.0);
    assert -1.0 <= s <= 1.0;
    ScaledSine(s, maxWidth - MinWidth(maxWidth));
  }

  /** Every step index from 0 to m has widths; for a non-negative maximal
      width both widths lie between 0 and the maximal width, the first,
      middle and last thirds being told apart as the source does. */
  lemma CrackWidthsSpec(maxWidth: real, m: int, i: int, trig: Trig.Trig)
    requires trig.Valid()
    ensures 0 <= i <= m ==> CrackWidths(maxWidth, m, i, trig).Success?
    ensures (i < 0 || i > m) ==> CrackWidths(maxWidth, m, i, trig) == Failure(InvalidLengthIndex)
    ensures maxWidth >= 0.0 && CrackWidths(maxWidth, m, i, trig).Success? ==>
      var r := CrackWidths(maxWidth, m, i, trig).value;
      0.0 <= r.1 <= r.0 <= maxWidth &&
      (MidStart(m) < i as real <= MidEnd(m) ==> r.1 == r.0 * 0.5) &&
      (!(MidStart(m) < i as real <= MidEnd(m)) ==> r.0 == r.1 == 0.2 * maxWidth)
  {
    if MidStart(m) < i as real <= MidEnd(m) && maxWidth >= 0.0 {
      ArchWidthBounds(maxWidth, m, i, trig);
    }
  }

  // ---------------------------------------------------------------------
  // point_randrange and random_quad

  /** One coordinate of `point_randrange`: c moved by a uniform draw between
      the bounds, scaled by the direction's component. */
  function Offset(c: int, bounds: (real, real), dir: int, o: Rand.Oracle, k: nat): real {
    c as real + Rand.UniformAt(o, k, bounds.0, bounds.1) * dir as real
  }

  /** `point_randrange(p, (lo, hi), direction)` for scalar bounds: the x draw
      comes first, then the y draw. */
  function PointRandRange(p: Pixel, bounds: (real, real), dir: Pixel, o: Rand.Oracle, k: nat): (real, real) {
    (Offset(p.0, bounds, dir.0, o, k), Offset(p.1, bounds, dir.1, o, k + 1))
  }

  /** `round(point_randrange(p, min_max, DIR_V[corner]))`. */
  function Vertex(p: Pixel, bounds: (real, real), corner: nat, o: Rand.Oracle, k: nat): Pixel
    requires corner < 8
  {
    (Numerals.RoundHalfEven(PointRandRange(p, bounds, Directions()[corner], o, k).0),
     Numerals.RoundHalfEven(PointRandRange(p, bounds, Directions()[corner], o, k).1))
  }

  /** The corners `random_quad` moves towards, in order. */
  function Corners(): seq<nat> { [NW, SW, SE, NE] }

  /** The number of draws one quad consumes: two per vertex. */
  const QuadDraws: nat := 8

  /** `random_quad(p, min_max)`. */
  function RandomQuad(p: Pixel, bounds: (real, real), o: Rand.Oracle, k: nat): (r: seq<Pixel>)
    ensures |r| == 4
  {
    [Vertex(p, bounds, NW, o, k), Vertex(p, bounds, SW, o, k + 2),
     Vertex(p, bounds, SE, o, k + 4), Vertex(p, bounds, NE, o, k + 6)]
  }

  /** A coordinate moved from c by an offset between a and b (a <= b) in the
      sign of dir, then rounded. */
  predicate Spread(v: int, c: int, dir: int, a: real, b: real) {
    (dir < 0 ==> Numerals.RoundHalfEven(c as real - b) <= v <= Numerals.RoundHalfEven(c as real - a)) &&
    (dir > 0 ==> Numerals.RoundHalfEven(c as real + a) <= v <= Numerals.RoundHalfEven(c as real + b))
  }

  function Lower(bounds: (real, real)): real { if bounds.0 <= bounds.1 then bounds.0 else bounds.1 }

  function Upper(bounds: (real, real)): real { if bounds.0 <= bounds.1 then bounds.1 else bounds.0 }

  /** v lies from p towards the given corner, by between the smaller and the
      larger of the bounds in each axis. */
  predicate Towards(v: Pixel, p: Pixel, corner: nat, bounds: (real, real))
    requires corner < 8
  {
    Spread(v.0, p.0, Directions()[corner].0, Lower(bounds), Upper(bounds)) &&
    Spread(v.1, p.1, Directions()[corner].1, Lower(bounds), Upper(bounds))
  }

  /** A rounded coordinate of `point_randrange` spreads from c by between
      the smaller and the larger bound, in the sign of a unit direction. */
  lemma SpreadAxis(c: int, bounds: (real, real), dir: int, o: Rand.Oracle, k: nat)
    requires Unit(dir)
    ensures Spread(Numerals.RoundHalfEven(Offset(c, bounds, dir, o, k)), c, dir, Lower(bounds), Upper(bounds))
  {
    var u := Rand.UniformAt(o, k, bounds.0, bounds.1);
    var x := Offset(c, bounds, dir, o, k);
    assert Lower(bounds) <= u <= Upper(bounds);
    if dir < 0 {
      assert x == c as real - u;
      Numerals.RoundMonotone(c as real - Upper(bounds), x);
      Numerals.RoundMonotone(x, c as real - Lower(bounds));
    } else if dir > 0 {
      assert x == c as real + u;
      Numerals.RoundMonotone(c as real + Lower(bounds), x);
      Numerals.RoundMonotone(x, c as real + Upper(bounds));
    }
  }

  lemma VertexSpec(p: Pixel, bounds: (real, real), corner: nat, o: Rand.Oracle, k: nat)
    requires corner < 8
    ensures Towards(Vertex(p, bounds, corner, o, k), p, corner, bounds)
  {
    DirectionsSpec();
    var d := Directions()[corner];
    SpreadAxis(p.0, bounds, d.0, o, k);
    SpreadAxis(p.1, bounds, d.1, o, k + 1);
  }

  /** Vertex j of the quad lies towards corner j of p: each coordinate is p's
      moved by between the smaller and the larger width, in the sign of that
      corner's direction, and rounded. */
  lemma RandomQuadSpec(p: Pixel, bounds: (real, real), o: Rand.Oracle, k: nat)
    ensures forall j :: 0 <= j < 4 ==> Towards(RandomQuad(p, bounds, o, k)[j], p, Corners()[j], bounds)
  {
    VertexSpec(p, bounds, NW, o, k);
    VertexSpec(p, bounds, SW, o, k + 2);
    VertexSpec(p, bounds, SE, o, k + 4);
    VertexSpec(p, bounds, NE, o, k + 6);
  }

  // ---------------------------------------------------------------------
  // The stamps

  /** One quad drawn by `draw_asphalt_shape(..., defects=True)`: white in the
      defect image and the grey `depth` in the depth image. */
  datatype Stamp = Stamp(quad: seq<Pixel>, depth: int)

  /** The draws one stamp consumes: the quad's and the `random.uniform` of
      its texture hue. */
  const StampDraws: nat := QuadDraws + 1

  /** What `dynamic_width_crack(p, max_width, max_steps, i, ...)` stamps: the
      depth grey is computed first, so max_steps == 0 divides by zero before
      the step index is checked. */
  function CrackStamp(p: Pixel, maxWidth: real, m: int, i: int, o: Rand.Oracle, k: nat, trig: Trig.Trig): Result<Stamp, AsphaltError> {
    match DepthBrightness(m, i, trig)
    case Failure(e) => Failure(e)
    case Success(depth) =>
      match CrackWidths(maxWidth, m, i, trig)
      case Failure(e) => Failure(e)
      case Success(bounds) => Success(Stamp(RandomQuad(p, bounds, o, k), depth))
  }

  /** For a step index of a walk of m >= 1 steps the stamp exists; its depth
      is that of the crack's brightness profile, and its quad spreads from p
      by the widths of the step. */
  lemma CrackStampSpec(p: Pixel, maxWidth: real, m: int, i: int, o: Rand.Oracle, k: nat, trig: Trig.Trig)
    requires trig.Valid() && 0 <= i < m
    ensures var r := CrackStamp(p, maxWidth, m, i, o, k, trig);
      r.Success? && r.value.depth == DepthLevel(m, i, trig) && 5 <= r.value.depth <= 255 &&
      r.value.quad == RandomQuad(p, CrackWidths(maxWidth, m, i, trig).value, o, k)
  {
    DepthBrightnessSpec(m, i, trig);
    CrackWidthsSpec(maxWidth, m, i, trig);
  }

  /** One call `dynamic_width_crack(center, max_width, length, step, ...)`,
      made when the generator stands at draw `draw`. */
  datatype Stroke = Stroke(center: Pixel, maxWidth: int, length: int, step: int, draw: nat)

  /** The error the call raises, if any. */
  function StrokeFailure(s: Stroke): Option<AsphaltError> {
    if s.length == 0 then Some(DivisionByZero)
    else if !(0 <= s.step <= s.length) then Some(InvalidLengthIndex)
    else None
  }

  /** What the call draws into the images. */
  function StrokeStamp(s: Stroke, o: Rand.Oracle, trig: Trig.Trig): Result<Stamp, AsphaltError> {
    CrackStamp(s.center, s.maxWidth as real, s.length, s.step, o, s.draw, trig)
  }

  /** A call fails exactly as `StrokeFailure` says, with the same error. */
  lemma StrokeFailureSpec(s: Stroke, o: Rand.Oracle, trig: Trig.Trig)
    requires trig.Valid()
    ensures StrokeStamp(s, o, trig).Failure? <==> StrokeFailure(s).Some?
    ensures StrokeFailure(s).Some? ==> StrokeStamp(s, o, trig).error == StrokeFailure(s).value
  {
    if s.length != 0 {
      CrackWidthsSpec(s.maxWidth as real, s.length, s.step, trig);
    }
  }

  // ---------------------------------------------------------------------
  // draw_crack

  /** `round(crack_width * 0.2)`. */
  function StepSize(crackWidth: int): int {
    Numerals.RoundHalfEven(crackWidth as real * 0.2)
  }

  /** A coordinate outside [0, size] is shifted once by size towards the
      inside. */
  function WrapInto(c: int, size: int): int {
    if 0 <= c <= size then c else c - size * (if c < 0 then -1 else 1)
  }

  /** A coordinate inside [0, size] moved by at most size stays inside after
      the shift, which is by exactly 0 or ±size. */
  lemma WrapIntoSpec(prev: int, delta: int, size: int)
    requires 0 <= prev <= size && -size <= delta <= size
    ensures 0 <= WrapInto(prev + delta, size) <= size
    ensures var d := WrapInto(prev + delta, size) - (prev + delta);
      d == 0 || d == size || d == -size
  {
  }

  lemma UnitScale(c: int, s: int)
    requires Unit(c) && 0 <= s
    ensures -s <= c * s <= s
  {
    if c == -1 {
      assert c * s == -s;
    } else if c == 1 {
      assert c * s == s;
    } else {
      assert c * s == 0;
    }
  }

  /** The position after one step in direction d. */
  function Advance(p: Pixel, d: nat, stepSize: int, size: Pixel): Pixel
    requires d < 8
  {
    (WrapInto(p.0 + Directions()[d].0 * stepSize, size.0),
     WrapInto(p.1 + Directions()[d].1 * stepSize, size.1))
  }

  /** `(start_direction + random.randint(-1, 1) + 8) % 8`. */
  function NextDirection(start: int, o: Rand.Oracle, k: nat): int {
    (start + Rand.RandIntAt(o, k, -1, 1) + 8) % 8
  }

  /** The next direction is a compass direction at most one step from the
      start direction, whatever the previous one was. */
  lemma NextDirectionSpec(start: int, o: Rand.Oracle, k: nat)
    requires 0 <= start < 8
    ensures var d := NextDirection(start, o, k);
      0 <= d < 8 && ((d - start + 8) % 8 == 0 || (d - start + 8) % 8 == 1 || (d - start + 8) % 8 == 7)
  {
  }

  /** The error the first statements of an iteration of `draw_crack` raise
      for a direction, as written: the guard admits 0 to 8, and 8 then reaches
      `DIR_V[8]`. */
  function StepFailureAsWritten(d: int): Option<AsphaltError> {
    if !(0 <= d <= 8) then Some(UnknownDirection)
    else if d >= |Directions()| then Some(IndexOutOfRange)
    else None
  }

  /** Direction 8 passes the guard and fails at the index instead. */
  lemma EightPassesGuard()
    ensures StepFailureAsWritten(8) == Some(IndexOutOfRange)
  {
  }

  /** The guard as intended: a direction is rejected exactly when `DIR_V`
      has no entry for it. */
  function StepFailure(d: int): (r: Option<AsphaltError>)
    ensures r.None? <==> 0 <= d < |Directions()|
    ensures r.Some? ==> r == Some(UnknownDirection)
  {
    if !(0 <= d < |Directions()|) then Some(UnknownDirection) else None
  }

  /** The intended guard differs from the written one only at 8. */
  lemma GuardsAgree(d: int)
    requires d != 8
    ensures StepFailure(d) == StepFailureAsWritten(d)
  {
  }

  /** The draws one step of the walk consumes: its stamp's and the
      `random.randint(-1, 1)` of the next direction. */
  const StepDraws: nat := StampDraws + 1

  /** The state of `draw_crack` between iterations: position, direction,
      the points so far, the calls of `dynamic_width_crack` so far, the next
      draw and the error that ended the walk, if any. */
  datatype Walk = Walk(p: Pixel, direction: int, points: seq<Pixel>, strokes: seq<Stroke>, next: nat, error: Option<AsphaltError>)

  /** The call iteration i makes from walk state w, after the step. */
  function StrokeAt(w: Walk, i: int, m: int, crackWidth: int, size: Pixel): Stroke
    requires 0 <= w.direction < 8
  {
    Stroke(Advance(w.p, w.direction, StepSize(crackWidth), size), crackWidth, m, i, w.next)
  }

  /** Iteration i of `draw_crack` from walk state w. */
  function WalkStep(w: Walk, start: int, i: nat, m: int, crackWidth: int, size: Pixel, o: Rand.Oracle): Walk {
    if StepFailure(w.direction).Some? then w.(error := StepFailure(w.direction))
    else if StrokeFailure(StrokeAt(w, i, m, crackWidth, size)).Some? then
      w.(error := StrokeFailure(StrokeAt(w, i, m, crackWidth, size)))
    else
      Walk(StrokeAt(w, i, m, crackWidth, size).center, NextDirection(start, o, w.next + StampDraws),
           w.points + [StrokeAt(w, i, m, crackWidth, size).center],
           w.strokes + [StrokeAt(w, i, m, crackWidth, size)], w.next + StepDraws, None)
  }

  /** The state of `draw_crack(p, start, m, crack_width, ...)` after n
      iterations, stopping at the first error. */
  function CrackAfter(p: Pixel, start: int, n: nat, m: int, crackWidth: int, size: Pixel, o: Rand.Oracle, k: nat): Walk {
    if n == 0 then Walk(p, start, [], [], k, None)
    else
      var w := CrackAfter(p, start, n - 1, m, crackWidth, size, o, k);
      if w.error.Some? then w else WalkStep(w, start, n - 1, m, crackWidth, size, o)
  }

  /** `draw_crack(p, direction, max_steps, crack_width, ...)`. */
  function Crack(p: Pixel, direction: int, m: int, crackWidth: int, size: Pixel, o: Rand.Oracle, k: nat): Walk {
    CrackAfter(p, direction, Count(m), m, crackWidth, size, o, k)
  }

  /** One iteration from a compass direction, at a step index before m,
      succeeds: it adds one point and the call that stamps it, uses ten draws
      and heads in a compass direction again. */
  lemma WalkStepSpec(w: Walk, start: int, i: nat, m: int, crackWidth: int, size: Pixel, o: Rand.Oracle)
    requires 0 <= start < 8 && 0 <= w.direction < 8 && i < m
    ensures var r := WalkStep(w, start, i, m, crackWidth, size, o);
      r.error.None? && r.points == w.points + [r.p] && r.next == w.next + StepDraws &&
      r.strokes == w.strokes + [Stroke(r.p, crackWidth, m, i, w.next)] && 0 <= r.direction < 8
  {
    NextDirectionSpec(start, o, w.next + StampDraws);
  }

  /** Call j of a walk: step j of m at width crackWidth, centred on point j,
      made at draw k + 10 j. */
  ghost predicate Calls(strokes: seq<Stroke>, points: seq<Pixel>, m: int, crackWidth: int, k: nat) {
    |strokes| == |points| &&
    forall j :: 0 <= j < |strokes| ==>
      strokes[j] == Stroke(points[j], crackWidth, m, j, k + StepDraws * j)
  }

  lemma CallsGrow(strokes: seq<Stroke>, points: seq<Pixel>, q: Pixel, m: int, crackWidth: int, k: nat)
    requires Calls(strokes, points, m, crackWidth, k)
    ensures Calls(strokes + [Stroke(q, crackWidth, m, |strokes|, k + StepDraws * |strokes|)], points + [q], m, crackWidth, k)
  {
    var s := strokes + [Stroke(q, crackWidth, m, |strokes|, k + StepDraws * |strokes|)];
    assert forall j :: 0 <= j < |strokes| ==> s[j] == strokes[j] && (points + [q])[j] == points[j];
  }

  /** From a compass direction the walk never fails: after n steps of at
      most m it holds n points, one call per point with its step index, and
      has used ten draws per step. */
  lemma {:induction false} CrackAfterSpec(p: Pixel, start: int, n: nat, m: int, crackWidth: int, size: Pixel, o: Rand.Oracle, k: nat)
    requires 0 <= start < 8 && n <= Count(m)
    ensures Shaped(CrackAfter(p, start, n, m, crackWidth, size, o, k), n, m, crackWidth, k)
  {
    if n > 0 {
      CrackAfterSpec(p, start, n - 1, m, crackWidth, size, o, k);
      var w := CrackAfter(p, start, n - 1, m, crackWidth, size, o, k);
      CrackAfterNext(p, start, n - 1, m, crackWidth, size, o, k, w);
      WalkStepKeeps(w, start, n - 1, m, crackWidth, size, o, k);
    }
  }

  /** A walk of n successful steps: n points, one call per point with its
      step index, ten draws per step, and a compass direction. */
  ghost predicate Shaped(w: Walk, n: nat, m: int, crackWidth: int, k: nat) {
    w.error.None? && |w.points| == n && w.next == k + StepDraws * n &&
    0 <= w.direction < 8 && Calls(w.strokes, w.points, m, crackWidth, k)
  }

  /** One successful iteration keeps the shape of `CrackAfterSpec`. */
  lemma WalkStepKeeps(w: Walk, start: int, i: nat, m: int, crackWidth: int, size: Pixel, o: Rand.Oracle, k: nat)
    requires 0 <= start < 8 && i < m && Shaped(w, i, m, crackWidth, k)
    ensures Shaped(WalkStep(w, start, i, m, crackWidth, size, o), i + 1, m, crackWidth, k)
  {
    WalkStepSpec(w, start, i, m, crackWidth, size, o);
    var r := WalkStep(w, start, i, m, crackWidth, size, o);
    CallsGrow(w.strokes, w.points, r.p, m, crackWidth, k);
  }

  /** Every call of a walk of m >= 1 steps stamps a quad whose depth grey
      follows the crack's brightness profile: white at the start, darkest
      half way. */
  lemma CrackDepths(p: Pixel, start: int, m: int, crackWidth: int, size: Pixel, o: Rand.Oracle, k: nat, trig: Trig.Trig)
    requires trig.Valid() && 0 <= start < 8 && m >= 1
    ensures var w := Crack(p, start, m, crackWidth, size, o, k);
      |w.strokes| == m &&
      forall j :: 0 <= j < m ==>
        StrokeStamp(w.strokes[j], o, trig).Success? &&
        StrokeStamp(w.strokes[j], o, trig).value.depth == DepthLevel(m, j, trig)
  {
    var w := Crack(p, start, m, crackWidth, size, o, k);
    CrackAfterSpec(p, start, m, m, crackWidth, size, o, k);
    forall j | 0 <= j < m
      ensures StrokeStamp(w.strokes[j], o, trig).Success?
      ensures StrokeStamp(w.strokes[j], o, trig).value.depth == DepthLevel(m, j, trig)
    {
      var s := w.strokes[j];
      assert s.length == m && s.step == j;
      CrackStampSpec(s.center, s.maxWidth as real, m, j, o, s.draw, trig);
    }
  }

  /** A walk that starts inside the image, with a step no longer than either
      side, stays inside the image: every point lies in [0, width] x
      [0, height]. */
  lemma {:induction false} CrackInside(p: Pixel, start: int, n: nat, m: int, crackWidth: int, size: Pixel, o: Rand.Oracle, k: nat)
    requires 0 <= p.0 <= size.0 && 0 <= p.1 <= size.1
    requires 0 <= StepSize(crackWidth) <= size.0 && StepSize(crackWidth) <= size.1
    ensures var w := CrackAfter(p, start, n, m, crackWidth, size, o, k);
      0 <= w.p.0 <= size.0 && 0 <= w.p.1 <= size.1 &&
      forall j :: 0 <= j < |w.points| ==> 0 <= w.points[j].0 <= size.0 && 0 <= w.points[j].1 <= size.1
  {
    if n > 0 {
      CrackInside(p, start, n - 1, m, crackWidth, size, o, k);
      var w := CrackAfter(p, start, n - 1, m, crackWidth, size, o, k);
      if w.error.None? && StepFailure(w.direction).None? {
        var d := Directions()[w.direction];
        var s := StepSize(crackWidth);
        DirectionsSpec();
        UnitScale(d.0, s);
        UnitScale(d.1, s);
        WrapIntoSpec(w.p.0, d.0 * s, size.0);
        WrapIntoSpec(w.p.1, d.1 * s, size.1);
      }
    }
  }

  /** An unknown initial direction stops the walk at its first step, before
      anything is stamped; a walk of no steps never looks at the direction. */
  lemma CrackBadDirection(p: Pixel, direction: int, m: int, crackWidth: int, size: Pixel, o: Rand.Oracle, k: nat)
    requires !(0 <= direction < 8)
    ensures var w := Crack(p, direction, m, crackWidth, size, o, k);
      (m >= 1 ==> w.error == Some(UnknownDirection) && w.points == [] && w.strokes == []) &&
      (m <= 0 ==> w.error.None? && w.points == [])
  {
    if m >= 1 {
      assert CrackAfter(p, direction, 1, m, crackWidth, size, o, k).error == Some(UnknownDirection);
      StaysFailed(p, direction, 1, Count(m), m, crackWidth, size, o, k);
    }
  }

  /** Once the walk has failed, further iterations change nothing. */
  lemma {:induction false} StaysFailed(p: Pixel, start: int, n: nat, n': nat, m: int, crackWidth: int, size: Pixel, o: Rand.Oracle, k: nat)
    requires n <= n'
    requires CrackAfter(p, start, n, m, crackWidth, size, o, k).error.Some?
    ensures CrackAfter(p, start, n', m, crackWidth, size, o, k) == CrackAfter(p, start, n, m, crackWidth, size, o, k)
    decreases n' - n
  {
    if n < n' {
      StaysFailed(p, start, n, n' - 1, m, crackWidth, size, o, k);
    }
  }

  /** Iteration i of `draw_crack` as written: the guard `0 <= direction <= 8`
      raises ValueError, `DIR_V[direction]` raises IndexError for 8, and
      otherwise the step goes on as in `WalkStep`. */
  function WalkStepAsWritten(w: Walk, start: int, i: nat, m: int, crackWidth: int, size: Pixel, o: Rand.Oracle): Walk {
    if StepFailureAsWritten(w.direction).Some? then w.(error := StepFailureAsWritten(w.direction))
    else WalkStep(w, start, i, m, crackWidth, size, o)
  }

  /** The state of `draw_crack` as written after n iterations. */
  function CrackAfterAsWritten(p: Pixel, start: int, n: nat, m: int, crackWidth: int, size: Pixel, o: Rand.Oracle, k: nat): Walk {
    if n == 0 then Walk(p, start, [], [], k, None)
    else
      var w := CrackAfterAsWritten(p, start, n - 1, m, crackWidth, size, o, k);
      if w.error.Some? then w else WalkStepAsWritten(w, start, n - 1, m, crackWidth, size, o)
  }

  /** `draw_crack(p, direction, max_steps, crack_width, ...)` as written. */
  function CrackAsWritten(p: Pixel, direction: int, m: int, crackWidth: int, size: Pixel, o: Rand.Oracle, k: nat): Walk {
    CrackAfterAsWritten(p, direction, Count(m), m, crackWidth, size, o, k)
  }

  /** For every start but 8 the walk as written is the corrected walk; its
      direction is the start until the first step and a compass direction
      after it. */
  lemma {:induction false} CrackAsWrittenAgrees(p: Pixel, start: int, n: nat, m: int, crackWidth: int, size: Pixel, o: Rand.Oracle, k: nat)
    requires start != 8
    ensures var w := CrackAfter(p, start, n, m, crackWidth, size, o, k);
      CrackAfterAsWritten(p, start, n, m, crackWidth, size, o, k) == w &&
      (w.direction == start || 0 <= w.direction < 8)
  {
    if n > 0 {
      CrackAsWrittenAgrees(p, start, n - 1, m, crackWidth, size, o, k);
      var w := CrackAfter(p, start, n - 1, m, crackWidth, size, o, k);
      if w.error.None? {
        GuardsAgree(w.direction);
      }
    }
  }

  /** As written, a walk of at least one step from direction 8 passes the
      guard and fails at `DIR_V[8]` with IndexError, before anything is
      stamped. */
  lemma {:induction false} CrackEightAsWritten(p: Pixel, n: nat, m: int, crackWidth: int, size: Pixel, o: Rand.Oracle, k: nat)
    requires n >= 1
    ensures CrackAfterAsWritten(p, 8, n, m, crackWidth, size, o, k) == Walk(p, 8, [], [], k, Some(IndexOutOfRange))
  {
    if n > 1 {
      CrackEightAsWritten(p, n - 1, m, crackWidth, size, o, k);
    }
  }

  /** As written, every start direction outside 0 to 8 stops the walk at its
      first step with ValueError, and one of 8 with IndexError. */
  lemma CrackBadDirectionAsWritten(p: Pixel, direction: int, m: int, crackWidth: int, size: Pixel, o: Rand.Oracle, k: nat)
    requires !(0 <= direction < 8) && m >= 1
    ensures var w := CrackAsWritten(p, direction, m, crackWidth, size, o, k);
      w.error == Some(if direction == 8 then IndexOutOfRange else UnknownDirection) &&
      w.points == [] && w.strokes == []
  {
    if direction == 8 {
      CrackEightAsWritten(p, Count(m), m, crackWidth, size, o, k);
    } else {
      CrackAsWrittenAgrees(p, direction, Count(m), m, crackWidth, size, o, k);
      CrackBadDirection(p, direction, m, crackWidth, size, o, k);
    }
  }

  // ---------------------------------------------------------------------
  // generate_cracks

  /** `round(5 * crack_length * img_width / crack_width)`. */
  function MaxSteps(crackLength: real, imgWidth: int, crackWidth: int): Result<int, AsphaltError> {
    if crackWidth == 0 then Failure(DivisionByZero)
    else Success(Numerals.RoundHalfEven(5.0 * crackLength * imgWidth as real / crackWidth as real))
  }

  /** The turns a branch may take away from its crack. */
  function Sides(): seq<int> { [-3, -2, -1, 1, 2, 3] }

  /** `(direction + random.choice([-3, -2, -1, 1, 2, 3]) + 8) % 8`. */
  function SideDirection(main: int, turn: int): int { (main + turn + 8) % 8 }

  /** A branch heads in a compass direction other than its crack's. */
  lemma SideDirectionSpec(main: int, turn: int)
    requires 0 <= main < 8 && turn in Sides()
    ensures 0 <= SideDirection(main, turn) < 8 && SideDirection(main, turn) != main
  {
  }

  /** The start of a crack in direction d: a random point of the image's
      top-left quarter, moved half the image against d. */
  function StartPoint(d: nat, size: Size, o: Rand.Oracle, k: nat): Pixel
    requires d < 8
  {
    (Rand.RandIntAt(o, k, 0, size.0 / 2) - Directions()[d].0 * (size.0 / 2),
     Rand.RandIntAt(o, k + 1, 0, size.1 / 2) - Directions()[d].1 * (size.1 / 2))
  }

  /** Moved by half the image along d, the start lies in the top-left
      quarter: the crack begins on the side d points away from. */
  lemma StartPointSpec(d: nat, size: Size, o: Rand.Oracle, k: nat)
    requires d < 8
    ensures var p := StartPoint(d, size, o, k);
      0 <= p.0 + Directions()[d].0 * (size.0 / 2) <= size.0 / 2 &&
      0 <= p.1 + Directions()[d].1 * (size.1 / 2) <= size.1 / 2
  {
  }

  /** `round(max_steps * (random.random() * 0.5 + 0.1))`: for a non-negative
      length, between a tenth and six tenths of it, rounded. */
  function BranchSteps(m: int, o: Rand.Oracle, k: nat): (r: int)
    ensures m >= 0 ==>
      Numerals.RoundHalfEven(m as real * 0.1) <= r <= Numerals.RoundHalfEven(m as real * 0.6)
  {
    ShareSteps(m, Share(Rand.RandomAt(o, k)))
  }

  /** `round(max_steps * share)`. */
  function ShareSteps(m: int, share: real): (r: int)
    requires 0.1 <= share <= 0.6
    ensures m >= 0 ==>
      Numerals.RoundHalfEven(m as real * 0.1) <= r <= Numerals.RoundHalfEven(m as real * 0.6)
  {
    if m >= 0 then
      ShareBounds(m as real, share, m as real * 0.1, m as real * share, m as real * 0.6);
      Numerals.RoundHalfEven(m as real * share)
    else Numerals.RoundHalfEven(m as real * share)
  }

  /** `random.random() * 0.5 + 0.1`: the share of the crack a branch takes,
      between a tenth and six tenths. */
  function Share(u: real): (s: real)
    requires 0.0 <= u < 1.0
    ensures 0.1 <= s <= 0.6
  {
    u * 0.5 + 0.1
  }

  /** A share s of a non-negative length d, rounded, is between a tenth and
      six tenths of d, rounded (the three products are named a, p and b). */
  lemma ShareBounds(d: real, s: real, a: real, p: real, b: real)
    requires 0.0 <= d && 0.1 <= s <= 0.6
    requires a == d * 0.1 && p == d * s && b == d * 0.6
    ensures Numerals.RoundHalfEven(a) <= Numerals.RoundHalfEven(p) <= Numerals.RoundHalfEven(b)
  {
    ShareBetween(d, s);
    Numerals.RoundOrdered(a, p, b);
  }

  lemma ShareBetween(d: real, s: real)
    requires 0.0 <= d && 0.1 <= s <= 0.6
    ensures d * 0.1 <= d * s <= d * 0.6
  {
    MulMonotone(0.1, s, d);
    MulMonotone(s, 0.6, d);
  }

  /** The calls made, the next draw, and the error that stopped the
      drawing. */
  datatype Outcome = Outcome(strokes: seq<Stroke>, next: nat, error: Option<AsphaltError>)

  function Then(a: Outcome, b: Outcome): Outcome {
    Outcome(a.strokes + b.strokes, b.next, b.error)
  }

  function Walked(w: Walk): Outcome { Outcome(w.strokes, w.next, w.error) }

  /** The loop bodies of `generate_cracks`: one crack with its branches, one
      branch of the crack with the given points, and the walk of one branch. */
  datatype Loop =
    | Cracking(m: int, crackWidth: int, size: Size, o: Rand.Oracle)
    | Branching(points: seq<Pixel>, main: int, m: int, size: Size, o: Rand.Oracle)
    | Walking(p: Pixel, direction: int, m: int, crackWidth: int, size: Size, o: Rand.Oracle)

  function Rank(l: Loop): nat {
    match l
    case Cracking(_, _, _, _) => 2
    case Branching(_, _, _, _, _) => 1
    case Walking(_, _, _, _, _, _) => 0
  }

  /** One iteration of a loop body, reading draws from k on. */
  function Iteration(l: Loop, k: nat): Outcome
    decreases Rank(l), 1, 0
  {
    match l
    case Cracking(m, crackWidth, size, o) => OneCrack(m, crackWidth, size, o, k)
    case Branching(points, main, m, size, o) => Branch(points, main, m, size, o, k)
    case Walking(p, direction, m, crackWidth, size, o) => Walked(Crack(p, direction, m, crackWidth, size, o, k))
  }

  /** A Python `for` loop of n iterations of l, each reading from the next
      unread draw on, that an exception ends. */
  function Repeat(l: Loop, n: nat, k: nat): Outcome
    decreases Rank(l), 2, n
  {
    if n == 0 then Outcome([], k, None)
    else
      var r := Repeat(l, n - 1, k);
      if r.error.Some? then r else Then(r, Iteration(l, r.next))
  }

  /** One crack of `generate_cracks`: its direction, its start and its walk;
      a walk without error is followed by `random.randint(1, 5)` branches. */
  function OneCrack(m: int, crackWidth: int, size: Size, o: Rand.Oracle, k: nat): Outcome
    decreases 2, 0, 0
  {
    var w := MainCrack(m, crackWidth, size, o, k);
    if w.error.Some? then Walked(w)
    else Then(Walked(w), Repeat(Branching(w.points, CrackDirection(o, k), m, size, o), Rand.RandIntAt(o, w.next, 1, 5), w.next + 1))
  }

  /** The width of every branch. */
  const BranchWidth: int := 3

  /** One branch of a crack with the given points: from a random point of the
      crack, in a side direction, for a random share of the length.
      `random.choice` of no points raises IndexError. */
  function Branch(points: seq<Pixel>, main: int, m: int, size: Size, o: Rand.Oracle, k: nat): Outcome
    decreases 1, 0, 0
  {
    if |points| == 0 then Outcome([], k, Some(IndexOutOfRange))
    else
      Iteration(Walking(Rand.ChoiceAt(o, k, points), SideDirection(main, Rand.ChoiceAt(o, k + 1, Sides())),
                        BranchSteps(m, o, k + 2), BranchWidth, size, o), k + 3)
  }

  /** When no iteration can fail, the loop runs to its end. */
  lemma {:induction false} RepeatSucceeds(l: Loop, n: nat, k: nat)
    requires forall x :: Iteration(l, x).error.None?
    ensures Repeat(l, n, k).error.None?
  {
    if n > 0 {
      RepeatSucceeds(l, n - 1, k);
    }
  }

  /** Once an iteration fails, the later ones change nothing. */
  lemma {:induction false} RepeatStaysFailed(l: Loop, n: nat, n': nat, k: nat)
    requires n <= n' && Repeat(l, n, k).error.Some?
    ensures Repeat(l, n', k) == Repeat(l, n, k)
    decreases n' - n
  {
    if n < n' {
      RepeatStaysFailed(l, n, n' - 1, k);
    }
  }

  /** When the first iteration fails, so does the loop, with its error. */
  lemma RepeatFirstFails(l: Loop, n: nat, k: nat)
    requires n >= 1 && Iteration(l, k).error.Some?
    ensures Repeat(l, n, k).error == Iteration(l, k).error
  {
    assert Repeat(l, 1, k) == Then(Outcome([], k, None), Iteration(l, k));
    RepeatStaysFailed(l, 1, n, k);
  }

  /** `random.randint(0, 7)`: the direction of a crack. */
  function CrackDirection(o: Rand.Oracle, k: nat): (d: nat)
    ensures d < 8
  {
    Rand.RandIntAt(o, k, 0, 7)
  }

  /** The walk of a crack read from draw k on, without its branches. */
  function MainCrack(m: int, crackWidth: int, size: Size, o: Rand.Oracle, k: nat): Walk {
    Crack(StartPoint(CrackDirection(o, k), size, o, k + 1), CrackDirection(o, k), m, crackWidth, size, o, k + 3)
  }

  /** `generate_cracks(texture_img, defects_img, depth_img, crack_length,
      crack_width, number_of_cracks)`. */
  function Cracks(size: Size, crackLength: real, crackWidth: int, numberOfCracks: int, o: Rand.Oracle, k: nat): Outcome {
    match MaxSteps(crackLength, size.0, crackWidth)
    case Failure(e) => Outcome([], k, Some(e))
    case Success(m) => Repeat(Cracking(m, crackWidth, size, o), Count(numberOfCracks), k)
  }

  /** A branch of a crack with at least one point never fails. */
  lemma BranchSucceeds(points: seq<Pixel>, main: int, m: int, size: Size, o: Rand.Oracle, k: nat)
    requires |points| > 0 && 0 <= main < 8
    ensures Branch(points, main, m, size, o, k).error.None?
  {
    var p := Rand.ChoiceAt(o, k, points);
    var side := SideDirection(main, Rand.ChoiceAt(o, k + 1, Sides()));
    SideDirectionSpec(main, Rand.ChoiceAt(o, k + 1, Sides()));
    var steps := BranchSteps(m, o, k + 2);
    CrackAfterSpec(p, side, Count(steps), steps, BranchWidth, size, o, k + 3);
    assert Branch(points, main, m, size, o, k) == Iteration(Walking(p, side, steps, BranchWidth, size, o), k + 3);
    assert Iteration(Walking(p, side, steps, BranchWidth, size, o), k + 3) ==
      Walked(Crack(p, side, steps, BranchWidth, size, o, k + 3));
  }

  /** The walk of a crack never fails and has one point per step. */
  lemma MainCrackSpec(m: int, crackWidth: int, size: Size, o: Rand.Oracle, k: nat)
    ensures MainCrack(m, crackWidth, size, o, k).error.None?
    ensures |MainCrack(m, crackWidth, size, o, k).points| == Count(m)
  {
    var d := CrackDirection(o, k);
    CrackAfterSpec(StartPoint(d, size, o, k + 1), d, Count(m), m, crackWidth, size, o, k + 3);
  }

  /** A crack of at least one step never fails; one of no steps has no point
      to branch from and raises IndexError. */
  lemma OneCrackSpec(m: int, crackWidth: int, size: Size, o: Rand.Oracle, k: nat)
    ensures m >= 1 ==> Iteration(Cracking(m, crackWidth, size, o), k).error.None?
    ensures m <= 0 ==> Iteration(Cracking(m, crackWidth, size, o), k).error == Some(IndexOutOfRange)
  {
    var d := CrackDirection(o, k);
    var w := MainCrack(m, crackWidth, size, o, k);
    MainCrackSpec(m, crackWidth, size, o, k);
    var b := Rand.RandIntAt(o, w.next, 1, 5);
    var l := Branching(w.points, d, m, size, o);
    assert Iteration(Cracking(m, crackWidth, size, o), k) == OneCrack(m, crackWidth, size, o, k);
    assert OneCrack(m, crackWidth, size, o, k) == Then(Walked(w), Repeat(l, b, w.next + 1));
    if m >= 1 {
      forall x ensures Iteration(l, x).error.None? {
        BranchSucceeds(w.points, d, m, size, o, x);
      }
      RepeatSucceeds(l, b, w.next + 1);
    } else {
      assert Iteration(l, w.next + 1).error == Some(IndexOutOfRange);
      RepeatFirstFails(l, b, w.next + 1);
    }
  }

  /** One branch as `generate_cracks` sets it up: the crack point it starts
      from, its side direction, its number of steps and the draw its walk
      reads from. */
  datatype BranchPlan = BranchPlan(from: Pixel, direction: int, steps: int, draw: nat)

  /** The calls of the walks of some branches, one branch after the other. */
  function BranchStrokes(plans: seq<BranchPlan>, size: Size, o: Rand.Oracle): seq<Stroke> {
    if plans == [] then []
    else
      var b := plans[|plans| - 1];
      BranchStrokes(plans[..|plans| - 1], size, o) + Crack(b.from, b.direction, b.steps, BranchWidth, size, o, b.draw).strokes
  }

  /** Every branch starts at a point of its crack, heads in a compass
      direction other than the crack's, and takes between a tenth and six
      tenths of the crack's steps, rounded. */
  ghost predicate BranchesFrom(plans: seq<BranchPlan>, points: seq<Pixel>, main: int, m: int) {
    forall j :: 0 <= j < |plans| ==>
      plans[j].from in points && 0 <= plans[j].direction < 8 && plans[j].direction != main &&
      Numerals.RoundHalfEven(m as real * 0.1) <= plans[j].steps <= Numerals.RoundHalfEven(m as real * 0.6)
  }

  /** The branch that the branch loop sets up when it reads from draw x:
      a random point, a random turn, a random share of the steps, and then
      the walk. */
  function PlanAt(points: seq<Pixel>, main: int, m: int, o: Rand.Oracle, x: nat): BranchPlan
    requires |points| > 0
  {
    BranchPlan(Rand.ChoiceAt(o, x, points), SideDirection(main, Rand.ChoiceAt(o, x + 1, Sides())), BranchSteps(m, o, x + 2), x + 3)
  }

  /** The branch read from draw x is set up as `BranchesFrom` says and draws
      its walk. */
  lemma PlanAtSpec(points: seq<Pixel>, main: int, m: int, size: Size, o: Rand.Oracle, x: nat)
    requires |points| > 0 && 0 <= main < 8 && m >= 0
    ensures var b := PlanAt(points, main, m, o, x);
      BranchesFrom([b], points, main, m) &&
      Iteration(Branching(points, main, m, size, o), x) == Walked(Crack(b.from, b.direction, b.steps, BranchWidth, size, o, b.draw))
  {
    var b := PlanAt(points, main, m, o, x);
    SideDirectionSpec(main, Rand.ChoiceAt(o, x + 1, Sides()));
    assert Iteration(Branching(points, main, m, size, o), x) == Branch(points, main, m, size, o, x);
    assert Branch(points, main, m, size, o, x) == Iteration(Walking(b.from, b.direction, b.steps, BranchWidth, size, o), b.draw);
  }

  /** Adding one branch to some branches. */
  lemma BranchesGrow(plans: seq<BranchPlan>, b: BranchPlan, points: seq<Pixel>, main: int, m: int, size: Size, o: Rand.Oracle)
    requires BranchesFrom(plans, points, main, m) && BranchesFrom([b], points, main, m)
    ensures BranchesFrom(plans + [b], points, main, m)
    ensures BranchStrokes(plans + [b], size, o) ==
      BranchStrokes(plans, size, o) + Crack(b.from, b.direction, b.steps, BranchWidth, size, o, b.draw).strokes
  {
    assert (plans + [b])[..|plans|] == plans;
  }

  /** The branches that n iterations of the branch loop set up. */
  ghost function Plans(points: seq<Pixel>, main: int, m: int, size: Size, o: Rand.Oracle, n: nat, k: nat): seq<BranchPlan>
    requires |points| > 0
  {
    if n == 0 then []
    else Plans(points, main, m, size, o, n - 1, k) + [PlanAt(points, main, m, o, Repeat(Branching(points, main, m, size, o), n - 1, k).next)]
  }

  /** One more iteration of a loop that has not failed. */
  lemma RepeatNext(l: Loop, n: nat, k: nat)
    requires n > 0 && Repeat(l, n - 1, k).error.None?
    ensures Repeat(l, n, k) == Then(Repeat(l, n - 1, k), Iteration(l, Repeat(l, n - 1, k).next))
  {
  }

  /** n iterations of the branch loop of a crack with points succeed and
      draw exactly the walks of the n branches they set up, each as
      `BranchesFrom` says. */
  lemma {:induction false} RepeatBranches(points: seq<Pixel>, main: int, m: int, size: Size, o: Rand.Oracle, n: nat, k: nat)
    requires |points| > 0 && 0 <= main < 8 && m >= 0
    ensures var plans := Plans(points, main, m, size, o, n, k);
      Repeat(Branching(points, main, m, size, o), n, k).error.None? &&
      |plans| == n && BranchesFrom(plans, points, main, m) &&
      Repeat(Branching(points, main, m, size, o), n, k).strokes == BranchStrokes(plans, size, o)
  {
    if n > 0 {
      RepeatBranches(points, main, m, size, o, n - 1, k);
      BranchesStep(points, main, m, size, o, n, k);
    }
  }

  /** The step of `RepeatBranches`. */
  lemma BranchesStep(points: seq<Pixel>, main: int, m: int, size: Size, o: Rand.Oracle, n: nat, k: nat)
    requires |points| > 0 && 0 <= main < 8 && m >= 0 && n > 0
    requires var plans := Plans(points, main, m, size, o, n - 1, k);
      Repeat(Branching(points, main, m, size, o), n - 1, k).error.None? &&
      |plans| == n - 1 && BranchesFrom(plans, points, main, m) &&
      Repeat(Branching(points, main, m, size, o), n - 1, k).strokes == BranchStrokes(plans, size, o)
    ensures var plans := Plans(points, main, m, size, o, n, k);
      Repeat(Branching(points, main, m, size, o), n, k).error.None? &&
      |plans| == n && BranchesFrom(plans, points, main, m) &&
      Repeat(Branching(points, main, m, size, o), n, k).strokes == BranchStrokes(plans, size, o)
  {
    var l := Branching(points, main, m, size, o);
    var r := Repeat(l, n - 1, k);
    var b := PlanAt(points, main, m, o, r.next);
    PlanAtSpec(points, main, m, size, o, r.next);
    BranchSucceeds(points, main, m, size, o, r.next);
    RepeatNext(l, n, k);
    BranchesGrow(Plans(points, main, m, size, o, n - 1, k), b, points, main, m, size, o);
  }

  /** A crack whose walk has not failed: the walk, then its branches. */
  lemma OneCrackUnfold(m: int, crackWidth: int, size: Size, o: Rand.Oracle, k: nat)
    requires MainCrack(m, crackWidth, size, o, k).error.None?
    ensures var w := MainCrack(m, crackWidth, size, o, k);
      Iteration(Cracking(m, crackWidth, size, o), k) ==
        Then(Walked(w), Repeat(Branching(w.points, CrackDirection(o, k), m, size, o), Rand.RandIntAt(o, w.next, 1, 5), w.next + 1))
  {
    assert Iteration(Cracking(m, crackWidth, size, o), k) == OneCrack(m, crackWidth, size, o, k);
  }

  /** A crack of at least one step draws its main walk and then between one
      and five branch walks, each from a point of the main walk, in a side
      direction, for a share of its steps. */
  lemma OneCrackBranches(m: int, crackWidth: int, size: Size, o: Rand.Oracle, k: nat)
    requires m >= 1
    ensures var w := MainCrack(m, crackWidth, size, o, k);
      exists plans: seq<BranchPlan> ::
        1 <= |plans| <= 5 && BranchesFrom(plans, w.points, CrackDirection(o, k), m) &&
        Iteration(Cracking(m, crackWidth, size, o), k).strokes == w.strokes + BranchStrokes(plans, size, o)
  {
    var d := CrackDirection(o, k);
    var w := MainCrack(m, crackWidth, size, o, k);
    MainCrackSpec(m, crackWidth, size, o, k);
    var b := Rand.RandIntAt(o, w.next, 1, 5);
    OneCrackUnfold(m, crackWidth, size, o, k);
    RepeatBranches(w.points, d, m, size, o, b, w.next + 1);
    var plans := Plans(w.points, d, m, size, o, b, w.next + 1);
    assert Iteration(Cracking(m, crackWidth, size, o), k).strokes == w.strokes + BranchStrokes(plans, size, o);
  }

  /** A coordinate from which one step of at most s lands within one side
      of [0, side], so that the single wrap of `WrapInto` brings it inside. */
  function Near(c: int, side: int, s: int): bool {
    -(side - s) <= c <= 2 * side - s
  }

  /** Whatever lies within one side of [0, size] wraps into it. */
  lemma WrapBand(c: int, size: int)
    requires -size <= c <= 2 * size
    ensures 0 <= WrapInto(c, size) <= size
  {
  }

  /** A walk that starts near the image, with a step no longer than
      either side, has every point inside the image: the first step wraps
      into [0, width] x [0, height], and every later step stays there. */
  lemma {:induction false} CrackInsideFrom(p: Pixel, start: int, n: nat, m: int, crackWidth: int, size: Pixel, o: Rand.Oracle, k: nat)
    requires 0 <= StepSize(crackWidth) <= size.0 && StepSize(crackWidth) <= size.1
    requires Near(p.0, size.0, StepSize(crackWidth)) && Near(p.1, size.1, StepSize(crackWidth))
    ensures var w := CrackAfter(p, start, n, m, crackWidth, size, o, k);
      Near(w.p.0, size.0, StepSize(crackWidth)) && Near(w.p.1, size.1, StepSize(crackWidth)) &&
      forall j :: 0 <= j < |w.points| ==> 0 <= w.points[j].0 <= size.0 && 0 <= w.points[j].1 <= size.1
  {
    if n > 0 {
      CrackInsideFrom(p, start, n - 1, m, crackWidth, size, o, k);
      var w := CrackAfter(p, start, n - 1, m, crackWidth, size, o, k);
      if w.error.None? && StepFailure(w.direction).None? {
        var d := Directions()[w.direction];
        var s := StepSize(crackWidth);
        DirectionsSpec();
        UnitScale(d.0, s);
        UnitScale(d.1, s);
        WrapBand(w.p.0 + d.0 * s, size.0);
        WrapBand(w.p.1 + d.1 * s, size.1);
      }
    }
  }

  /** The walk of every crack stays inside the image, although it may
      start up to half the image outside it, as long as a step is no longer
      than the larger half of either side. */
  lemma MainCrackInside(m: int, crackWidth: int, size: Size, o: Rand.Oracle, k: nat)
    requires 0 <= StepSize(crackWidth) <= size.0 - size.0 / 2 && StepSize(crackWidth) <= size.1 - size.1 / 2
    ensures var w := MainCrack(m, crackWidth, size, o, k);
      forall j :: 0 <= j < |w.points| ==> 0 <= w.points[j].0 <= size.0 && 0 <= w.points[j].1 <= size.1
  {
    var d := CrackDirection(o, k);
    var p := StartPoint(d, size, o, k + 1);
    StartPointSpec(d, size, o, k + 1);
    DirectionsSpec();
    UnitScale(Directions()[d].0, size.0 / 2);
    UnitScale(Directions()[d].1, size.1 / 2);
    CrackInsideFrom(p, d, Count(m), m, crackWidth, size, o, k + 3);
  }

  /** `generate_cracks` fails exactly in two ways: a zero crack width divides
      by zero, and a crack length that rounds to no steps leaves the first
      crack without a point to branch from (IndexError). Otherwise every
      crack and branch is drawn. */
  lemma GenerateCracksSpec(size: Size, crackLength: real, crackWidth: int, numberOfCracks: int, o: Rand.Oracle, k: nat)
    ensures var r := Cracks(size, crackLength, crackWidth, numberOfCracks, o, k);
      (crackWidth == 0 ==> r.error == Some(DivisionByZero)) &&
      (crackWidth != 0 && MaxSteps(crackLength, size.0, crackWidth).value >= 1 ==> r.error.None?) &&
      (crackWidth != 0 && MaxSteps(crackLength, size.0, crackWidth).value <= 0 && numberOfCracks >= 1 ==>
         r.error == Some(IndexOutOfRange)) &&
      (numberOfCracks <= 0 ==> r == (if crackWidth == 0 then Outcome([], k, Some(DivisionByZero)) else Outcome([], k, None)))
  {
    if crackWidth != 0 {
      var m := MaxSteps(crackLength, size.0, crackWidth).value;
      var l := Cracking(m, crackWidth, size, o);
      if m >= 1 {
        forall x ensures Iteration(l, x).error.None? {
          OneCrackSpec(m, crackWidth, size, o, x);
        }
        RepeatSucceeds(l, Count(numberOfCracks), k);
      } else if numberOfCracks >= 1 {
        OneCrackSpec(m, crackWidth, size, o, k);
        RepeatFirstFails(l, Count(numberOfCracks), k);
      }
    }
  }

  /** One more iteration of a walk that has not failed. */
  lemma CrackAfterNext(p: Pixel, start: int, i: nat, m: int, crackWidth: int, size: Pixel, o: Rand.Oracle, k: nat, w: Walk)
    requires w == CrackAfter(p, start, i, m, crackWidth, size, o, k) && w.error.None?
    ensures CrackAfter(p, start, i + 1, m, crackWidth, size, o, k) == WalkStep(w, start, i, m, crackWidth, size, o)
  {
  }

  /** An iteration whose step and stamp succeed moves to the stamped point. */
  lemma WalkStepTaken(w: Walk, start: int, i: nat, m: int, crackWidth: int, size: Pixel, o: Rand.Oracle, q': Pixel)
    requires 0 <= w.direction < 8 && q' == Advance(w.p, w.direction, StepSize(crackWidth), size)
    requires StrokeFailure(Stroke(q', crackWidth, m, i, w.next)).None?
    ensures WalkStep(w, start, i, m, crackWidth, size, o) ==
      Walk(q', NextDirection(start, o, w.next + StampDraws), w.points + [q'],
           w.strokes + [Stroke(q', crackWidth, m, i, w.next)], w.next + StepDraws, None)
  {
  }

  /** The walk after iteration i, when that iteration steps from q to q'
      and stamps q' without error. */
  lemma CrackAfterTaken(p: Pixel, start: int, i: nat, m: int, crackWidth: int, size: Pixel, o: Rand.Oracle, k: nat,
                        q: Pixel, dir: int, points: seq<Pixel>, drawn: seq<Stroke>, next: nat, q': Pixel)
    requires Walk(q, dir, points, drawn, next, None) == CrackAfter(p, start, i, m, crackWidth, size, o, k)
    requires 0 <= dir < 8 && q' == Advance(q, dir, StepSize(crackWidth), size)
    requires StrokeFailure(Stroke(q', crackWidth, m, i, next)).None?
    ensures CrackAfter(p, start, i + 1, m, crackWidth, size, o, k) ==
      Walk(q', NextDirection(start, o, next + StampDraws), points + [q'],
           drawn + [Stroke(q', crackWidth, m, i, next)], next + StepDraws, None)
  {
    var w := Walk(q, dir, points, drawn, next, None);
    CrackAfterNext(p, start, i, m, crackWidth, size, o, k, w);
    WalkStepTaken(w, start, i, m, crackWidth, size, o, q');
  }

  /** A walk whose direction at iteration i is not a compass direction
      stops there with `UnknownDirection`. */
  lemma CrackAfterStopped(p: Pixel, start: int, i: nat, m: int, crackWidth: int, size: Pixel, o: Rand.Oracle, k: nat,
                          q: Pixel, dir: int, points: seq<Pixel>, drawn: seq<Stroke>, next: nat)
    requires Walk(q, dir, points, drawn, next, None) == CrackAfter(p, start, i, m, crackWidth, size, o, k)
    requires i < Count(m) && !(0 <= dir < |Directions()|)
    ensures Crack(p, start, m, crackWidth, size, o, k) == Walk(q, dir, points, drawn, next, Some(UnknownDirection))
  {
    var w := Walk(q, dir, points, drawn, next, None);
    CrackAfterNext(p, start, i, m, crackWidth, size, o, k, w);
    WalkStepCases(w, start, i, m, crackWidth, size, o);
    StaysFailed(p, start, i + 1, Count(m), m, crackWidth, size, o, k);
  }

  /** The three outcomes of one iteration of the walk. */
  lemma WalkStepCases(w: Walk, start: int, i: nat, m: int, crackWidth: int, size: Pixel, o: Rand.Oracle)
    ensures StepFailure(w.direction).Some? ==>
      WalkStep(w, start, i, m, crackWidth, size, o) == w.(error := Some(UnknownDirection))
    ensures StepFailure(w.direction).None? ==>
      var s := StrokeAt(w, i, m, crackWidth, size);
      (StrokeFailure(s).Some? ==> WalkStep(w, start, i, m, crackWidth, size, o) == w.(error := StrokeFailure(s))) &&
      (StrokeFailure(s).None? ==>
         WalkStep(w, start, i, m, crackWidth, size, o) ==
         Walk(s.center, NextDirection(start, o, w.next + StampDraws), w.points + [s.center], w.strokes + [s], w.next + StepDraws, None))
  {
  }

  /** Whether step i of m lies in one of the three phases of
      `dynamic_width_crack`. */
  predicate InPhase(m: int, i: int) {
    (0 <= i && i as real <= MidStart(m)) || (MidStart(m) < i as real <= MidEnd(m)) || (MidEnd(m) < i as real <= m as real)
  }

  /** The three phases together cover exactly the steps 0 to m. */
  lemma PhasesCover(m: int, i: int)
    ensures InPhase(m, i) <==> 0 <= i <= m
  {
  }

  // ---------------------------------------------------------------------
  // The images

  /** The three images of one asphalt texture, as the calls of
      `dynamic_width_crack` made on them so far; `StrokeStamp` gives the quad
      and depth grey each call draws. */
  class Surface {
    var strokes: seq<Stroke>

    constructor ()
      ensures strokes == []
    {
      strokes := [];
    }

    /** `dynamic_width_crack(p, max_width, max_steps, i, ...)` at draw k. */
    method DynamicWidthCrack(p: Pixel, maxWidth: int, m: int, i: int, k: nat)
      returns (error: Option<AsphaltError>)
      modifies this
      ensures error == StrokeFailure(Stroke(p, maxWidth, m, i, k))
      ensures error.None? ==> strokes == old(strokes) + [Stroke(p, maxWidth, m, i, k)]
      ensures error.Some? ==> strokes == old(strokes)
    {
      if m == 0 {
        return Some(DivisionByZero);
      }
      PhasesCover(m, i);
      if !InPhase(m, i) {
        return Some(InvalidLengthIndex);
      }
      strokes := strokes + [Stroke(p, maxWidth, m, i, k)];
      error := None;
    }

    /** The rest of iteration i of `draw_crack` once the direction is known
        to be a compass direction: step, stamp the new position and turn. */
    method DrawStep(q: Pixel, dir: int, start: int, i: nat, m: int, crackWidth: int, size: Pixel, o: Rand.Oracle, next: nat)
      returns (q': Pixel, dir': int)
      requires 0 <= dir < 8 && i < Count(m)
      modifies this
      ensures q' == Advance(q, dir, StepSize(crackWidth), size)
      ensures dir' == NextDirection(start, o, next + StampDraws)
      ensures StrokeFailure(Stroke(q', crackWidth, m, i, next)).None?
      ensures strokes == old(strokes) + [Stroke(q', crackWidth, m, i, next)]
    {
      q' := Advance(q, dir, StepSize(crackWidth), size);
      var error := DynamicWidthCrack(q', crackWidth, m, i, next);
      // every step index of the walk lies between 0 and max_steps
      assert error.None?;
      dir' := NextDirection(start, o, next + StampDraws);
    }

    /** `draw_crack(p, direction, max_steps, crack_width, ...)`: the points of
        the walk, the next draw and the error that stopped it, with the calls
        that stamp the walk. */
    method DrawCrack(p: Pixel, direction: int, m: int, crackWidth: int, size: Pixel, o: Rand.Oracle, k: nat)
      returns (points: seq<Pixel>, next: nat, error: Option<AsphaltError>)
      modifies this
      ensures var w := Crack(p, direction, m, crackWidth, size, o, k);
        points == w.points && next == w.next && error == w.error && strokes == old(strokes) + w.strokes
    {
      var start := direction;
      var q := p;
      var dir := direction;
      points := [];
      next := k;
      error := None;
      ghost var drawn: seq<Stroke> := [];
      var i: nat := 0;
      while i < Count(m)
        invariant i <= Count(m)
        invariant Walk(q, dir, points, drawn, next, None) == CrackAfter(p, start, i, m, crackWidth, size, o, k)
        invariant strokes == old(strokes) + drawn && error.None?
      {
        if !(0 <= dir < |Directions()|) {
          CrackAfterStopped(p, start, i, m, crackWidth, size, o, k, q, dir, points, drawn, next);
          error := Some(UnknownDirection);
          return;
        }
        ghost var q0, dir0 := q, dir;
        q, dir := DrawStep(q, dir, start, i, m, crackWidth, size, o, next);
        CrackAfterTaken(p, start, i, m, crackWidth, size, o, k, q0, dir0, points, drawn, next, q);
        drawn := drawn + [Stroke(q, crackWidth, m, i, next)];
        points := points + [q];
        next := next + StepDraws;
        i := i + 1;
      }
    }

    /** One branch of `generate_cracks`. */
    method DrawBranch(points: seq<Pixel>, main: int, m: int, size: Size, o: Rand.Oracle, k: nat)
      returns (next: nat, error: Option<AsphaltError>)
      modifies this
      ensures var r := Branch(points, main, m, size, o, k);
        next == r.next && error == r.error && strokes == old(strokes) + r.strokes
    {
      if |points| == 0 {
        return k, Some(IndexOutOfRange);
      }
      var position := Rand.ChoiceAt(o, k, points);
      var sideDirection := SideDirection(main, Rand.ChoiceAt(o, k + 1, Sides()));
      var steps := BranchSteps(m, o, k + 2);
      var branchPoints;
      branchPoints, next, error := DrawCrack(position, sideDirection, steps, BranchWidth, size, o, k + 3);
      assert Iteration(Walking(position, sideDirection, steps, BranchWidth, size, o), k + 3) ==
        Walked(Crack(position, sideDirection, steps, BranchWidth, size, o, k + 3));
    }

    /** The branch loop of `generate_cracks`: count branches of the crack
        with the given points. */
    method DrawBranches(points: seq<Pixel>, main: int, m: int, count: int, size: Size, o: Rand.Oracle, k: nat)
      returns (next: nat, error: Option<AsphaltError>)
      modifies this
      ensures var r := Repeat(Branching(points, main, m, size, o), Count(count), k);
        next == r.next && error == r.error && strokes == old(strokes) + r.strokes
    {
      ghost var l := Branching(points, main, m, size, o);
      ghost var drawn: seq<Stroke> := [];
      next := k;
      error := None;
      var b: nat := 0;
      while b < Count(count)
        invariant b <= Count(count)
        invariant strokes == old(strokes) + drawn && error.None?
        invariant Repeat(l, b, k) == Outcome(drawn, next, None)
      {
        ghost var before := strokes;
        assert Iteration(l, next) == Branch(points, main, m, size, o, next);
        next, error := DrawBranch(points, main, m, size, o, next);
        drawn := drawn + strokes[|before|..];
        assert strokes == old(strokes) + drawn;
        if error.Some? {
          RepeatStaysFailed(l, b + 1, Count(count), k);
          return;
        }
        b := b + 1;
      }
    }

    /** One crack of `generate_cracks` with its branches. */
    method DrawOneCrack(m: int, crackWidth: int, size: Size, o: Rand.Oracle, k: nat)
      returns (next: nat, error: Option<AsphaltError>)
      modifies this
      ensures var r := Iteration(Cracking(m, crackWidth, size, o), k);
        next == r.next && error == r.error && strokes == old(strokes) + r.strokes
    {
      var direction := CrackDirection(o, k);
      var p := StartPoint(direction, size, o, k + 1);
      var crackPoints;
      crackPoints, next, error := DrawCrack(p, direction, m, crackWidth, size, o, k + 3);
      ghost var w := MainCrack(m, crackWidth, size, o, k);
      assert Iteration(Cracking(m, crackWidth, size, o), k) == OneCrack(m, crackWidth, size, o, k);
      if error.Some? {
        return;
      }
      var count := Rand.RandIntAt(o, next, 1, 5);
      next, error := DrawBranches(crackPoints, direction, m, count, size, o, next + 1);
    }

    /** `generate_cracks(texture_img, defects_img, depth_img, crack_length,
        crack_width, number_of_cracks)`, reading draws from k on. */
    method GenerateCracks(size: Size, crackLength: real, crackWidth: int, numberOfCracks: int, o: Rand.Oracle, k: nat)
      returns (next: nat, error: Option<AsphaltError>)
      modifies this
      ensures var r := Cracks(size, crackLength, crackWidth, numberOfCracks, o, k);
        next == r.next && error == r.error && strokes == old(strokes) + r.strokes
    {
      if crackWidth == 0 {
        return k, Some(DivisionByZero);
      }
      var m := MaxSteps(crackLength, size.0, crackWidth).value;
      ghost var l := Cracking(m, crackWidth, size, o);
      ghost var drawn: seq<Stroke> := [];
      next := k;
      error := None;
      var j: nat := 0;
      while j < Count(numberOfCracks)
        invariant j <= Count(numberOfCracks)
        invariant strokes == old(strokes) + drawn && error.None?
        invariant Repeat(l, j, k) == Outcome(drawn, next, None)
      {
        ghost var before := strokes;
        next, error := DrawOneCrack(m, crackWidth, size, o, next);
        drawn := drawn + strokes[|before|..];
        assert strokes == old(strokes) + drawn;
        if error.Some? {
          RepeatStaysFailed(l, j + 1, Count(numberOfCracks), k);
          return;
        }
        j := j + 1;
      }
    }
  }
}
