/** The SVG serialiser of grounds/voronoi/svg.py: the colour of a cell from
    its height, the pixel size of the image, the height bounds and the
    gradient of a slanted cell, the path of one polygon, and the assembly of
    the whole document from a list of cells.

    Python's text form of a number (`'{}'.format(x)`) and of a stop offset
    (`'{:.2}'.format(x)`) are parameters, `show` and `twoDigits`; so is the
    `<pattern>` element `_svg_texture` builds for a texture, since it reads
    the image file. */
module Svg {
  import opened Wrappers
  import opened Points
  import Numerals
  import Cells

  /** `'{}'.format(x)` for a number. */
  type Show = real -> string

  /** `_svg_texture(name, texture, img_size, scale, dpi)`. */
  type Patterns = (string, Cells.Texture) -> string

  // ---------------------------------------------------------------------
  // _offset_color

  /** A lower-case hexadecimal digit. */
  function HexDigit(d: nat): (c: char)
    requires d < 16
  {
    if d < 10 then (d + '0' as int) as char else (d - 10 + 'a' as int) as char
  }

  /** The value of a lower-case hexadecimal digit, or None. */
  function HexValue(c: char): Option<nat> {
    if '0' <= c <= '9' then Some(c as int - '0' as int)
    else if 'a' <= c <= 'f' then Some(c as int - 'a' as int + 10)
    else None
  }

  /** `'{0:0>2x}'.format(n)` for 0 <= n < 256: two digits, zero-padded. */
  function Hex2(n: nat): (s: string)
    requires n < 256
    ensures |s| == 2 && Hex2Value(s) == Some(n)
  {
    [HexDigit(n / 16), HexDigit(n % 16)]
  }

  /** The value of a two-digit hexadecimal text. */
  function Hex2Value(s: string): Option<nat>
    requires |s| == 2
  {
    match (HexValue(s[0]), HexValue(s[1]))
    case (Some(hi), Some(lo)) => Some(16 * hi + lo)
    case _ => None
  }

  /** `max(0, min(255, n))`. */
  function Clamp(n: int): (r: nat)
    ensures r <= 255
    ensures 0 <= n <= 255 ==> r == n
    ensures n < 0 ==> r == 0
    ensures n > 255 ==> r == 255
  {
    if n < 0 then 0 else if n > 255 then 255 else n
  }

  /** The grey level `_offset_color` uses: z truncated and clamped. */
  function Level(z: real): (v: nat)
    ensures v <= 255
  {
    Clamp(Numerals.Truncate(z))
  }

  /** `'#{0:0>2x}{0:0>2x}{0:0>2x}'.format(v)`. */
  function Grey(v: nat): (s: string)
    requires v < 256
  {
    "#" + Hex2(v) + Hex2(v) + Hex2(v)
  }

  function Whites(): seq<string> { ["white", "#ffffff", "#fff"] }

  function Blacks(): seq<string> { ["black", "#000000", "#000"] }

  /** `_offset_color(foreground, z)`: a grey whose level follows z for a black
      foreground and 255 - z for a white one; None for any other foreground. */
  function OffsetColor(foreground: string, z: real): Option<string> {
    var v := Level(z);
    if foreground in Whites() then Some(Grey(255 - v))
    else if foreground in Blacks() then Some(Grey(v))
    else None
  }

  /** The colour is `#` and one two-digit level three times: the clamped,
      truncated z for a black foreground, 255 minus it for a white one; there
      is none for other foregrounds. */
  lemma OffsetColorSpec(foreground: string, z: real)
    ensures var r := OffsetColor(foreground, z);
      (r.Some? <==> foreground in Whites() || foreground in Blacks()) &&
      (r.Some? ==>
        var s := r.value;
        |s| == 7 && s[0] == '#' && s[1..3] == s[3..5] == s[5..7] &&
        Hex2Value(s[1..3]) == Some(if foreground in Whites() then 255 - Level(z) else Level(z)))
  {
    var v := Level(z);
    var w := if foreground in Whites() then 255 - v else v;
    if foreground in Whites() || foreground in Blacks() {
      var s := Grey(w);
      assert s[1..3] == Hex2(w) && s[3..5] == Hex2(w) && s[5..7] == Hex2(w);
    }
  }

  /** The level is monotone in z and takes every whole z in [0, 255] as it is. */
  lemma LevelMonotone(z1: real, z2: real)
    requires z1 <= z2
    ensures Level(z1) <= Level(z2)
    ensures 0.0 <= z1 <= 255.0 && Integral(z1) ==> Level(z1) as real == z1
  {
  }

  /** The text a colour takes in the document: a missing colour is
      formatted as `None`. */
  function ColorText(c: Option<string>): string {
    if c.Some? then c.value else "None"
  }

  // ---------------------------------------------------------------------
  // _fix_image_size

  /** Pixels per centimetre at the given dpi (36 inches make 91.44 cm). */
  function Ppcm(dpi: real): real { dpi / (91.44 / 36.0) }

  /** `_fix_image_size(size, dpi)`: the size in pixels plus half a pixel. */
  function FixImageSize(size0: real, size1: real, dpi: real): (r: (real, real))
    ensures r.0 == size0 * dpi * 36.0 / 91.44 + 0.5
    ensures r.1 == size1 * dpi * 36.0 / 91.44 + 0.5
  {
    (size0 * Ppcm(dpi) + 0.5, size1 * Ppcm(dpi) + 0.5)
  }

  /** For a positive dpi the size in centimetres can be read back from the
      pixel size. */
  lemma FixImageSizeInverse(size0: real, size1: real, dpi: real)
    requires dpi > 0.0
    ensures var r := FixImageSize(size0, size1, dpi);
      (r.0 - 0.5) * 91.44 / (36.0 * dpi) == size0 &&
      (r.1 - 0.5) * 91.44 / (36.0 * dpi) == size1
  {
  }

  // ---------------------------------------------------------------------
  // _cell_z_bounds

  /** A point as the plain triple `_cell_z_bounds` builds when normalising. */
  type Triple = (real, real, real)

  function AsTriple(p: Point3): Triple { (X(p), Y(p), Z(p)) }

  /** The first vertex of least z. */
  function FirstLowest(polygon: seq<Point3>): (m: nat)
    requires |polygon| > 0
    ensures m < |polygon|
    ensures forall j :: 0 <= j < |polygon| ==> Z(polygon[m]) <= Z(polygon[j])
    ensures forall j :: 0 <= j < m ==> Z(polygon[j]) > Z(polygon[m])
  {
    if |polygon| == 1 then 0
    else
      var n := |polygon| - 1;
      var m := FirstLowest(polygon[..n]);
      assert forall j :: 0 <= j < n ==> polygon[..n][j] == polygon[j];
      if Z(polygon[m]) > Z(polygon[n]) then n else m
  }

  /** The first vertex of greatest z. */
  function FirstHighest(polygon: seq<Point3>): (m: nat)
    requires |polygon| > 0
    ensures m < |polygon|
    ensures forall j :: 0 <= j < |polygon| ==> Z(polygon[j]) <= Z(polygon[m])
    ensures forall j :: 0 <= j < m ==> Z(polygon[j]) < Z(polygon[m])
  {
    if |polygon| == 1 then 0
    else
      var n := |polygon| - 1;
      var m := FirstHighest(polygon[..n]);
      assert forall j :: 0 <= j < n ==> polygon[..n][j] == polygon[j];
      if Z(polygon[m]) < Z(polygon[n]) then n else m
  }

  /** One axis of `normalize_xy`: both coordinates mapped onto [0, 1] by the
      range between them, or 0.5 for a zero range. */
  function Unit(a: real, b: real): (r: (real, real)) {
    var lo := if a <= b then a else b;
    var hi := if a <= b then b else a;
    if hi - lo != 0.0 then ((a - lo) / (hi - lo), (b - lo) / (hi - lo)) else (0.5, 0.5)
  }

  /** `normalize_xy` applied to the two bound points. */
  function Normalized(lo: Triple, hi: Triple): (Triple, Triple) {
    var x := Unit(lo.0, hi.0);
    var y := Unit(lo.1, hi.1);
    ((x.0, y.0, lo.2), (x.1, y.1, hi.2))
  }

  /** `_cell_z_bounds(cell, normalize_xy)` on a non-empty polygon. */
  function ZBounds(polygon: seq<Point3>, normalize: bool): (Triple, Triple)
    requires |polygon| > 0
  {
    var lo := AsTriple(polygon[FirstLowest(polygon)]);
    var hi := AsTriple(polygon[FirstHighest(polygon)]);
    if normalize then Normalized(lo, hi) else (lo, hi)
  }

  /** One axis normalised: equal coordinates both give 0.5; different ones
      give 0 to the smaller and 1 to the larger. */
  lemma UnitSpec(a: real, b: real)
    ensures var r := Unit(a, b);
      (a == b ==> r == (0.5, 0.5)) &&
      (a < b ==> r == (0.0, 1.0)) &&
      (a > b ==> r == (1.0, 0.0))
  {
    if a < b {
      assert (a - a) / (b - a) == 0.0 && (b - a) / (b - a) == 1.0;
    } else if a > b {
      assert (a - b) / (a - b) == 1.0 && (b - b) / (a - b) == 0.0;
    }
  }

  /** The normalised bounds: z is that of the first lowest and the first
      highest vertex, in that order, so the first z is at most the second;
      every x and y is 0, 1 or 0.5. */
  lemma ZBoundsSpec(polygon: seq<Point3>)
    requires |polygon| > 0
    ensures var r := ZBounds(polygon, true);
      var lo := polygon[FirstLowest(polygon)];
      var hi := polygon[FirstHighest(polygon)];
      r.0.2 == Z(lo) && r.1.2 == Z(hi) && r.0.2 <= r.1.2 &&
      (r.0.0, r.1.0) == Unit(X(lo), X(hi)) && (r.0.1, r.1.1) == Unit(Y(lo), Y(hi)) &&
      (r.0.0 == 0.0 || r.0.0 == 1.0 || r.0.0 == 0.5) &&
      (r.0.1 == 0.0 || r.0.1 == 1.0 || r.0.1 == 0.5) &&
      (r.1.0 == 0.0 || r.1.0 == 1.0 || r.1.0 == 0.5) &&
      (r.1.1 == 0.0 || r.1.1 == 1.0 || r.1.1 == 0.5)
  {
    var lo := polygon[FirstLowest(polygon)];
    var hi := polygon[FirstHighest(polygon)];
    UnitSpec(X(lo), X(hi));
    UnitSpec(Y(lo), Y(hi));
  }

  /** The first lowest vertex of one more vertex: the new one when it is
      strictly lower. */
  lemma LowestStep(polygon: seq<Point3>, i: nat)
    requires 1 <= i < |polygon|
    ensures var m := FirstLowest(polygon[..i]);
      m < i && FirstLowest(polygon[..i + 1]) == if Z(polygon[m]) > Z(polygon[i]) then i else m
  {
    assert polygon[..i + 1][..i] == polygon[..i];
    assert forall j :: 0 <= j < i ==> polygon[..i][j] == polygon[j];
  }

  /** The first highest vertex of one more vertex: the new one when it is
      strictly higher. */
  lemma HighestStep(polygon: seq<Point3>, i: nat)
    requires 1 <= i < |polygon|
    ensures var m := FirstHighest(polygon[..i]);
      m < i && FirstHighest(polygon[..i + 1]) == if Z(polygon[m]) < Z(polygon[i]) then i else m
  {
    assert polygon[..i + 1][..i] == polygon[..i];
    assert forall j :: 0 <= j < i ==> polygon[..i][j] == polygon[j];
  }

  /** The loop of `_cell_z_bounds`, then the optional normalisation. */
  method CellZBounds(polygon: seq<Point3>, normalize: bool) returns (lo: Triple, hi: Triple)
    requires |polygon| > 0
    ensures (lo, hi) == ZBounds(polygon, normalize)
  {
    var minP := 0;
    var maxP := 0;
    var i := 1;
    while i < |polygon|
      invariant 1 <= i <= |polygon|
      invariant minP == FirstLowest(polygon[..i]) && maxP == FirstHighest(polygon[..i])
    {
      LowestStep(polygon, i);
      HighestStep(polygon, i);
      if Z(polygon[minP]) > Z(polygon[i]) {
        minP := i;
      }
      if Z(polygon[maxP]) < Z(polygon[i]) {
        maxP := i;
      }
      i := i + 1;
    }
    assert polygon[..i] == polygon;
    lo, hi := AsTriple(polygon[minP]), AsTriple(polygon[maxP]);
    if normalize {
      lo, hi := Normalized(lo, hi).0, Normalized(lo, hi).1;
    }
  }

  // ---------------------------------------------------------------------
  // _svg_gradient

  /** `_svg_gradient` divides by `len(colors) - 1`. */
  datatype GradientError = DivisionByZero

  /** The offset of stop i of n: i / (n - 1). */
  function StopOffset(i: nat, n: nat): real
    requires n > 1
  {
    i as real / (n - 1) as real
  }

  /** The stops run from 0 at the first colour to 1 at the last, strictly
      increasing. */
  lemma StopOffsetsIncrease(n: nat, i: nat, j: nat)
    requires n > 1 && i < j < n
    ensures StopOffset(0, n) == 0.0 && StopOffset(n - 1, n) == 1.0
    ensures 0.0 <= StopOffset(i, n) < StopOffset(j, n) <= 1.0
  {
    var d := (n - 1) as real;
    assert StopOffset(j, n) - StopOffset(i, n) == (j - i) as real / d;
  }

  function Quoted(name: string, value: string): string {
    name + "=\"" + value + "\""
  }

  /** The opening tag of the gradient. */
  function GradientOpen(name: string, stops: (Triple, Triple), show: Show): string {
    "<linearGradient " + Quoted("id", name) +
    " " + Quoted("x1", show(stops.0.0)) + " " + Quoted("y1", show(stops.0.1)) +
    " " + Quoted("x2", show(stops.1.0)) + " " + Quoted("y2", show(stops.1.1)) + ">\n"
  }

  function StopLine(offset: string, color: string): string {
    "\t<stop " + Quoted("offset", offset) + " " + Quoted("stop-color", color) + " />\n"
  }

  /** The stop lines of the first n colours. */
  function StopLines(colors: seq<string>, n: nat, twoDigits: Show): (r: string)
    requires n <= |colors| && (n > 0 ==> |colors| > 1)
  {
    if n == 0 then ""
    else StopLines(colors, n - 1, twoDigits) + StopLine(twoDigits(StopOffset(n - 1, |colors|)), colors[n - 1])
  }

  /** The text of `_svg_gradient(name, stop_vector, colors)`. */
  function GradientText(name: string, stops: (Triple, Triple), colors: seq<string>, show: Show, twoDigits: Show): string
    requires |colors| != 1
  {
    GradientOpen(name, stops, show) + StopLines(colors, |colors|, twoDigits) + "</linearGradient>"
  }

  /** For two colours, as `svg_voronoi` passes them, the gradient holds a stop
      at offset 0 with the first colour and then one at offset 1 with the
      second. */
  lemma GradientTwoStops(name: string, stops: (Triple, Triple), c0: string, c1: string, show: Show, twoDigits: Show)
    ensures GradientText(name, stops, [c0, c1], show, twoDigits) ==
      GradientOpen(name, stops, show) + StopLine(twoDigits(0.0), c0) + StopLine(twoDigits(1.0), c1) + "</linearGradient>"
  {
    assert StopLines([c0, c1], 1, twoDigits) == StopLine(twoDigits(0.0), c0);
  }

  /** `_svg_gradient(name, stop_vector, colors)`: one stop per colour, in
      order; a single colour divides by zero. */
  method SvgGradient(name: string, stops: (Triple, Triple), colors: seq<string>, show: Show, twoDigits: Show)
    returns (r: Result<string, GradientError>)
    ensures r.Failure? <==> |colors| == 1
    ensures r.Success? ==> r.value == GradientText(name, stops, colors, show, twoDigits)
  {
    var gradient := GradientOpen(name, stops, show);
    var i := 0;
    while i < |colors|
      invariant 0 <= i <= |colors|
      invariant i > 0 ==> |colors| > 1
      invariant gradient == GradientOpen(name, stops, show) + StopLines(colors, i, twoDigits)
    {
      if |colors| - 1 == 0 {
        return Failure(DivisionByZero);
      }
      gradient := gradient + StopLine(twoDigits(i as real / (|colors| - 1) as real), colors[i]);
      i := i + 1;
    }
    r := Success(gradient + "</linearGradient>");
  }

  // ---------------------------------------------------------------------
  // _svg_poly

  /** `'{},{}'.format(p[0], p[1])`. */
  function Coord(p: Point3, show: Show): string { show(X(p)) + "," + show(Y(p)) }

  /** `sep.join(parts)` for a separator text. */
  function JoinWith(parts: seq<string>, sep: string): string {
    if |parts| == 0 then "" else if |parts| == 1 then parts[0] else parts[0] + sep + JoinWith(parts[1..], sep)
  }

  function Coords(polygon: seq<Point3>, show: Show): (r: seq<string>)
    ensures |r| == |polygon|
  {
    seq(|polygon|, i requires 0 <= i < |polygon| => Coord(polygon[i], show))
  }

  /** The red dot marking the centre. */
  function Circle(center: Point3, show: Show): string {
    "<circle fill=\"#f00\" stroke=\"none\" " + Quoted("cx", show(X(center))) + " " +
    Quoted("cy", show(Y(center))) + " r=\"70\" />\n"
  }

  /** The `<path>` element; an empty polygon raises IndexError at its first
      vertex, which `_svg_poly` turns into no element. */
  function PathElement(polygon: seq<Point3>, fill: string, show: Show): string {
    if |polygon| == 0 then ""
    else "<path " + Quoted("fill", fill) + " d=\"M " + Coord(polygon[0], show) + " " +
         JoinWith(Coords(polygon, show), " L ") + " Z\"/>\n"
  }

  /** `_svg_poly(cell, fill, render_center)`. */
  function SvgPoly(c: Cells.Cell, fill: string, renderCenter: bool, show: Show): string {
    PathElement(c.polygon, fill, show) + (if renderCenter then Circle(c.center, show) else "")
  }

  /** A non-empty path moves to the first vertex and then draws through every
      vertex from the first one again, so the first vertex appears twice, and
      closes with Z; an empty polygon yields at most the centre dot. */
  lemma SvgPolySpec(c: Cells.Cell, fill: string, renderCenter: bool, show: Show)
    ensures var r := SvgPoly(c, fill, renderCenter, show);
      var dot := if renderCenter then Circle(c.center, show) else "";
      (|c.polygon| == 0 ==> r == dot) &&
      (|c.polygon| > 0 ==>
        var start := "<path " + Quoted("fill", fill) + " d=\"M " + Coord(c.polygon[0], show) + " " + Coord(c.polygon[0], show);
        var end := " Z\"/>\n" + dot;
        |r| >= |start| && r[..|start|] == start &&
        |r| >= |end| && r[|r| - |end|..] == end)
  {
    if |c.polygon| > 0 {
      PathFramed(c, fill, renderCenter, show);
    }
  }

  /** The non-empty case of the above. */
  lemma PathFramed(c: Cells.Cell, fill: string, renderCenter: bool, show: Show)
    requires |c.polygon| > 0
    ensures var r := SvgPoly(c, fill, renderCenter, show);
      var dot := if renderCenter then Circle(c.center, show) else "";
      var start := "<path " + Quoted("fill", fill) + " d=\"M " + Coord(c.polygon[0], show) + " " + Coord(c.polygon[0], show);
      var end := " Z\"/>\n" + dot;
      |r| >= |start| && r[..|start|] == start &&
      |r| >= |end| && r[|r| - |end|..] == end
  {
    var coords := Coords(c.polygon, show);
    JoinStartsWith(coords, " L ");
    var head := "<path " + Quoted("fill", fill) + " d=\"M " + Coord(c.polygon[0], show) + " ";
    var dot := if renderCenter then Circle(c.center, show) else "";
    assert SvgPoly(c, fill, renderCenter, show) == head + JoinWith(coords, " L ") + " Z\"/>\n" + dot;
    Framed(head, coords[0], JoinWith(coords, " L "), " Z\"/>\n", dot);
  }

  /** A middle part that starts with m puts head + m at the front of the
      whole, and the last two parts end it. */
  lemma Framed(head: string, m: string, middle: string, tail: string, dot: string)
    requires |m| <= |middle| && middle[..|m|] == m
    ensures var r := head + middle + tail + dot;
      |r| >= |head + m| && r[..|head + m|] == head + m &&
      |r| >= |tail + dot| && r[|r| - |tail + dot|..] == tail + dot
  {
    PrefixGrown(head, middle, m);
    PrefixKept(head + middle, tail, head + m);
    PrefixKept(head + middle + tail, dot, head + m);
    EndsWith(head + middle, tail, dot);
  }

  /** Appending keeps a prefix. */
  lemma PrefixKept(u: string, v: string, p: string)
    requires |p| <= |u| && u[..|p|] == p
    ensures |u + v| >= |p| && (u + v)[..|p|] == p
  {
    assert (u + v)[..|p|] == u[..|p|];
  }

  /** A prefix of the part after h gives a prefix of the whole. */
  lemma PrefixGrown(h: string, j: string, c: string)
    requires |c| <= |j| && j[..|c|] == c
    ensures |h + j| >= |h + c| && (h + j)[..|h + c|] == h + c
  {
    assert (h + j)[..|h + c|] == h + j[..|c|];
  }

  /** The last two parts of a concatenation end it. */
  lemma EndsWith(x: string, z: string, w: string)
    ensures var r := x + z + w; |r| >= |z + w| && r[|r| - |z + w|..] == z + w
  {
    assert x + z + w == x + (z + w);
  }

  /** A join of several parts starts with the first part. */
  lemma JoinStartsWith(parts: seq<string>, sep: string)
    requires |parts| > 0
    ensures var j := JoinWith(parts, sep);
      |j| >= |parts[0]| && j[..|parts[0]|] == parts[0]
  {
  }

  /** Where part i of `sep.join(parts)` starts: after the parts before it,
      each followed by one separator. */
  function Start(parts: seq<string>, sep: string, i: nat): nat
    requires i <= |parts|
  {
    if i == 0 then 0 else |parts[0]| + |sep| + Start(parts[1..], sep, i - 1)
  }

  /** text is the parts in order with sep between each two: part i sits at
      `Start(parts, sep, i)`, a separator just before it unless it is the
      first, and the text ends with the last part. */
  ghost predicate Joined(text: string, parts: seq<string>, sep: string) {
    |parts| > 0 ==>
      |text| + |sep| == Start(parts, sep, |parts|) &&
      forall i :: 0 <= i < |parts| ==> JoinedAt(text, parts, sep, i)
  }

  /** `sep.join(parts)` lays the parts out as `Joined` says. */
  lemma {:induction false} JoinWithJoined(parts: seq<string>, sep: string)
    ensures Joined(JoinWith(parts, sep), parts, sep)
    decreases |parts|
  {
    if |parts| == 1 {
      assert Start(parts, sep, 1) == |parts[0]| + |sep| + Start(parts[1..], sep, 0);
    } else if |parts| > 1 {
      JoinWithJoined(parts[1..], sep);
      assert JoinWith(parts, sep) == parts[0] + sep + JoinWith(parts[1..], sep);
      forall i | 0 <= i < |parts|
        ensures JoinedAt(JoinWith(parts, sep), parts, sep, i)
      {
        JoinedStep(parts, sep, i);
      }
    }
  }

  /** Part i of `Joined`. */
  ghost predicate JoinedAt(text: string, parts: seq<string>, sep: string, i: nat)
    requires i < |parts|
  {
    Start(parts, sep, i) + |parts[i]| <= |text| &&
    text[Start(parts, sep, i)..Start(parts, sep, i) + |parts[i]|] == parts[i] &&
    (i > 0 ==> |sep| <= Start(parts, sep, i) && text[Start(parts, sep, i) - |sep|..Start(parts, sep, i)] == sep)
  }

  /** One part of a join of two or more parts, from the layout of the join
      of all parts but the first. */
  lemma JoinedStep(parts: seq<string>, sep: string, i: nat)
    requires 1 < |parts| && i < |parts|
    requires Joined(JoinWith(parts[1..], sep), parts[1..], sep)
    ensures JoinedAt(JoinWith(parts, sep), parts, sep, i)
  {
    var tail := parts[1..];
    var t := JoinWith(tail, sep);
    var u := parts[0] + sep;
    var text := JoinWith(parts, sep);
    assert text == u + t;
    if i == 0 {
      assert text[..|parts[0]|] == parts[0];
    } else {
      var s := Start(tail, sep, i - 1);
      assert tail[i - 1] == parts[i];
      assert Start(parts, sep, i) == |u| + s;
      assert JoinedAt(t, tail, sep, i - 1);
      SliceShift(u, t, s, s + |parts[i]|);
      if i == 1 {
        assert text[|parts[0]|..|u|] == sep;
      } else {
        SliceShift(u, t, s - |sep|, s);
      }
    }
  }

  /** A slice of the part after u. */
  lemma SliceShift(u: string, t: string, a: nat, b: nat)
    requires a <= b <= |t|
    ensures (u + t)[|u| + a..|u| + b] == t[a..b]
  {
  }

  /** The text between a head and an end. */
  lemma Between(head: string, mid: string, end: string)
    ensures var r := head + mid + end;
      |head| + |end| <= |r| && r[|head|..|r| - |end|] == mid
  {
  }

  /** After `d="M ` and the first vertex a path holds every vertex of the
      cell, in order, joined by ` L `, up to the closing ` Z"/>`. */
  lemma SvgPolyVertices(c: Cells.Cell, fill: string, renderCenter: bool, show: Show)
    requires |c.polygon| > 0
    ensures var r := SvgPoly(c, fill, renderCenter, show);
      var head := "<path " + Quoted("fill", fill) + " d=\"M " + Coord(c.polygon[0], show) + " ";
      var end := " Z\"/>\n" + (if renderCenter then Circle(c.center, show) else "");
      |head| + |end| <= |r| &&
      Joined(r[|head|..|r| - |end|], Coords(c.polygon, show), " L ")
  {
    var coords := Coords(c.polygon, show);
    var head := "<path " + Quoted("fill", fill) + " d=\"M " + Coord(c.polygon[0], show) + " ";
    var end := " Z\"/>\n" + (if renderCenter then Circle(c.center, show) else "");
    assert SvgPoly(c, fill, renderCenter, show) == head + JoinWith(coords, " L ") + end;
    Between(head, JoinWith(coords, " L "), end);
    JoinWithJoined(coords, " L ");
  }

  // ---------------------------------------------------------------------
  // svg_voronoi

  /** Python truthiness of an optional text: absent or empty is false. */
  predicate Truthy(s: Option<string>) { s.Some? && s.value != "" }

  /** The id of the pattern of cell i. */
  function TextureId(i: nat): string { "tex" + Numerals.NatToStr(i) }

  /** The id of the gradient of cell i. */
  function GradientId(i: nat): string { "grad" + Numerals.NatToStr(i) }

  /** A fill that refers to a definition. */
  function Url(name: string): string { "url(#" + name + ")" }

  /** The text of the colour `_offset_color` gives a height. */
  function HeightColor(foreground: string, z: real): string {
    ColorText(OffsetColor(foreground, z))
  }

  /** The fill `svg_voronoi` gives cell i: its texture pattern, else for an
      unslanted cell its own colour or the colour of its height, else its
      gradient. */
  function CellFill(c: Cells.Cell, i: nat, foreground: string): string {
    if c.texture.Some? then Url(TextureId(i))
    else if !c.isSlanted then
      (if Truthy(c.color) then c.color.value else HeightColor(foreground, Z(c.center)))
    else Url(GradientId(i))
  }

  /** The gradient of a slanted cell: from the colour of its lowest vertex to
      that of its highest, along the normalised bounds. */
  function CellGradient(c: Cells.Cell, i: nat, foreground: string, show: Show, twoDigits: Show): string
    requires |c.polygon| > 0
  {
    var stops := ZBounds(c.polygon, true);
    var colors := [HeightColor(foreground, stops.0.2), HeightColor(foreground, stops.1.2)];
    GradientText(GradientId(i), stops, colors, show, twoDigits)
  }

  /** What cell i adds to `<defs>`. */
  function CellDef(c: Cells.Cell, i: nat, foreground: string, show: Show, twoDigits: Show, pattern: Patterns): string {
    if |c.polygon| == 0 then ""
    else if c.texture.Some? then pattern(TextureId(i), c.texture.value)
    else if !c.isSlanted then ""
    else CellGradient(c, i, foreground, show, twoDigits) + "\n"
  }

  /** What cell i adds to the body. */
  function CellBody(c: Cells.Cell, i: nat, foreground: string, renderCenter: bool, show: Show): string {
    if |c.polygon| == 0 then "" else SvgPoly(c, CellFill(c, i, foreground), renderCenter, show)
  }

  /** The `<defs>` element so far: its opening tag and the definitions of
      the first n cells. */
  function Defs(cells: seq<Cells.Cell>, n: nat, foreground: string, show: Show, twoDigits: Show, pattern: Patterns): string
    requires n <= |cells|
  {
    if n == 0 then "<defs>\n"
    else Defs(cells, n - 1, foreground, show, twoDigits, pattern) + CellDef(cells[n - 1], n - 1, foreground, show, twoDigits, pattern)
  }

  /** The body so far: the backdrop and the elements of the first n cells. */
  function Bodies(cells: seq<Cells.Cell>, n: nat, foreground: string, renderCenter: bool, show: Show, backdrop: string): string
    requires n <= |cells|
  {
    if n == 0 then backdrop
    else Bodies(cells, n - 1, foreground, renderCenter, show, backdrop) + CellBody(cells[n - 1], n - 1, foreground, renderCenter, show)
  }

  const XmlDeclaration: string := "<?xml version='1.0' encoding='UTF-8' standalone='no'?>\n\n"

  /** The `<svg>` opening tag: the pixel size and the view box of the scaled
      size at the offset. */
  function SvgOpen(img: (real, real), offset: (real, real), size: (real, real), show: Show): string {
    "<svg xmlns=\"http://www.w3.org/2000/svg\" xmlns:xlink=\"http://www.w3.org/1999/xlink\" " +
    Quoted("width", show(img.0)) + " " + Quoted("height", show(img.1)) + " " +
    Quoted("viewBox", show(offset.0) + " " + show(offset.1) + " " + show(size.0) + " " + show(size.1)) +
    " id=\"pyvoronoi-display\" class=\"pyvoronoi\">\n"
  }

  /** The background rectangle, present only for a truthy background. */
  function Backdrop(background: Option<string>, offset: (real, real), size: (real, real), show: Show): (r: string)
    ensures r != "" <==> Truthy(background)
  {
    if Truthy(background) then
      "<rect " + Quoted("x", show(offset.0)) + " " + Quoted("y", show(offset.1)) + " " +
      Quoted("width", show(size.0)) + " " + Quoted("height", show(size.1)) + " " +
      Quoted("fill", background.value) + "/>\n"
    else ""
  }

  /** Everything between the XML declaration and the closing `</svg>`. */
  function Content(cells: seq<Cells.Cell>, size: (real, real), scale: real, offset: (real, real),
                   foreground: string, background: Option<string>, dpi: real, renderCenter: bool,
                   show: Show, twoDigits: Show, pattern: Patterns): string {
    Assemble(SvgOpen(FixImageSize(size.0, size.1, dpi), offset, Scaled(size, scale), show),
             Defs(cells, |cells|, foreground, show, twoDigits, pattern),
             Bodies(cells, |cells|, foreground, renderCenter, show, Backdrop(background, offset, Scaled(size, scale), show)))
  }

  /** `size` in drawing units: `(size[0] * scale, size[1] * scale)`. */
  function Scaled(size: (real, real), scale: real): (real, real) {
    (size.0 * scale, size.1 * scale)
  }

  /** The opening tag, the definitions closed by `</defs>`, then the body. */
  function Assemble(header: string, defs: string, body: string): string {
    header + defs + "</defs>\n" + body
  }

  /** The document `svg_voronoi` returns. */
  function Document(cells: seq<Cells.Cell>, size: (real, real), scale: real, offset: (real, real),
                    foreground: string, background: Option<string>, dpi: real, renderCenter: bool,
                    show: Show, twoDigits: Show, pattern: Patterns): string {
    XmlDeclaration + Content(cells, size, scale, offset, foreground, background, dpi, renderCenter, show, twoDigits, pattern) + "</svg>"
  }

  /** A cell without vertices adds nothing. A textured cell is filled with
      the pattern it defines under the name its fill refers to; a slanted cell
      without texture is filled with the gradient it defines, whose id is the
      one its fill refers to; an unslanted cell without texture defines
      nothing. */
  lemma FillDefined(c: Cells.Cell, i: nat, foreground: string, renderCenter: bool, show: Show, twoDigits: Show, pattern: Patterns)
    ensures var d := CellDef(c, i, foreground, show, twoDigits, pattern);
      var fill := CellFill(c, i, foreground);
      (|c.polygon| == 0 ==> d == "" && CellBody(c, i, foreground, renderCenter, show) == "") &&
      (|c.polygon| > 0 && c.texture.Some? ==>
        fill == Url(TextureId(i)) && d == pattern(TextureId(i), c.texture.value)) &&
      (|c.polygon| > 0 && c.texture.None? && c.isSlanted ==>
        var tag := "<linearGradient " + Quoted("id", GradientId(i));
        fill == Url(GradientId(i)) && |d| >= |tag| && d[..|tag|] == tag) &&
      (|c.polygon| > 0 && c.texture.None? && !c.isSlanted ==> d == "")
  {
    if |c.polygon| > 0 && c.texture.None? && c.isSlanted {
      var stops := ZBounds(c.polygon, true);
      GradientTagged(GradientId(i), stops, [HeightColor(foreground, stops.0.2), HeightColor(foreground, stops.1.2)], show, twoDigits);
    }
  }

  /** A gradient definition, with its line end, opens with its id. */
  lemma GradientTagged(name: string, stops: (Triple, Triple), colors: seq<string>, show: Show, twoDigits: Show)
    requires |colors| != 1
    ensures var d := GradientText(name, stops, colors, show, twoDigits) + "\n";
      var tag := "<linearGradient " + Quoted("id", name);
      |d| >= |tag| && d[..|tag|] == tag
  {
    var tag := "<linearGradient " + Quoted("id", name);
    var open := GradientOpen(name, stops, show);
    assert open[..|tag|] == tag;
    PrefixKept(open, StopLines(colors, |colors|, twoDigits), tag);
    PrefixKept(open + StopLines(colors, |colors|, twoDigits), "</linearGradient>", tag);
    PrefixKept(GradientText(name, stops, colors, show, twoDigits), "\n", tag);
  }

  /** The gradient of a slanted cell holds two stops: at offset 0 the grey of
      its first lowest vertex, at offset 1 that of its first highest. */
  lemma SlantedGradient(c: Cells.Cell, i: nat, foreground: string, show: Show, twoDigits: Show)
    requires |c.polygon| > 0
    ensures var stops := ZBounds(c.polygon, true);
      CellGradient(c, i, foreground, show, twoDigits) ==
        GradientOpen(GradientId(i), stops, show) +
        StopLine(twoDigits(0.0), HeightColor(foreground, Z(c.polygon[FirstLowest(c.polygon)]))) +
        StopLine(twoDigits(1.0), HeightColor(foreground, Z(c.polygon[FirstHighest(c.polygon)]))) +
        "</linearGradient>"
  {
    var stops := ZBounds(c.polygon, true);
    ZBoundsSpec(c.polygon);
    GradientTwoStops(GradientId(i), stops, HeightColor(foreground, stops.0.2), HeightColor(foreground, stops.1.2), show, twoDigits);
  }

  /** The document opens with the XML declaration and closes the `<svg>`
      element. */
  lemma DocumentShape(cells: seq<Cells.Cell>, size: (real, real), scale: real, offset: (real, real),
                      foreground: string, background: Option<string>, dpi: real, renderCenter: bool,
                      show: Show, twoDigits: Show, pattern: Patterns)
    ensures var d := Document(cells, size, scale, offset, foreground, background, dpi, renderCenter, show, twoDigits, pattern);
      |d| >= |XmlDeclaration| + 6 &&
      d[..|XmlDeclaration|] == XmlDeclaration && d[|d| - 6..] == "</svg>"
  {
    var content := Content(cells, size, scale, offset, foreground, background, dpi, renderCenter, show, twoDigits, pattern);
    assert XmlDeclaration[..|XmlDeclaration|] == XmlDeclaration;
    PrefixKept(XmlDeclaration, content, XmlDeclaration);
    PrefixKept(XmlDeclaration + content, "</svg>", XmlDeclaration);
    assert (XmlDeclaration + content + "</svg>")[|XmlDeclaration + content|..] == "</svg>";
  }

  /** `svg_voronoi(cells, size, scale, offset, foreground, background, dpi,
      render_center)`: the header, the definitions and the body, built up
      cell by cell. */
  method SvgVoronoi(cells: seq<Cells.Cell>, size: (real, real), scale: real, offset: (real, real),
                    foreground: string, background: Option<string>, dpi: real, renderCenter: bool,
                    show: Show, twoDigits: Show, pattern: Patterns)
    returns (svg: string)
    ensures svg == Document(cells, size, scale, offset, foreground, background, dpi, renderCenter, show, twoDigits, pattern)
  {
    var imgSize := FixImageSize(size.0, size.1, dpi);
    var scaled := Scaled(size, scale);
    var header := SvgOpen(imgSize, offset, scaled, show);
    var body := "";
    if Truthy(background) {
      body := body + Backdrop(background, offset, scaled, show);
    }
    assert body == Backdrop(background, offset, scaled, show);
    var defs;
    defs, body := CellTexts(cells, foreground, renderCenter, show, twoDigits, pattern, body);
    svg := XmlDeclaration + Assemble(header, defs, body) + "</svg>";
  }

  /** The loop of `svg_voronoi` over the cells: the `<defs>` element without
      its closing tag, and the body after the given backdrop. */
  method CellTexts(cells: seq<Cells.Cell>, foreground: string, renderCenter: bool,
                   show: Show, twoDigits: Show, pattern: Patterns, backdrop: string)
    returns (defs: string, body: string)
    ensures defs == Defs(cells, |cells|, foreground, show, twoDigits, pattern)
    ensures body == Bodies(cells, |cells|, foreground, renderCenter, show, backdrop)
  {
    defs := "<defs>\n";
    body := backdrop;
    var i := 0;
    while i < |cells|
      invariant 0 <= i <= |cells|
      invariant defs == Defs(cells, i, foreground, show, twoDigits, pattern)
      invariant body == Bodies(cells, i, foreground, renderCenter, show, backdrop)
    {
      var def, poly := CellText(cells[i], i, foreground, renderCenter, show, twoDigits, pattern);
      defs := defs + def;
      body := body + poly;
      i := i + 1;
    }
  }

  /** The body of the loop of `svg_voronoi` for cell i: what it adds to the
      definitions and to the body. */
  method CellText(cell: Cells.Cell, i: nat, foreground: string, renderCenter: bool,
                  show: Show, twoDigits: Show, pattern: Patterns) returns (def: string, poly: string)
    ensures def == CellDef(cell, i, foreground, show, twoDigits, pattern)
    ensures poly == CellBody(cell, i, foreground, renderCenter, show)
  {
    if |cell.polygon| == 0 {
      return "", "";
    }
    var fill := foreground;
    def := "";
    if cell.texture.Some? {
      var textureName := TextureId(i);
      def := pattern(textureName, cell.texture.value);
      fill := Url(textureName);
    } else if !cell.isSlanted {
      var z := Z(cell.center);
      if Truthy(cell.color) {
        fill := cell.color.value;
      } else {
        fill := HeightColor(foreground, z);
      }
    } else {
      var lo, hi := CellZBounds(cell.polygon, true);
      var colors := [HeightColor(foreground, lo.2), HeightColor(foreground, hi.2)];
      var gradientName := GradientId(i);
      var gradient := SvgGradient(gradientName, (lo, hi), colors, show, twoDigits);
      def := gradient.value + "\n";
      fill := Url(gradientName);
    }
    poly := SvgPoly(cell, fill, renderCenter, show);
  }
}
