/** The Voronoi cells of grounds/voronoi/voronoi.py and the operations on a
    list of them.

    A cell is a record (`Cell`); the list of cells that `offset`,
    `slant_random` and `remove_random_cells` change in place is the field of
    class `CellList`. The cells themselves come from pyvoronoi, which is not
    modelled: every operation here starts from a given list. Python object
    identity, which `cells.remove` relies on, is represented by the position
    of a cell in the list. */
module Cells {
  import opened Wrappers
  import opened Points
  import Numerals
  import Rand
  import Trig
  import Voronoi

  /** The texture `apply_random_texture` stores on a cell: the image file and
      an SVG transform. */
  datatype Texture = Texture(file: string, transform: string)

  datatype Cell = Cell(
    center: Point3,
    polygon: seq<Point3>,
    isSlanted: bool,
    index: Option<int>,
    color: Option<string>,
    texture: Option<Texture>)

  /** `Cell(center, polygon)`: not slanted, and no index, colour or texture. */
  function NewCell(center: Point3, polygon: seq<Point3>): (c: Cell)
    ensures c.center == center && c.polygon == polygon
    ensures !c.isSlanted && c.index.None? && c.color.None? && c.texture.None?
  {
    Cell(center, polygon, false, None, None, None)
  }

  /** `Point3d(x, y)`: z takes its default 0. */
  function OnPlane(q: (real, real)): Point3 { P3(q.0, q.1, 0.0) }

  // ---------------------------------------------------------------------
  // offset

  /** `JOIN_SQUARE`, `JOIN_ROUND`, `JOIN_MITER`. */
  datatype JoinType = JoinSquare | JoinRound | JoinMiter

  /** pyclipper's offset of one closed 2D path by a distance: the list of
      solution paths. Its geometry is not modelled. */
  type Clipper = (seq<(real, real)>, real, JoinType) -> seq<seq<(real, real)>>

  /** `[p.xy for p in polygon]`. */
  function Outline(polygon: seq<Point3>): (r: seq<(real, real)>)
    ensures |r| == |polygon|
  {
    seq(|polygon|, i requires 0 <= i < |polygon| => (X(polygon[i]), Y(polygon[i])))
  }

  /** `offset_polygon(polygon, distance, join_type)`: the first solution path
      closed into a loop on the plane z = 0, or [] where indexing the
      solution raises IndexError. */
  function OffsetPolygon(polygon: seq<Point3>, distance: real, join: JoinType, clipper: Clipper): (r: seq<Point3>)
    ensures var solution := clipper(Outline(polygon), distance, join);
      (r == [] <==> |solution| == 0 || |solution[0]| == 0) &&
      (r != [] ==>
        |r| == |solution[0]| + 1 && r[|r| - 1] == r[0] &&
        forall i :: 0 <= i < |solution[0]| ==> r[i] == OnPlane(solution[0][i]))
    ensures forall i :: 0 <= i < |r| ==> Z(r[i]) == 0.0
  {
    var solution := clipper(Outline(polygon), distance, join);
    if |solution| == 0 || |solution[0]| == 0 then []
    else
      var path := solution[0];
      seq(|path|, i requires 0 <= i < |path| => OnPlane(path[i])) + [OnPlane(path[0])]
  }

  /** The cells after `offset(cells, distance, join_type)`. */
  function OffsetCells(cells: seq<Cell>, distance: real, join: JoinType, clipper: Clipper): (r: seq<Cell>)
    ensures |r| == |cells|
  {
    seq(|cells|, i requires 0 <= i < |cells| =>
      cells[i].(polygon := OffsetPolygon(cells[i].polygon, distance, join, clipper)))
  }

  /** `offset` replaces only the polygon of each cell, and every new polygon
      is empty or a closed loop. */
  lemma OffsetOnlyPolygons(cells: seq<Cell>, distance: real, join: JoinType, clipper: Clipper)
    ensures var r := OffsetCells(cells, distance, join, clipper);
      |r| == |cells| &&
      forall i :: 0 <= i < |cells| ==>
        r[i].(polygon := cells[i].polygon) == cells[i] &&
        (r[i].polygon == [] || r[i].polygon[|r[i].polygon| - 1] == r[i].polygon[0])
  {
    var r := OffsetCells(cells, distance, join, clipper);
    forall i | 0 <= i < |cells|
      ensures r[i].(polygon := cells[i].polygon) == cells[i]
      ensures r[i].polygon == [] || r[i].polygon[|r[i].polygon| - 1] == r[i].polygon[0]
    {
      assert r[i] == cells[i].(polygon := OffsetPolygon(cells[i].polygon, distance, join, clipper));
    }
  }

  // ---------------------------------------------------------------------
  // slant_polygon

  /** `distance.x * slant_dir.x + distance.y * slant_dir.y` for a vertex, with
      slant_dir = (cos(direction), sin(direction)) * slant. */
  function SlantOffset(p: Point3, center: Point3, cosDir: real, sinDir: real, slant: real): real {
    (X(p) - X(center)) * (cosDir * slant) + (Y(p) - Y(center)) * (sinDir * slant)
  }

  /** `round(slant_offset)` for every vertex. */
  function Shears(polygon: seq<Point3>, center: Point3, cosDir: real, sinDir: real, slant: real): (r: seq<int>)
    ensures |r| == |polygon|
  {
    seq(|polygon|, i requires 0 <= i < |polygon| =>
      Numerals.RoundHalfEven(SlantOffset(polygon[i], center, cosDir, sinDir, slant)))
  }

  /** The first loop of `slant_polygon`: `point + Point3d(z=shear)` for every
      vertex. */
  function Sheared(polygon: seq<Point3>, shears: seq<int>): (r: seq<Point3>)
    requires |shears| == |polygon|
    ensures |r| == |polygon|
    ensures forall i :: 0 <= i < |r| ==> X(r[i]) == X(polygon[i]) && Y(r[i]) == Y(polygon[i])
  {
    seq(|polygon|, i requires 0 <= i < |polygon| => Voronoi.Lift(polygon[i], shears[i] as real))
  }

  /** The starting value of `min_z`, larger than any sensible z. */
  const FarZ: real := 1000000000.0

  /** The z that `min_z` holds after the first loop: the least z of the
      points, or FarZ when none lies below it. */
  function MinZ(points: seq<Point3>): (m: real)
    ensures m <= FarZ
    ensures forall i :: 0 <= i < |points| ==> m <= Z(points[i])
    ensures m == FarZ || exists i :: 0 <= i < |points| && m == Z(points[i])
  {
    if points == [] then FarZ
    else
      var m := MinZ(points[..|points| - 1]);
      var z := Z(points[|points| - 1]);
      assert forall i :: 0 <= i < |points| - 1 ==> points[..|points| - 1][i] == points[i];
      if m > z then z else m
  }

  /** `slant_compensation`: lifts a negative minimum back to 0. */
  function Compensation(minZ: real): (c: real)
    ensures c >= 0.0 && c >= -minZ
  {
    if minZ < 0.0 then -minZ else 0.0
  }

  /** `round(z_displace + slant_compensation)`: how far the second loop of
      `slant_polygon` lifts every point. */
  function LiftAmount(points: seq<Point3>, zDisplace: real): int {
    Numerals.RoundHalfEven(zDisplace + Compensation(MinZ(points)))
  }

  /** The second loop of `slant_polygon`: every point lifted by LiftAmount. */
  function Displaced(points: seq<Point3>, zDisplace: real): (r: seq<Point3>)
    ensures |r| == |points|
    ensures forall i :: 0 <= i < |r| ==> X(r[i]) == X(points[i]) && Y(r[i]) == Y(points[i])
  {
    LiftedBy(points, LiftAmount(points, zDisplace) as real)
  }

  /** `point + Point3d(z=lift)` for every point. */
  function LiftedBy(points: seq<Point3>, lift: real): (r: seq<Point3>)
    ensures |r| == |points|
    ensures forall i :: 0 <= i < |r| ==> X(r[i]) == X(points[i]) && Y(r[i]) == Y(points[i])
  {
    seq(|points|, i requires 0 <= i < |points| => Voronoi.Lift(points[i], lift))
  }

  /** `slant_polygon(polygon, center, direction, slant, z_displace)` with
      cosDir and sinDir the cosine and sine of the direction. It keeps the
      vertex count and every vertex's x and y. */
  function Slanted(polygon: seq<Point3>, center: Point3, cosDir: real, sinDir: real, slant: real, zDisplace: real): (r: seq<Point3>)
    ensures |r| == |polygon|
    ensures forall i :: 0 <= i < |r| ==> X(r[i]) == X(polygon[i]) && Y(r[i]) == Y(polygon[i])
  {
    Displaced(Sheared(polygon, Shears(polygon, center, cosDir, sinDir, slant)), zDisplace)
  }

  /** Whole-number heights and a non-negative displacement give a polygon
      whose every vertex has z >= 0, whatever the whole-number shears: the
      compensation lifts the lowest sheared vertex to 0 or above. */
  lemma ShearedNonNegative(polygon: seq<Point3>, shears: seq<int>, zDisplace: real)
    requires |shears| == |polygon|
    requires forall i :: 0 <= i < |polygon| ==> Integral(Z(polygon[i]))
    requires zDisplace >= 0.0
    ensures var r := Displaced(Sheared(polygon, shears), zDisplace);
      forall i :: 0 <= i < |r| ==> Z(r[i]) >= 0.0
  {
    var sheared := Sheared(polygon, shears);
    var m := MinZ(sheared);
    var lift := LiftAmount(sheared, zDisplace);
    LowestWhole(polygon, shears);
    LiftAtLeast(sheared, zDisplace);
    assert lift as real >= Compensation(m);
    var r := Displaced(sheared, zDisplace);
    assert r == LiftedBy(sheared, lift as real);
    forall i | 0 <= i < |r|
      ensures Z(r[i]) >= 0.0
    {
      assert r[i] == Voronoi.Lift(sheared[i], lift as real);
      LiftedAbove(sheared[i], m, lift as real);
    }
  }

  /** A vertex no lower than m, lifted by at least the compensation of m,
      ends at z >= 0. */
  lemma LiftedAbove(p: Point3, m: real, lift: real)
    requires Z(p) >= m && lift >= Compensation(m)
    ensures Z(Voronoi.Lift(p, lift)) >= 0.0
  {
  }

  /** With whole-number heights and shears, a negative lowest z is a whole
      number. */
  lemma LowestWhole(polygon: seq<Point3>, shears: seq<int>)
    requires |shears| == |polygon|
    requires forall i :: 0 <= i < |polygon| ==> Integral(Z(polygon[i]))
    ensures var m := MinZ(Sheared(polygon, shears)); m < 0.0 ==> Integral(m)
  {
    var sheared := Sheared(polygon, shears);
    var m := MinZ(sheared);
    if m < 0.0 {
      var j :| 0 <= j < |sheared| && m == Z(sheared[j]);
      assert sheared[j] == Voronoi.Lift(polygon[j], shears[j] as real);
      assert m == (Z(polygon[j]).Floor + shears[j]) as real;
    }
  }

  /** The rounded lift covers the compensation when a negative lowest z is
      a whole number. */
  lemma LiftAtLeast(points: seq<Point3>, zDisplace: real)
    requires zDisplace >= 0.0 && (MinZ(points) < 0.0 ==> Integral(MinZ(points)))
    ensures LiftAmount(points, zDisplace) as real >= Compensation(MinZ(points))
  {
    var c := Compensation(MinZ(points));
    if MinZ(points) < 0.0 {
      Numerals.RoundAtLeast(-MinZ(points).Floor, zDisplace + c);
    } else {
      Numerals.RoundAtLeast(0, zDisplace + c);
    }
  }

  /** The slant case of the above: `slant_polygon` on whole-number heights
      with z_displace >= 0 leaves every z >= 0. */
  lemma SlantNonNegative(polygon: seq<Point3>, center: Point3, cosDir: real, sinDir: real, slant: real, zDisplace: real)
    requires forall i :: 0 <= i < |polygon| ==> Integral(Z(polygon[i]))
    requires zDisplace >= 0.0
    ensures var r := Slanted(polygon, center, cosDir, sinDir, slant, zDisplace);
      forall i :: 0 <= i < |r| ==> Z(r[i]) >= 0.0
  {
    ShearedNonNegative(polygon, Shears(polygon, center, cosDir, sinDir, slant), zDisplace);
  }

  lemma ShearedAt(polygon: seq<Point3>, center: Point3, cosDir: real, sinDir: real, slant: real, i: nat)
    requires i < |polygon|
    ensures Sheared(polygon, Shears(polygon, center, cosDir, sinDir, slant))[i] ==
      Voronoi.Lift(polygon[i], Numerals.RoundHalfEven(SlantOffset(polygon[i], center, cosDir, sinDir, slant)) as real)
  {
  }

  lemma MinZStep(points: seq<Point3>, p: Point3)
    ensures MinZ(points + [p]) == if MinZ(points) > Z(p) then Z(p) else MinZ(points)
  {
    assert (points + [p])[..|points|] == points;
  }

  /** `slant_polygon`: shears each vertex around the centre, tracking the
      lowest z, then lifts all of them by the rounded displacement plus
      compensation. */
  method SlantPolygon(polygon: seq<Point3>, center: Point3, cosDir: real, sinDir: real, slant: real, zDisplace: real)
    returns (displaced: seq<Point3>)
    ensures displaced == Slanted(polygon, center, cosDir, sinDir, slant, zDisplace)
  {
    var slanted, minZ := ShearLoop(polygon, center, cosDir, sinDir, slant);
    var compensation := Compensation(minZ);
    var lift := Numerals.RoundHalfEven(zDisplace + compensation) as real;
    assert lift == LiftAmount(slanted, zDisplace) as real;
    displaced := LiftLoop(slanted, lift);
  }

  /** The first loop of `slant_polygon`. */
  method ShearLoop(polygon: seq<Point3>, center: Point3, cosDir: real, sinDir: real, slant: real)
    returns (slanted: seq<Point3>, minZ: real)
    ensures slanted == Sheared(polygon, Shears(polygon, center, cosDir, sinDir, slant))
    ensures minZ == MinZ(slanted)
  {
    ghost var sheared := Sheared(polygon, Shears(polygon, center, cosDir, sinDir, slant));
    slanted := [];
    minZ := FarZ;
    var i := 0;
    while i < |polygon|
      invariant 0 <= i <= |polygon|
      invariant slanted == sheared[..i]
      invariant minZ == MinZ(slanted)
    {
      slanted, minZ := ShearVertex(polygon, center, cosDir, sinDir, slant, sheared, i, slanted, minZ);
      i := i + 1;
    }
  }

  /** One iteration of the first loop of `slant_polygon`: vertex i sheared
      and appended, the lowest z updated. */
  method ShearVertex(polygon: seq<Point3>, center: Point3, cosDir: real, sinDir: real, slant: real,
                     ghost sheared: seq<Point3>, i: nat, slanted: seq<Point3>, minZ: real)
    returns (slanted': seq<Point3>, minZ': real)
    requires sheared == Sheared(polygon, Shears(polygon, center, cosDir, sinDir, slant))
    requires i < |polygon| && slanted == sheared[..i] && minZ == MinZ(slanted)
    ensures slanted' == sheared[..i + 1] && minZ' == MinZ(slanted')
  {
    var point := polygon[i];
    var offset := SlantOffset(point, center, cosDir, sinDir, slant);
    var slantedPoint := Voronoi.Lift(point, Numerals.RoundHalfEven(offset) as real);
    ShearedAt(polygon, center, cosDir, sinDir, slant, i);
    Voronoi.TakeOneMore(sheared, i);
    MinZStep(slanted, slantedPoint);
    minZ' := minZ;
    if minZ' > Z(slantedPoint) {
      minZ' := Z(slantedPoint);
    }
    slanted' := slanted + [slantedPoint];
  }

  /** The second loop of `slant_polygon`: every point lifted by the same
      amount. */
  method LiftLoop(points: seq<Point3>, lift: real) returns (displaced: seq<Point3>)
    ensures displaced == LiftedBy(points, lift)
  {
    displaced := [];
    var i := 0;
    while i < |points|
      invariant 0 <= i <= |points|
      invariant displaced == LiftedBy(points, lift)[..i]
    {
      displaced := displaced + [Voronoi.Lift(points[i], lift)];
      i := i + 1;
    }
  }

  // ---------------------------------------------------------------------
  // _cell_visible and _get_wrapped_cells

  /** `wrap_amount // 2`: Python's floor division. */
  function Half(wrap: int): (h: int)
    ensures 2 * h <= wrap < 2 * h + 2
  {
    wrap / 2
  }

  /** `_cell_visible(cell, grid_size, wrap_amount, scale)`: the centre lies in
      the closed window that starts half the wrap amount into the wrapped
      grid and spans one grid extent. */
  predicate CellVisible(c: Cell, size0: int, size1: int, wrap: int, scale: real) {
    var h := Half(wrap) as real;
    h * scale <= X(c.center) <= (size0 as real + h) * scale &&
    h * scale <= Y(c.center) <= (size1 as real + h) * scale
  }

  /** Of a centre and its copy one grid extent further in x, both are
      visible only when the centre lies on the left edge of the window and
      the copy on the right edge. */
  lemma VisibleOnce(c: Cell, d: Cell, size0: int, size1: int, wrap: int, scale: real)
    requires X(d.center) == X(c.center) + size0 as real * scale
    requires CellVisible(c, size0, size1, wrap, scale) && CellVisible(d, size0, size1, wrap, scale)
    ensures X(c.center) == Half(wrap) as real * scale
    ensures X(d.center) == (size0 as real + Half(wrap) as real) * scale
  {
    var h := Half(wrap) as real;
    assert (size0 as real + h) * scale == size0 as real * scale + h * scale;
  }

  /** The tolerance `_get_wrapped_cells` compares distances with. */
  const Epsilon: real := 0.1

  /** The test `_get_wrapped_cells` applies to the centre tc of a test cell,
      for the centre cc of the given cell and the grid extent (ex, ey), that
      is `Point2d(*grid_size) * scale`. */
  predicate IsMirror(tc: Point3, cc: Point3, ex: real, ey: real) {
    var sameX := AbsValue(X(tc) - X(cc));
    var sameY := AbsValue(Y(tc) - Y(cc));
    var plusX := AbsValue(X(tc) - (X(cc) + ex));
    var plusY := AbsValue(Y(tc) - (Y(cc) + ey));
    var minusX := AbsValue(X(tc) - (X(cc) - ex));
    var minusY := AbsValue(Y(tc) - (Y(cc) - ey));
    (plusX < Epsilon && sameY < Epsilon) ||
    (minusX < Epsilon && sameY < Epsilon) ||
    (plusY < Epsilon && sameX < Epsilon) ||
    (minusY < Epsilon && sameX < Epsilon) ||
    (plusX < Epsilon && plusY < Epsilon) ||
    (plusX < Epsilon && minusY < Epsilon) ||
    (minusX < Epsilon && plusY < Epsilon) ||
    (minusX < Epsilon && minusY < Epsilon)
  }

  /** tc lies within Epsilon, in x and in y, of cc moved by (dx·ex, dy·ey). */
  predicate Near(tc: Point3, cc: Point3, ex: real, ey: real, dx: int, dy: int) {
    AbsValue(X(tc) - (X(cc) + dx as real * ex)) < Epsilon &&
    AbsValue(Y(tc) - (Y(cc) + dy as real * ey)) < Epsilon
  }

  /** The eight translations of the grid extent: every (dx, dy) in
      {-1, 0, 1}² but (0, 0). */
  predicate Translation(dx: int, dy: int) {
    -1 <= dx <= 1 && -1 <= dy <= 1 && (dx != 0 || dy != 0)
  }

  /** A test cell is a wrapped counterpart exactly when its centre is near one
      of the eight copies of the cell's centre translated by the grid
      extent. */
  lemma IsMirrorNear(tc: Point3, cc: Point3, ex: real, ey: real)
    ensures IsMirror(tc, cc, ex, ey) <==>
      exists dx, dy :: Translation(dx, dy) && Near(tc, cc, ex, ey, dx, dy)
  {
    assert Near(tc, cc, ex, ey, 1, 0) <==> AbsValue(X(tc) - (X(cc) + ex)) < Epsilon && AbsValue(Y(tc) - Y(cc)) < Epsilon;
    assert Near(tc, cc, ex, ey, -1, 0) <==> AbsValue(X(tc) - (X(cc) - ex)) < Epsilon && AbsValue(Y(tc) - Y(cc)) < Epsilon;
    assert Near(tc, cc, ex, ey, 0, 1) <==> AbsValue(X(tc) - X(cc)) < Epsilon && AbsValue(Y(tc) - (Y(cc) + ey)) < Epsilon;
    assert Near(tc, cc, ex, ey, 0, -1) <==> AbsValue(X(tc) - X(cc)) < Epsilon && AbsValue(Y(tc) - (Y(cc) - ey)) < Epsilon;
    assert Near(tc, cc, ex, ey, 1, 1) <==> AbsValue(X(tc) - (X(cc) + ex)) < Epsilon && AbsValue(Y(tc) - (Y(cc) + ey)) < Epsilon;
    assert Near(tc, cc, ex, ey, 1, -1) <==> AbsValue(X(tc) - (X(cc) + ex)) < Epsilon && AbsValue(Y(tc) - (Y(cc) - ey)) < Epsilon;
    assert Near(tc, cc, ex, ey, -1, 1) <==> AbsValue(X(tc) - (X(cc) - ex)) < Epsilon && AbsValue(Y(tc) - (Y(cc) + ey)) < Epsilon;
    assert Near(tc, cc, ex, ey, -1, -1) <==> AbsValue(X(tc) - (X(cc) - ex)) < Epsilon && AbsValue(Y(tc) - (Y(cc) - ey)) < Epsilon;
    if exists dx, dy :: Translation(dx, dy) && Near(tc, cc, ex, ey, dx, dy) {
      var dx, dy :| Translation(dx, dy) && Near(tc, cc, ex, ey, dx, dy);
      assert dx == -1 || dx == 0 || dx == 1;
      assert dy == -1 || dy == 0 || dy == 1;
    }
  }

  /** Being a wrapped counterpart is symmetric. */
  lemma IsMirrorSymmetric(tc: Point3, cc: Point3, ex: real, ey: real)
    ensures IsMirror(tc, cc, ex, ey) <==> IsMirror(cc, tc, ex, ey)
  {
  }

  /** A cell is its own wrapped counterpart exactly when one grid extent is
      below the tolerance. */
  lemma IsMirrorSelf(c: Point3, ex: real, ey: real)
    ensures IsMirror(c, c, ex, ey) <==> AbsValue(ex) < Epsilon || AbsValue(ey) < Epsilon
  {
    assert AbsValue(X(c) - (X(c) + ex)) == AbsValue(ex) == AbsValue(X(c) - (X(c) - ex));
    assert AbsValue(Y(c) - (Y(c) + ey)) == AbsValue(ey) == AbsValue(Y(c) - (Y(c) - ey));
  }

  /** For every cell, whether its centre passes the mirror test. */
  function MirrorFlags(cells: seq<Cell>, cc: Point3, ex: real, ey: real): (r: seq<bool>)
    ensures |r| == |cells|
  {
    seq(|cells|, j requires 0 <= j < |cells| => IsMirror(cells[j].center, cc, ex, ey))
  }

  /** The positions, in order, of the true flags. */
  function Selected(flags: seq<bool>): (r: seq<nat>)
    ensures forall j :: 0 <= j < |r| ==> r[j] < |flags|
  {
    if flags == [] then []
    else
      var n := |flags| - 1;
      Selected(flags[..n]) + (if flags[n] then [n] else [])
  }

  /** The positions, in order, of the cells `_get_wrapped_cells` returns. */
  function MirrorPositions(cells: seq<Cell>, cc: Point3, ex: real, ey: real): (r: seq<nat>)
    ensures forall j :: 0 <= j < |r| ==> r[j] < |cells|
  {
    Selected(MirrorFlags(cells, cc, ex, ey))
  }

  /** Positions strictly increase. */
  predicate Increasing(r: seq<nat>) {
    forall i, j :: 0 <= i < j < |r| ==> r[i] < r[j]
  }

  lemma {:induction false} SelectedSpec(flags: seq<bool>)
    ensures Increasing(Selected(flags))
    ensures forall j: nat :: j in Selected(flags) <==> j < |flags| && flags[j]
  {
    if flags != [] {
      var n := |flags| - 1;
      var prev := Selected(flags[..n]);
      SelectedSpec(flags[..n]);
      assert forall j :: 0 <= j < n ==> flags[..n][j] == flags[j];
      if flags[n] {
        assert forall j :: 0 <= j < |prev| ==> prev[j] < n;
        assert forall j: nat :: j in prev + [n] <==> j in prev || j == n;
      } else {
        assert Selected(flags) == prev + [] == prev;
      }
    }
  }

  /** The mirror positions are exactly the positions of the cells whose
      centre passes the test, each once and in list order. */
  lemma MirrorPositionsSpec(cells: seq<Cell>, cc: Point3, ex: real, ey: real)
    ensures var r := MirrorPositions(cells, cc, ex, ey);
      Increasing(r) &&
      forall j: nat :: j in r <==> j < |cells| && IsMirror(cells[j].center, cc, ex, ey)
  {
    SelectedSpec(MirrorFlags(cells, cc, ex, ey));
  }

  lemma MirrorPositionsStep(cells: seq<Cell>, i: nat, cc: Point3, ex: real, ey: real)
    requires i < |cells|
    ensures MirrorPositions(cells[..i + 1], cc, ex, ey) ==
      MirrorPositions(cells[..i], cc, ex, ey) + (if IsMirror(cells[i].center, cc, ex, ey) then [i] else [])
  {
    var flags := MirrorFlags(cells[..i + 1], cc, ex, ey);
    assert flags[..i] == MirrorFlags(cells[..i], cc, ex, ey);
    assert flags[i] == IsMirror(cells[i].center, cc, ex, ey);
  }

  /** The cells at the given positions, in that order. */
  function Project<T>(cells: seq<T>, positions: seq<nat>): (r: seq<T>)
    requires forall j :: 0 <= j < |positions| ==> positions[j] < |cells|
    ensures |r| == |positions|
    ensures forall j :: 0 <= j < |r| ==> r[j] == cells[positions[j]]
  {
    seq(|positions|, j requires 0 <= j < |positions| => cells[positions[j]])
  }

  /** `_get_wrapped_cells(cells, cell, grid_size, scale)`: the cells whose
      centre passes the mirror test, and, standing for their identity, their
      positions. */
  method GetWrappedCells(cells: seq<Cell>, cell: Cell, size0: int, size1: int, scale: real)
    returns (wrapped: seq<Cell>, positions: seq<nat>)
    ensures positions == MirrorPositions(cells, cell.center, size0 as real * scale, size1 as real * scale)
    ensures wrapped == Project(cells, positions)
  {
    var ex := size0 as real * scale;
    var ey := size1 as real * scale;
    wrapped := [];
    positions := [];
    var i := 0;
    while i < |cells|
      invariant 0 <= i <= |cells|
      invariant positions == MirrorPositions(cells[..i], cell.center, ex, ey)
      invariant forall j :: 0 <= j < |positions| ==> positions[j] < i
      invariant wrapped == Project(cells, positions)
    {
      MirrorPositionsStep(cells, i, cell.center, ex, ey);
      var testCell := cells[i];
      if IsMirror(testCell.center, cell.center, ex, ey) {
        wrapped := wrapped + [testCell];
        positions := positions + [i];
      }
      i := i + 1;
    }
    assert cells[..i] == cells;
  }

  /** Five cells standing for part of a wrapped 4×4 grid: a cell at (1, 2),
      its copies at (5, 2), (1, 6) and (5, 6), and a neighbour at (2, 2). */
  function ExampleCells(): (r: seq<Cell>)
    ensures |r| == 5
  {
    [NewCell(P3(1.0, 2.0, 0.0), []), NewCell(P3(5.0, 2.0, 0.0), []),
     NewCell(P3(1.0, 6.0, 0.0), []), NewCell(P3(5.0, 6.0, 0.0), []),
     NewCell(P3(2.0, 2.0, 0.0), [])]
  }

  lemma ExampleFlags()
    ensures MirrorFlags(ExampleCells(), ExampleCells()[0].center, 4.0, 4.0) == [false, true, true, true, false]
  {
    var cells := ExampleCells();
    var cc := cells[0].center;
    assert !IsMirror(cells[0].center, cc, 4.0, 4.0);
    assert IsMirror(cells[1].center, cc, 4.0, 4.0);
    assert IsMirror(cells[2].center, cc, 4.0, 4.0);
    assert IsMirror(cells[3].center, cc, 4.0, 4.0);
    assert !IsMirror(cells[4].center, cc, 4.0, 4.0);
  }

  lemma SelectedExample()
    ensures Selected([false, true, true, true, false]) == [1, 2, 3]
  {
    var flags := [false, true, true, true, false];
    assert flags[..1] == [false];
    assert Selected([false]) == [] by {
      assert [false][..0] == [];
    }
    assert flags[..2][..1] == flags[..1];
    assert Selected(flags[..2]) == [1];
    assert flags[..3][..2] == flags[..2];
    assert Selected(flags[..3]) == [1, 2];
    assert flags[..4][..3] == flags[..3];
    assert Selected(flags[..4]) == [1, 2, 3];
    assert flags[..4] == flags[..|flags| - 1];
  }

  /** As in the doctest of `_get_wrapped_cells`: the cell at (1, 2) of the
      grid extent (4, 4) has three wrapped counterparts, the copies. */
  lemma WrappedCellsExample()
    ensures MirrorPositions(ExampleCells(), ExampleCells()[0].center, 4.0, 4.0) == [1, 2, 3]
  {
    ExampleFlags();
    SelectedExample();
  }

  // ---------------------------------------------------------------------
  // remove_random_cells

  /** How `remove_random_cells` stops early: `random.choice` on an empty list
      raises IndexError (NoCells), and `cells.remove` of a cell removed
      earlier in the same round raises ValueError (NotInList). */
  datatype CellError = NoCells | NotInList

  /** The number of redraws allowed for finding a visible cell. */
  const Tries: nat := 1000

  /** The retry loop of one round: starting from the drawn index rindex,
      with `tries` redraws left and the next draw at k, the index settled on
      and the next draw position. A loop that ends with no redraws left takes
      the middle cell, even when its last redraw was visible. */
  function Retry(cells: seq<Cell>, size0: int, size1: int, wrap: int, scale: real,
                 o: Rand.Oracle, k: nat, rindex: nat, tries: nat): (r: (nat, nat))
    requires rindex < |cells|
    ensures r.0 < |cells| && k <= r.1 <= k + tries
    ensures r.0 == |cells| / 2 || CellVisible(cells[r.0], size0, size1, wrap, scale)
    decreases tries
  {
    if !CellVisible(cells[rindex], size0, size1, wrap, scale) && tries > 0 then
      Retry(cells, size0, size1, wrap, scale, o, k + 1, Rand.BelowAt(o, k, |cells|), tries - 1)
    else ((if tries == 0 then |cells| / 2 else rindex), k)
  }

  /** `random.choice(range(len(cells)))` and the retry loop: the chosen cell
      is visible, or it is the middle one. */
  function Pick(cells: seq<Cell>, size0: int, size1: int, wrap: int, scale: real, o: Rand.Oracle, k: nat): (r: (nat, nat))
    requires |cells| > 0
    ensures r.0 < |cells| && k < r.1 <= k + 1 + Tries
    ensures r.0 == |cells| / 2 || CellVisible(cells[r.0], size0, size1, wrap, scale)
  {
    Retry(cells, size0, size1, wrap, scale, o, k + 1, Rand.BelowAt(o, k, |cells|), Tries)
  }

  /** `for c in mirror_cells: cells.remove(c)`, over the set of positions
      removed so far: the positions removed afterwards, and whether every
      remove found its cell. It stops at the first cell already gone. */
  function RemoveAll(targets: seq<nat>, gone: set<nat>): (r: (set<nat>, bool))
    decreases |targets|
  {
    if targets == [] then (gone, true)
    else if targets[0] in gone then (gone, false)
    else RemoveAll(targets[1..], gone + {targets[0]})
  }

  /** The set of the entries of ms. */
  function Members(ms: seq<nat>): (r: set<nat>)
    ensures forall x :: x in r <==> x in ms
  {
    if ms == [] then {} else {ms[0]} + Members(ms[1..])
  }

  /** The set of the entries of ms below c. */
  function MembersBelow(ms: seq<nat>, c: nat): (r: set<nat>)
    ensures forall x :: x in r <==> x in ms && x < c
  {
    if ms == [] then {} else (if ms[0] < c then {ms[0]} else {}) + MembersBelow(ms[1..], c)
  }

  lemma Regroup(below: set<nat>, a: nat, c: nat, rest: set<nat>)
    ensures below + {a} + {c} + rest == below + {c} + ({a} + rest)
    ensures below + {c} + {a} == below + {a} + {c}
  {
  }

  /** Nothing in an increasing list is below its first entry. */
  lemma NoneBelowFirst(ms: seq<nat>)
    requires Increasing(ms) && ms != []
    ensures MembersBelow(ms, ms[0]) == {}
  {
    forall m | m in ms
      ensures ms[0] <= m
    {
      var i :| 0 <= i < |ms| && ms[i] == m;
    }
  }

  /** The tail of an increasing list is increasing and above its head. */
  lemma IncreasingTail(ms: seq<nat>)
    requires Increasing(ms) && ms != []
    ensures Increasing(ms[1..])
    ensures forall x :: x in ms[1..] ==> ms[0] < x
  {
    forall x | x in ms[1..]
      ensures ms[0] < x
    {
      var i :| 0 <= i < |ms[1..]| && ms[1..][i] == x;
      assert ms[i + 1] == x;
    }
  }

  lemma {:induction false} RemoveAllIncreasing(ms: seq<nat>, below: set<nat>, c: nat)
    requires Increasing(ms) && c !in below
    requires ms != [] ==> forall g :: g in below ==> g < ms[0]
    ensures RemoveAll(ms, below + {c}) == RemovedIncreasing(ms, below, c)
    decreases |ms|
  {
    if ms == [] {
      assert below + {c} + Members(ms) == below + {c};
    } else if ms[0] == c {
      NoneBelowFirst(ms);
      assert below + {c} + {} == below + {c};
    } else {
      IncreasingTail(ms);
      assert ms[1..] != [] ==> ms[1..][0] in ms[1..];
      RemoveAllIncreasing(ms[1..], below + {ms[0]}, c);
      RemoveAllStep(ms, below, c);
    }
  }

  /** What `RemoveAllIncreasing` states removing an increasing list leaves. */
  function RemovedIncreasing(ms: seq<nat>, below: set<nat>, c: nat): (set<nat>, bool) {
    if c in ms then (below + {c} + MembersBelow(ms, c), false)
    else (below + {c} + Members(ms), true)
  }

  /** The step of `RemoveAllIncreasing` past a head that is not c. */
  lemma RemoveAllStep(ms: seq<nat>, below: set<nat>, c: nat)
    requires ms != [] && ms[0] != c && c !in below && forall g :: g in below ==> g < ms[0]
    requires forall x :: x in ms[1..] ==> ms[0] < x
    requires RemoveAll(ms[1..], below + {ms[0]} + {c}) == RemovedIncreasing(ms[1..], below + {ms[0]}, c)
    ensures RemoveAll(ms, below + {c}) == RemovedIncreasing(ms, below, c)
  {
    var rest := ms[1..];
    assert ms[0] !in below + {c};
    Regroup(below, ms[0], c, {});
    assert c in ms <==> c in rest;
    if c in ms {
      assert MembersBelow(ms, c) == {ms[0]} + MembersBelow(rest, c);
      Regroup(below, ms[0], c, MembersBelow(rest, c));
    } else {
      assert Members(ms) == {ms[0]} + Members(rest);
      Regroup(below, ms[0], c, Members(rest));
    }
  }

  /** Removing `[cell] + _get_wrapped_cells(...)` one after the other fails
      exactly when the cell is among its own counterparts; the positions
      removed are the cell and all its counterparts, or, on failure, the cell
      and the counterparts before it in the list. */
  lemma RemoveGroup(c: nat, ms: seq<nat>)
    requires Increasing(ms)
    ensures var r := RemoveAll([c] + ms, {});
      (r.1 <==> c !in ms) &&
      (r.1 ==> r.0 == {c} + Members(ms)) &&
      (!r.1 ==> r.0 == {c} + MembersBelow(ms, c))
  {
    RemoveAllIncreasing(ms, {}, c);
    assert ([c] + ms)[1..] == ms;
    assert {} + {c} == {c};
  }

  /** The positions below n that are not in gone, in order. */
  function Kept(n: nat, gone: set<nat>): (r: seq<nat>)
    ensures forall j :: 0 <= j < |r| ==> r[j] < n
  {
    if n == 0 then [] else Kept(n - 1, gone) + (if n - 1 in gone then [] else [n - 1])
  }

  /** The positions of gone that lie below n. */
  function Below(gone: set<nat>, n: nat): set<nat> {
    set j | j in gone && j < n
  }

  /** Kept lists, in increasing order, exactly the positions below n that
      are not gone. */
  lemma {:induction false} KeptSpec(n: nat, gone: set<nat>)
    ensures Increasing(Kept(n, gone))
    ensures forall j: nat :: j in Kept(n, gone) <==> j < n && j !in gone
  {
    if n > 0 {
      KeptSpec(n - 1, gone);
      var prev := Kept(n - 1, gone);
      if n - 1 !in gone {
        assert Kept(n, gone) == prev + [n - 1];
        AppendAbove(prev, n - 1);
      } else {
        assert Kept(n, gone) == prev + [] == prev;
      }
    }
  }

  /** Appending a number above all the others keeps them increasing. */
  lemma AppendAbove(prev: seq<nat>, x: nat)
    requires Increasing(prev) && forall j :: 0 <= j < |prev| ==> prev[j] < x
    ensures Increasing(prev + [x])
    ensures forall j: nat :: j in prev + [x] <==> j in prev || j == x
  {
  }

  /** One position is kept for every position below n that is not gone. */
  lemma {:induction false} KeptCount(n: nat, gone: set<nat>)
    ensures |Kept(n, gone)| + |Below(gone, n)| == n
  {
    if n > 0 {
      KeptCount(n - 1, gone);
      var prev := Below(gone, n - 1);
      if n - 1 in gone {
        assert Below(gone, n) == prev + {n - 1} by {
          forall j | j in Below(gone, n)
            ensures j in prev + {n - 1}
          {
          }
        }
        assert n - 1 !in prev;
      } else {
        assert Below(gone, n) == prev by {
          forall j | j in Below(gone, n)
            ensures j in prev
          {
          }
        }
      }
    }
  }

  /** The list once the cells at the positions in gone are removed. */
  function Without(cells: seq<Cell>, gone: set<nat>): (r: seq<Cell>)
    ensures |r| == |Kept(|cells|, gone)|
  {
    Project(cells, Kept(|cells|, gone))
  }

  /** The copy of a removed cell with z = 0 for its centre and every vertex. */
  function Flat(c: Cell): (r: Cell)
    ensures r.(center := c.center, polygon := c.polygon) == c
    ensures X(r.center) == X(c.center) && Y(r.center) == Y(c.center) && Z(r.center) == 0.0
    ensures |r.polygon| == |c.polygon|
    ensures forall i :: 0 <= i < |r.polygon| ==>
      X(r.polygon[i]) == X(c.polygon[i]) && Y(r.polygon[i]) == Y(c.polygon[i]) && Z(r.polygon[i]) == 0.0
  {
    c.(center := OnPlane((X(c.center), Y(c.center))),
       polygon := seq(|c.polygon|, i requires 0 <= i < |c.polygon| => OnPlane((X(c.polygon[i]), Y(c.polygon[i])))))
  }

  /** The cell lies flat: z = 0 for its centre and every vertex. */
  predicate IsFlat(c: Cell) {
    Z(c.center) == 0.0 && forall i :: 0 <= i < |c.polygon| ==> Z(c.polygon[i]) == 0.0
  }

  /** The flattened copies of the cells at the group's positions. */
  function Copies(cells: seq<Cell>, group: seq<nat>): (r: seq<Cell>)
    requires forall j :: 0 <= j < |group| ==> group[j] < |cells|
    ensures |r| == |group|
    ensures forall j :: 0 <= j < |r| ==> IsFlat(r[j])
  {
    seq(|group|, j requires 0 <= j < |group| => Flat(cells[group[j]]))
  }

  /** The state after some rounds of `remove_random_cells`: the list, the
      copies of the removed cells, the next draw position, and the error
      that stopped it, if any. */
  datatype Removal = Removal(cells: seq<Cell>, removed: seq<Cell>, next: nat, error: Option<CellError>)

  /** The cell at position c and its wrapped counterparts: the positions
      `mirror_cells` holds. */
  function Group(cells: seq<Cell>, c: nat, size0: int, size1: int, scale: real): (g: seq<nat>)
    requires c < |cells|
    ensures forall j :: 0 <= j < |g| ==> g[j] < |cells|
  {
    [c] + MirrorPositions(cells, cells[c].center, size0 as real * scale, size1 as real * scale)
  }

  /** The removal part of a round once the cell at c is chosen. On NotInList
      the list keeps the removes done before the failing one. */
  function RemoveAt(cells: seq<Cell>, c: nat, size0: int, size1: int, scale: real, next: nat): (r: Removal)
    requires c < |cells|
  {
    var group := Group(cells, c, size0, size1, scale);
    var outcome := RemoveAll(group, {});
    if outcome.1 then Removal(Without(cells, outcome.0), Copies(cells, group), next, None)
    else Removal(Without(cells, outcome.0), [], next, Some(NotInList))
  }

  /** One iteration of the loop of `remove_random_cells` on the current list,
      the next draw at k. */
  function RemoveRound(cells: seq<Cell>, size0: int, size1: int, wrap: int, scale: real, o: Rand.Oracle, k: nat): (r: Removal)
  {
    if cells == [] then Removal(cells, [], k, Some(NoCells))
    else
      var pick := Pick(cells, size0, size1, wrap, scale, o, k);
      RemoveAt(cells, pick.0, size0, size1, scale, pick.1)
  }

  /** Removing the group of a cell fails exactly when a grid extent is below
      the tolerance, for then every cell is its own counterpart; otherwise it
      takes the cell and its counterparts out of the list, keeps the order of
      the rest, and returns one flat copy per removed cell. */
  lemma RemoveAtSpec(cells: seq<Cell>, c: nat, size0: int, size1: int, scale: real, next: nat)
    requires c < |cells|
    ensures var r := RemoveAt(cells, c, size0, size1, scale, next);
      var ms := MirrorPositions(cells, cells[c].center, size0 as real * scale, size1 as real * scale);
      (r.error.Some? <==> AbsValue(size0 as real * scale) < Epsilon || AbsValue(size1 as real * scale) < Epsilon) &&
      (r.error.None? ==>
        r.cells == Without(cells, {c} + Members(ms)) &&
        r.removed == Copies(cells, [c] + ms) &&
        |r.cells| + |r.removed| == |cells|)
  {
    var ex := size0 as real * scale;
    var ey := size1 as real * scale;
    var ms := MirrorPositions(cells, cells[c].center, ex, ey);
    MirrorPositionsSpec(cells, cells[c].center, ex, ey);
    IsMirrorSelf(cells[c].center, ex, ey);
    RemoveGroup(c, ms);
    if c !in ms {
      var gone := {c} + Members(ms);
      KeptCount(|cells|, gone);
      assert Below(gone, |cells|) == gone;
      DistinctCount(ms);
    }
  }

  /** The set of an increasing list has one element per entry. */
  lemma {:induction false} DistinctCount(ms: seq<nat>)
    requires Increasing(ms)
    ensures |Members(ms)| == |ms|
  {
    if ms != [] {
      var rest := ms[1..];
      assert Increasing(rest);
      DistinctCount(rest);
      assert ms[0] !in rest;
    }
  }

  /** A round on a non-empty list fails exactly when a grid extent is below
      the tolerance. */
  lemma RemoveRoundError(cells: seq<Cell>, size0: int, size1: int, wrap: int, scale: real, o: Rand.Oracle, k: nat)
    requires cells != []
    ensures RemoveRound(cells, size0, size1, wrap, scale, o, k).error.Some? <==>
      AbsValue(size0 as real * scale) < Epsilon || AbsValue(size1 as real * scale) < Epsilon
  {
    var pick := Pick(cells, size0, size1, wrap, scale, o, k);
    RemoveAtSpec(cells, pick.0, size0, size1, scale, pick.1);
  }

  /** A successful round removes as many cells from the list as it returns
      copies, and the copies lie flat. */
  lemma RemoveRoundCount(cells: seq<Cell>, size0: int, size1: int, wrap: int, scale: real, o: Rand.Oracle, k: nat)
    ensures var r := RemoveRound(cells, size0, size1, wrap, scale, o, k);
      (r.error.None? ==> |r.cells| + |r.removed| == |cells|) &&
      forall j :: 0 <= j < |r.removed| ==> IsFlat(r.removed[j])
  {
    if cells != [] {
      var pick := Pick(cells, size0, size1, wrap, scale, o, k);
      RemoveAtSpec(cells, pick.0, size0, size1, scale, pick.1);
    }
  }

  /** `rounds` iterations, stopping at the first error. Nothing is lost or
      duplicated: without an error every cell is either still in the list or
      returned as a copy; and every copy lies flat. */
  function RemoveRounds(cells: seq<Cell>, rounds: nat, size0: int, size1: int, wrap: int, scale: real, o: Rand.Oracle, k: nat): (r: Removal)
    ensures r.error.None? ==> |r.cells| + |r.removed| == |cells|
    ensures forall j :: 0 <= j < |r.removed| ==> IsFlat(r.removed[j])
    decreases rounds, 1
  {
    if rounds == 0 then Removal(cells, [], k, None)
    else RoundThenRest(cells, rounds, size0, size1, wrap, scale, o, k)
  }

  /** At least one round left: the first round, and unless it fails, the
      others on what it leaves, its copies put in front of theirs. */
  function RoundThenRest(cells: seq<Cell>, rounds: nat, size0: int, size1: int, wrap: int, scale: real, o: Rand.Oracle, k: nat): (r: Removal)
    requires rounds > 0
    ensures r.error.None? ==> |r.cells| + |r.removed| == |cells|
    ensures forall j :: 0 <= j < |r.removed| ==> IsFlat(r.removed[j])
    decreases rounds, 0
  {
    var first := RemoveRound(cells, size0, size1, wrap, scale, o, k);
    RemoveRoundCount(cells, size0, size1, wrap, scale, o, k);
    if first.error.Some? then first
    else
      var rest := RemoveRounds(first.cells, rounds - 1, size0, size1, wrap, scale, o, first.next);
      ConcatFlat(first.removed, rest.removed);
      rest.(removed := first.removed + rest.removed)
  }

  lemma ConcatFlat(a: seq<Cell>, b: seq<Cell>)
    requires forall j :: 0 <= j < |a| ==> IsFlat(a[j])
    requires forall j :: 0 <= j < |b| ==> IsFlat(b[j])
    ensures forall j :: 0 <= j < |a + b| ==> IsFlat((a + b)[j])
  {
    forall j | 0 <= j < |a + b|
      ensures IsFlat((a + b)[j])
    {
      if j >= |a| {
        assert (a + b)[j] == b[j - |a|];
      }
    }
  }

  /** The state r with the copies `earlier` rounds returned put in front. */
  function Prefixed(r: Removal, earlier: seq<Cell>): (p: Removal)
    ensures p.cells == r.cells && p.next == r.next && p.error == r.error
    ensures |p.removed| == |earlier| + |r.removed|
    ensures p.removed[..|earlier|] == earlier && p.removed[|earlier|..] == r.removed
  {
    r.(removed := earlier + r.removed)
  }

  /** The first of several rounds, and the rest. */
  lemma RemoveRoundsStep(cells: seq<Cell>, rounds: nat, size0: int, size1: int, wrap: int, scale: real, o: Rand.Oracle, k: nat)
    requires rounds > 0
    ensures var first := RemoveRound(cells, size0, size1, wrap, scale, o, k);
      RemoveRounds(cells, rounds, size0, size1, wrap, scale, o, k) ==
        if first.error.Some? then first
        else Prefixed(RemoveRounds(first.cells, rounds - 1, size0, size1, wrap, scale, o, first.next), first.removed)
  {
  }

  /** After some rounds with the copies `earlier` returned, the remaining
      rounds on the current list lead to the overall outcome total. */
  predicate Continues(total: Removal, earlier: seq<Cell>, cells: seq<Cell>, rounds: nat,
                      size0: int, size1: int, wrap: int, scale: real, o: Rand.Oracle, k: nat) {
    total == Prefixed(RemoveRounds(cells, rounds, size0, size1, wrap, scale, o, k), earlier)
  }

  /** How the loop of `remove_random_cells` moves on after a round. */
  lemma RoundsAdvance(cells: seq<Cell>, rounds: nat, size0: int, size1: int, wrap: int, scale: real, o: Rand.Oracle, k: nat,
                      first: Removal, earlier: seq<Cell>, total: Removal)
    requires rounds > 0
    requires first == RemoveRound(cells, size0, size1, wrap, scale, o, k)
    requires Continues(total, earlier, cells, rounds, size0, size1, wrap, scale, o, k)
    ensures first.error.Some? ==> total.cells == first.cells && total.error == first.error
    ensures first.error.None? ==>
      Continues(total, earlier + first.removed, first.cells, rounds - 1, size0, size1, wrap, scale, o, first.next)
  {
    RemoveRoundsStep(cells, rounds, size0, size1, wrap, scale, o, k);
    if first.error.None? {
      PrefixedTwice(RemoveRounds(first.cells, rounds - 1, size0, size1, wrap, scale, o, first.next), first.removed, earlier);
    }
  }

  /** Once no rounds remain, the outcome is the current list and the copies
      returned so far. */
  lemma RoundsDone(total: Removal, earlier: seq<Cell>, cells: seq<Cell>,
                   size0: int, size1: int, wrap: int, scale: real, o: Rand.Oracle, k: nat)
    requires Continues(total, earlier, cells, 0, size0, size1, wrap, scale, o, k)
    ensures total == Removal(cells, earlier, k, None)
  {
    assert earlier + [] == earlier;
  }

  lemma PrefixedNothing(r: Removal)
    ensures Prefixed(r, []) == r
  {
    assert [] + r.removed == r.removed;
  }

  lemma PrefixedTwice(r: Removal, later: seq<Cell>, earlier: seq<Cell>)
    ensures Prefixed(Prefixed(r, later), earlier) == Prefixed(r, earlier + later)
  {
    assert earlier + (later + r.removed) == earlier + later + r.removed;
  }

  // Nothing is lost or duplicated.

  /** The flat copies of the given cells, in order. */
  function Flats(taken: seq<Cell>): (r: seq<Cell>)
    ensures |r| == |taken|
    ensures forall j :: 0 <= j < |r| ==> r[j] == Flat(taken[j])
  {
    seq(|taken|, j requires 0 <= j < |taken| => Flat(taken[j]))
  }

  /** From list `before` to list `after` with the copies returned: some
      cells were taken out, the cells left together with them are exactly
      the cells of `before` (as a multiset: none lost, none duplicated), and
      the copies are the taken cells flattened, in order. */
  ghost predicate Conserves(before: seq<Cell>, after: seq<Cell>, copies: seq<Cell>) {
    exists taken: seq<Cell> :: multiset(after) + multiset(taken) == multiset(before) && copies == Flats(taken)
  }

  /** A successful round conserves the cells. */
  lemma RemoveRoundConserves(cells: seq<Cell>, size0: int, size1: int, wrap: int, scale: real, o: Rand.Oracle, k: nat)
    ensures var r := RemoveRound(cells, size0, size1, wrap, scale, o, k);
      r.error.None? ==> Conserves(cells, r.cells, r.removed)
  {
    if cells != [] {
      var pick := Pick(cells, size0, size1, wrap, scale, o, k);
      var c := pick.0;
      var ex := size0 as real * scale;
      var ey := size1 as real * scale;
      var ms := MirrorPositions(cells, cells[c].center, ex, ey);
      var r := RemoveAt(cells, c, size0, size1, scale, pick.1);
      RemoveAtSpec(cells, c, size0, size1, scale, pick.1);
      if r.error.None? {
        var group := [c] + ms;
        var gone := {c} + Members(ms);
        assert group == Group(cells, c, size0, size1, scale);
        MirrorPositionsSpec(cells, cells[c].center, ex, ey);
        IsMirrorSelf(cells[c].center, ex, ey);
        RemoveGroup(c, ms);
        var taken := Project(cells, group);
        GroupPermutesChosen(cells, c, ms, gone);
        ProjectPerm(cells, group, Chosen(|cells|, gone));
        SplitMultiset(cells, |cells|, gone);
        assert cells[..|cells|] == cells;
        assert r.removed == Flats(taken);
      }
    }
  }

  /** The cell's group, [c] + ms, holds the same positions, each once, as
      the positions in gone in increasing order. */
  lemma GroupPermutesChosen(cells: seq<Cell>, c: nat, ms: seq<nat>, gone: set<nat>)
    requires c < |cells| && c !in ms && Increasing(ms)
    requires forall j :: 0 <= j < |ms| ==> ms[j] < |cells|
    requires gone == {c} + Members(ms)
    ensures multiset([c] + ms) == multiset(Chosen(|cells|, gone))
  {
    var b := Chosen(|cells|, gone);
    ChosenSpec(|cells|, gone);
    GroupOnce(c, ms);
    GroupEntries(|cells|, c, ms, gone);
    SameEntriesOnce([c] + ms, b);
  }

  /** A cell followed by increasing positions without it holds each
      position once. */
  lemma GroupOnce(c: nat, ms: seq<nat>)
    requires c !in ms && Increasing(ms)
    ensures forall i, j :: 0 <= i < j < |[c] + ms| ==> ([c] + ms)[i] != ([c] + ms)[j]
  {
    var a := [c] + ms;
    forall i, j | 0 <= i < j < |a|
      ensures a[i] != a[j]
    {
      if i > 0 {
        assert a[i] == ms[i - 1] && a[j] == ms[j - 1];
      } else {
        assert a[j] == ms[j - 1];
      }
    }
  }

  /** The group and the chosen positions hold the same entries. */
  lemma GroupEntries(n: nat, c: nat, ms: seq<nat>, gone: set<nat>)
    requires c < n && forall j :: 0 <= j < |ms| ==> ms[j] < n
    requires gone == {c} + Members(ms)
    requires forall j: nat :: j in Chosen(n, gone) <==> j < n && j in gone
    ensures forall x: nat :: x in [c] + ms <==> x in Chosen(n, gone)
  {
    forall x: nat
      ensures x in [c] + ms <==> x in Chosen(n, gone)
    {
      if x in ms {
        var i :| 0 <= i < |ms| && ms[i] == x;
      }
    }
  }

  /** The positions below n that are in gone, in order. */
  function Chosen(n: nat, gone: set<nat>): (r: seq<nat>)
    ensures forall j :: 0 <= j < |r| ==> r[j] < n
  {
    if n == 0 then [] else Chosen(n - 1, gone) + (if n - 1 in gone then [n - 1] else [])
  }

  lemma {:induction false} ChosenSpec(n: nat, gone: set<nat>)
    ensures Increasing(Chosen(n, gone))
    ensures forall j: nat :: j in Chosen(n, gone) <==> j < n && j in gone
  {
    if n > 0 {
      ChosenSpec(n - 1, gone);
      var prev := Chosen(n - 1, gone);
      if n - 1 in gone {
        assert Chosen(n, gone) == prev + [n - 1];
        AppendAbove(prev, n - 1);
      } else {
        assert Chosen(n, gone) == prev + [] == prev;
      }
    }
  }

  /** Every one of the first n cells is either kept or chosen. */
  lemma {:induction false} SplitMultiset<T>(cells: seq<T>, n: nat, gone: set<nat>)
    requires n <= |cells|
    ensures multiset(Project(cells, Kept(n, gone))) + multiset(Project(cells, Chosen(n, gone))) == multiset(cells[..n])
  {
    if n > 0 {
      SplitMultiset(cells, n - 1, gone);
      SplitStep(cells, n, gone);
    }
  }

  /** The step of `SplitMultiset`: cell n - 1 joins the chosen cells or the
      kept ones. */
  lemma SplitStep<T>(cells: seq<T>, n: nat, gone: set<nat>)
    requires 0 < n <= |cells|
    requires multiset(Project(cells, Kept(n - 1, gone))) + multiset(Project(cells, Chosen(n - 1, gone))) == multiset(cells[..n - 1])
    ensures multiset(Project(cells, Kept(n, gone))) + multiset(Project(cells, Chosen(n, gone))) == multiset(cells[..n])
  {
    var a := Project(cells, Kept(n - 1, gone));
    var b := Project(cells, Chosen(n - 1, gone));
    var x := cells[n - 1];
    assert cells[..n] == cells[..n - 1] + [x];
    assert multiset(cells[..n]) == multiset(cells[..n - 1]) + multiset{x};
    if n - 1 in gone {
      assert Kept(n, gone) == Kept(n - 1, gone) + [] == Kept(n - 1, gone);
      assert Chosen(n, gone) == Chosen(n - 1, gone) + [n - 1];
      ProjectAppend(cells, Chosen(n - 1, gone), n - 1);
      var ka, kb := Project(cells, Kept(n, gone)), Project(cells, Chosen(n, gone));
      assert ka == a;
      assert kb == b + [x];
      assert multiset(b + [x]) == multiset(b) + multiset{x};
      UnionMoves(multiset(a), multiset(b), multiset{x});
      assert multiset(ka) + multiset(kb) == multiset(a) + (multiset(b) + multiset{x});
      assert multiset(ka) + multiset(kb) == multiset(cells[..n - 1]) + multiset{x};
    } else {
      assert Chosen(n, gone) == Chosen(n - 1, gone) + [] == Chosen(n - 1, gone);
      assert Kept(n, gone) == Kept(n - 1, gone) + [n - 1];
      ProjectAppend(cells, Kept(n - 1, gone), n - 1);
      var ka, kb := Project(cells, Kept(n, gone)), Project(cells, Chosen(n, gone));
      assert ka == a + [x];
      assert kb == b;
      assert multiset(a + [x]) == multiset(a) + multiset{x};
      UnionMoves(multiset(a), multiset(b), multiset{x});
      assert multiset(ka) + multiset(kb) == (multiset(a) + multiset{x}) + multiset(b);
      assert multiset(ka) + multiset(kb) == multiset(cells[..n - 1]) + multiset{x};
    }
  }

  lemma UnionMoves<T>(a: multiset<T>, b: multiset<T>, x: multiset<T>)
    ensures a + (b + x) == (a + b) + x && (a + x) + b == (a + b) + x && b + (a + x) == (a + b) + x
  {
  }

  lemma UnionCancel<T>(p: multiset<T>, q: multiset<T>, x: multiset<T>)
    requires p + x == q + x
    ensures p == q
  {
    assert forall e :: p[e] == (p + x)[e] - x[e] == (q + x)[e] - x[e] == q[e];
  }

  lemma ProjectAppend<T>(cells: seq<T>, positions: seq<nat>, i: nat)
    requires i < |cells| && forall j :: 0 <= j < |positions| ==> positions[j] < |cells|
    ensures Project(cells, positions + [i]) == Project(cells, positions) + [cells[i]]
  {
  }

  /** Positions that are a permutation of each other pick a permutation of
      the cells. */
  lemma {:induction false} ProjectPerm<T>(cells: seq<T>, a: seq<nat>, b: seq<nat>)
    requires forall j :: 0 <= j < |a| ==> a[j] < |cells|
    requires forall j :: 0 <= j < |b| ==> b[j] < |cells|
    requires multiset(a) == multiset(b)
    ensures multiset(Project(cells, a)) == multiset(Project(cells, b))
    decreases |a|
  {
    if a == [] {
      assert |b| == |multiset(b)| == 0;
    } else {
      var i := |a| - 1;
      var x := a[i];
      assert x in multiset(b);
      var j :| 0 <= j < |b| && b[j] == x;
      var a', b' := a[..i] + a[i + 1..], b[..j] + b[j + 1..];
      DropAt(a, i);
      DropAt(b, j);
      UnionCancel(multiset(a'), multiset(b'), multiset{x});
      ProjectDrop(cells, a, i);
      ProjectDrop(cells, b, j);
      ProjectPerm(cells, a', b');
      DropAt(Project(cells, a), i);
      DropAt(Project(cells, b), j);
    }
  }

  /** Dropping entry j takes one occurrence of it out of the multiset. */
  lemma DropAt<T>(s: seq<T>, j: nat)
    requires j < |s|
    ensures multiset(s) == multiset(s[..j] + s[j + 1..]) + multiset{s[j]}
  {
    assert s == s[..j] + [s[j]] + s[j + 1..];
    assert multiset(s) == multiset(s[..j]) + multiset{s[j]} + multiset(s[j + 1..]);
    assert multiset(s[..j] + s[j + 1..]) == multiset(s[..j]) + multiset(s[j + 1..]);
  }

  /** Dropping a position drops the cell it picks. */
  lemma ProjectDrop<T>(cells: seq<T>, s: seq<nat>, j: nat)
    requires j < |s| && forall i :: 0 <= i < |s| ==> s[i] < |cells|
    ensures Project(cells, s[..j] + s[j + 1..]) == Project(cells, s)[..j] + Project(cells, s)[j + 1..]
  {
  }

  /** Two lists without repeats that hold the same entries are permutations
      of each other. */
  lemma SameEntriesOnce(a: seq<nat>, b: seq<nat>)
    requires forall i, j :: 0 <= i < j < |a| ==> a[i] != a[j]
    requires forall i, j :: 0 <= i < j < |b| ==> b[i] != b[j]
    requires forall x: nat :: x in a <==> x in b
    ensures multiset(a) == multiset(b)
  {
    forall x: nat
      ensures multiset(a)[x] == multiset(b)[x]
    {
      OnceEach(a, x);
      OnceEach(b, x);
    }
  }

  /** In a list without repeats every entry occurs once. */
  lemma {:induction false} OnceEach(s: seq<nat>, x: nat)
    requires forall i, j :: 0 <= i < j < |s| ==> s[i] != s[j]
    ensures multiset(s)[x] == if x in s then 1 else 0
  {
    if s != [] {
      var t := s[1..];
      assert s == [s[0]] + t;
      forall i, j | 0 <= i < j < |t|
        ensures t[i] != t[j]
      {
        assert t[i] == s[i + 1] && t[j] == s[j + 1];
      }
      OnceEach(t, x);
      if x == s[0] {
        assert x !in t by {
          forall i | 0 <= i < |t|
            ensures t[i] != x
          {
            assert t[i] == s[i + 1];
          }
        }
      }
    }
  }

  /** Two steps that conserve the cells conserve them together, the copies
      of the first in front. */
  lemma ConservesTwice(a: seq<Cell>, b: seq<Cell>, c: seq<Cell>, x: seq<Cell>, y: seq<Cell>)
    requires Conserves(a, b, x) && Conserves(b, c, y)
    ensures Conserves(a, c, x + y)
  {
    var t1 :| multiset(b) + multiset(t1) == multiset(a) && x == Flats(t1);
    var t2 :| multiset(c) + multiset(t2) == multiset(b) && y == Flats(t2);
    MultisetsJoin(a, b, c, t1, t2);
    FlatsConcat(t1, t2);
  }

  lemma MultisetsJoin<T>(a: seq<T>, b: seq<T>, c: seq<T>, t1: seq<T>, t2: seq<T>)
    requires multiset(b) + multiset(t1) == multiset(a) && multiset(c) + multiset(t2) == multiset(b)
    ensures multiset(c) + multiset(t1 + t2) == multiset(a)
  {
    assert multiset(t1 + t2) == multiset(t1) + multiset(t2);
  }

  lemma FlatsConcat(t1: seq<Cell>, t2: seq<Cell>)
    ensures Flats(t1 + t2) == Flats(t1) + Flats(t2)
  {
    var l, r := Flats(t1 + t2), Flats(t1) + Flats(t2);
    forall j | 0 <= j < |l|
      ensures l[j] == r[j]
    {
      if j < |t1| {
        assert (t1 + t2)[j] == t1[j];
      } else {
        assert (t1 + t2)[j] == t2[j - |t1|];
      }
    }
  }

  /** Without an error, `rounds` rounds lose and duplicate no cell: the list
      left and the cells taken out are together the list at the start, and
      the copies returned are the taken cells flattened, in order. */
  lemma {:induction false} RemoveRoundsConserve(cells: seq<Cell>, rounds: nat, size0: int, size1: int, wrap: int, scale: real, o: Rand.Oracle, k: nat)
    ensures var r := RemoveRounds(cells, rounds, size0, size1, wrap, scale, o, k);
      r.error.None? ==> Conserves(cells, r.cells, r.removed)
    decreases rounds
  {
    if rounds == 0 {
      var none: seq<Cell> := [];
      assert multiset(cells) + multiset(none) == multiset(cells);
      assert Flats(none) == [];
    } else {
      var first := RemoveRound(cells, size0, size1, wrap, scale, o, k);
      if first.error.None? {
        RemoveRoundsConserve(first.cells, rounds - 1, size0, size1, wrap, scale, o, first.next);
      }
      RoundsConserveStep(cells, rounds, size0, size1, wrap, scale, o, k, first);
    }
  }

  /** The step of `RemoveRoundsConserve`: a first round that conserves the
      cells, followed by rounds that do. */
  lemma RoundsConserveStep(cells: seq<Cell>, rounds: nat, size0: int, size1: int, wrap: int, scale: real, o: Rand.Oracle, k: nat, first: Removal)
    requires rounds > 0 && first == RemoveRound(cells, size0, size1, wrap, scale, o, k)
    requires first.error.None? ==>
      var rest := RemoveRounds(first.cells, rounds - 1, size0, size1, wrap, scale, o, first.next);
      rest.error.None? ==> Conserves(first.cells, rest.cells, rest.removed)
    ensures var r := RemoveRounds(cells, rounds, size0, size1, wrap, scale, o, k);
      r.error.None? ==> Conserves(cells, r.cells, r.removed)
  {
    RemoveRoundsStep(cells, rounds, size0, size1, wrap, scale, o, k);
    if first.error.None? {
      var rest := RemoveRounds(first.cells, rounds - 1, size0, size1, wrap, scale, o, first.next);
      RemoveRoundConserves(cells, size0, size1, wrap, scale, o, k);
      if rest.error.None? {
        ConservesTwice(cells, first.cells, rest.cells, first.removed, rest.removed);
      }
    }
  }

  /** `random.choice(range(len(cells)))` and the retry loop of one round,
      the draws starting at k. */
  method PickCell(cells: seq<Cell>, size0: int, size1: int, wrap: int, scale: real, o: Rand.Oracle, k: nat)
    returns (rindex: nat, next: nat)
    requires |cells| > 0
    ensures (rindex, next) == Pick(cells, size0, size1, wrap, scale, o, k)
  {
    rindex := Rand.BelowAt(o, k, |cells|);
    next := k + 1;
    var tries := Tries;
    while !CellVisible(cells[rindex], size0, size1, wrap, scale) && tries > 0
      invariant rindex < |cells|
      invariant Retry(cells, size0, size1, wrap, scale, o, next, rindex, tries) == Pick(cells, size0, size1, wrap, scale, o, k)
      decreases tries
    {
      rindex := Rand.BelowAt(o, next, |cells|);
      next := next + 1;
      tries := tries - 1;
    }
    if tries <= 0 {
      rindex := |cells| / 2;
    }
  }

  /** `for c in mirror_cells: cells.remove(c)` on the positions: the
      positions removed, and whether every remove found its cell. */
  method RemoveTargets(group: seq<nat>) returns (gone: set<nat>, ok: bool)
    ensures (gone, ok) == RemoveAll(group, {})
  {
    gone := {};
    ok := true;
    var i := 0;
    while i < |group| && ok
      invariant 0 <= i <= |group|
      invariant ok ==> RemoveAll(group[i..], gone) == RemoveAll(group, {})
      invariant !ok ==> (gone, false) == RemoveAll(group, {})
      decreases |group| - i, ok
    {
      if group[i] in gone {
        ok := false;
      } else {
        assert group[i..][1..] == group[i + 1..];
        gone := gone + {group[i]};
        i := i + 1;
      }
    }
  }

  lemma WithoutStep(cells: seq<Cell>, gone: set<nat>, i: nat)
    requires i < |cells|
    ensures Project(cells, Kept(i + 1, gone)) ==
      Project(cells, Kept(i, gone)) + (if i in gone then [] else [cells[i]])
  {
  }

  /** The list after its cells at the positions in gone are removed. */
  method Compact(cells: seq<Cell>, gone: set<nat>) returns (r: seq<Cell>)
    ensures r == Without(cells, gone)
  {
    r := [];
    var i := 0;
    while i < |cells|
      invariant 0 <= i <= |cells|
      invariant r == Project(cells, Kept(i, gone))
    {
      WithoutStep(cells, gone, i);
      if i !in gone {
        r := r + [cells[i]];
      }
      i := i + 1;
    }
  }

  /** `c.center.z = 0` and `p.z = 0` for every vertex, on a copy. */
  method Flatten(c: Cell) returns (r: Cell)
    ensures r == Flat(c)
  {
    var polygon := c.polygon;
    var i := 0;
    while i < |polygon|
      invariant 0 <= i <= |polygon| == |c.polygon|
      invariant forall j :: 0 <= j < i ==> polygon[j] == OnPlane((X(c.polygon[j]), Y(c.polygon[j])))
      invariant forall j :: i <= j < |polygon| ==> polygon[j] == c.polygon[j]
    {
      polygon := polygon[i := OnPlane((X(polygon[i]), Y(polygon[i])))];
      i := i + 1;
    }
    r := c.(center := OnPlane((X(c.center), Y(c.center))), polygon := polygon);
  }

  /** `deepcopy(mirror_cells)` flattened: one flat copy per group entry. */
  method CopyGroup(cells: seq<Cell>, group: seq<nat>) returns (icells: seq<Cell>)
    requires forall j :: 0 <= j < |group| ==> group[j] < |cells|
    ensures icells == Copies(cells, group)
  {
    icells := Project(cells, group);
    var i := 0;
    while i < |icells|
      invariant 0 <= i <= |icells| == |group|
      invariant forall j :: 0 <= j < i ==> icells[j] == Flat(cells[group[j]])
      invariant forall j :: i <= j < |icells| ==> icells[j] == cells[group[j]]
    {
      var flat := Flatten(icells[i]);
      icells := icells[i := flat];
      i := i + 1;
    }
  }

  // ---------------------------------------------------------------------
  // slant_random

  /** The slant direction of cell i, in turns: draw 3i after reseeding. */
  function Turn(o: Rand.Oracle, i: nat): real { Rand.RandomAt(o, 3 * i) }

  /** The slant amount of cell i: draw 3i + 1, scaled. */
  function Amount(o: Rand.Oracle, i: nat, maxSlant: real): real { Rand.RandomAt(o, 3 * i + 1) * maxSlant }

  /** The z displacement of cell i: draw 3i + 2, scaled. */
  function Displacement(o: Rand.Oracle, i: nat, maxZ: real): real { Rand.RandomAt(o, 3 * i + 2) * maxZ }

  /** Cell i after `slant_random`: its polygon slanted by its three draws;
      the cell counts as slanted once an amount is positive. */
  function SlantedCell(c: Cell, i: nat, maxSlant: real, maxZ: real, o: Rand.Oracle, trig: Trig.Trig): Cell {
    c.(polygon := Slanted(c.polygon, c.center, trig.cosTurn(Turn(o, i)), trig.sinTurn(Turn(o, i)),
                          Amount(o, i, maxSlant), Displacement(o, i, maxZ)),
       isSlanted := c.isSlanted || Amount(o, i, maxSlant) > 0.0)
  }

  /** The cells after `slant_random(cells, max_slant, max_z_displace, seed)`. */
  function SlantedCells(cells: seq<Cell>, maxSlant: real, maxZ: real, o: Rand.Oracle, trig: Trig.Trig): (r: seq<Cell>)
    ensures |r| == |cells|
  {
    seq(|cells|, i requires 0 <= i < |cells| => SlantedCell(cells[i], i, maxSlant, maxZ, o, trig))
  }

  /** The body of the loop of `slant_random` on cell i, whose three draws
      follow the 3i earlier ones. */
  method SlantCell(c: Cell, i: nat, maxSlant: real, maxZ: real, o: Rand.Oracle, trig: Trig.Trig) returns (r: Cell)
    ensures r == SlantedCell(c, i, maxSlant, maxZ, o, trig)
  {
    var direction := Turn(o, i);
    var amount := Amount(o, i, maxSlant);
    var zDisplace := Displacement(o, i, maxZ);
    var polygon := SlantPolygon(c.polygon, c.center, trig.cosTurn(direction), trig.sinTurn(direction), amount, zDisplace);
    r := c.(polygon := polygon);
    if amount > 0.0 {
      r := r.(isSlanted := true);
    }
  }

  /** For a non-negative maximum, the slant amount u·max is positive exactly
      when both factors are. */
  lemma AmountPositive(u: real, maxSlant: real)
    requires u >= 0.0 && maxSlant >= 0.0
    ensures u * maxSlant > 0.0 <==> u > 0.0 && maxSlant > 0.0
  {
    if u > 0.0 && maxSlant > 0.0 {
      MulPositive(u, maxSlant, u * maxSlant);
    }
  }

  /** `slant_random` changes only the polygon and the slanted flag, keeps
      every vertex's x and y, and marks a cell slanted exactly when it was
      slanted before or its amount draw and the maximum are positive. */
  lemma SlantRandomSpec(cells: seq<Cell>, maxSlant: real, maxZ: real, o: Rand.Oracle, trig: Trig.Trig)
    requires maxSlant >= 0.0
    ensures var r := SlantedCells(cells, maxSlant, maxZ, o, trig);
      forall i :: 0 <= i < |cells| ==>
        r[i].(polygon := cells[i].polygon, isSlanted := cells[i].isSlanted) == cells[i] &&
        |r[i].polygon| == |cells[i].polygon| &&
        (forall j :: 0 <= j < |cells[i].polygon| ==>
          X(r[i].polygon[j]) == X(cells[i].polygon[j]) && Y(r[i].polygon[j]) == Y(cells[i].polygon[j])) &&
        (r[i].isSlanted <==> cells[i].isSlanted || (maxSlant > 0.0 && Rand.RandomAt(o, 3 * i + 1) > 0.0))
  {
    var r := SlantedCells(cells, maxSlant, maxZ, o, trig);
    forall i | 0 <= i < |cells|
      ensures r[i].(polygon := cells[i].polygon, isSlanted := cells[i].isSlanted) == cells[i] &&
        |r[i].polygon| == |cells[i].polygon| &&
        (forall j :: 0 <= j < |cells[i].polygon| ==>
          X(r[i].polygon[j]) == X(cells[i].polygon[j]) && Y(r[i].polygon[j]) == Y(cells[i].polygon[j])) &&
        (r[i].isSlanted <==> cells[i].isSlanted || (maxSlant > 0.0 && Rand.RandomAt(o, 3 * i + 1) > 0.0))
    {
      assert r[i] == SlantedCell(cells[i], i, maxSlant, maxZ, o, trig);
      SlantedCellSpec(cells[i], i, maxSlant, maxZ, o, trig);
    }
  }

  /** One cell of `slant_random`: what the lemma above states at position i. */
  lemma SlantedCellSpec(c: Cell, i: nat, maxSlant: real, maxZ: real, o: Rand.Oracle, trig: Trig.Trig)
    requires maxSlant >= 0.0
    ensures var s := SlantedCell(c, i, maxSlant, maxZ, o, trig);
      s.(polygon := c.polygon, isSlanted := c.isSlanted) == c &&
      |s.polygon| == |c.polygon| &&
      (forall j :: 0 <= j < |c.polygon| ==> X(s.polygon[j]) == X(c.polygon[j]) && Y(s.polygon[j]) == Y(c.polygon[j])) &&
      (s.isSlanted <==> c.isSlanted || (maxSlant > 0.0 && Rand.RandomAt(o, 3 * i + 1) > 0.0))
  {
    AmountDrawn(o, i, maxSlant);
  }

  /** Cell i's amount is positive exactly when its draw and the maximum are. */
  lemma AmountDrawn(o: Rand.Oracle, i: nat, maxSlant: real)
    requires maxSlant >= 0.0
    ensures Amount(o, i, maxSlant) > 0.0 <==> maxSlant > 0.0 && Rand.RandomAt(o, 3 * i + 1) > 0.0
  {
    AmountPositive(Rand.RandomAt(o, 3 * i + 1), maxSlant);
  }

  /** With whole-number heights and a non-negative maximum displacement, no
      vertex ends up below z = 0. */
  lemma SlantRandomNonNegative(cells: seq<Cell>, maxSlant: real, maxZ: real, o: Rand.Oracle, trig: Trig.Trig)
    requires maxZ >= 0.0
    requires forall i, j :: 0 <= i < |cells| && 0 <= j < |cells[i].polygon| ==> Integral(Z(cells[i].polygon[j]))
    ensures var r := SlantedCells(cells, maxSlant, maxZ, o, trig);
      forall i, j :: 0 <= i < |r| && 0 <= j < |r[i].polygon| ==> Z(r[i].polygon[j]) >= 0.0
  {
    var r := SlantedCells(cells, maxSlant, maxZ, o, trig);
    forall i | 0 <= i < |r|
      ensures forall j :: 0 <= j < |r[i].polygon| ==> Z(r[i].polygon[j]) >= 0.0
    {
      assert r[i] == SlantedCell(cells[i], i, maxSlant, maxZ, o, trig);
      SlantedCellNonNegative(cells[i], i, maxSlant, maxZ, o, trig);
    }
  }

  lemma SlantedCellNonNegative(c: Cell, i: nat, maxSlant: real, maxZ: real, o: Rand.Oracle, trig: Trig.Trig)
    requires maxZ >= 0.0
    requires forall j :: 0 <= j < |c.polygon| ==> Integral(Z(c.polygon[j]))
    ensures var p := SlantedCell(c, i, maxSlant, maxZ, o, trig).polygon;
      forall j :: 0 <= j < |p| ==> Z(p[j]) >= 0.0
  {
    AmountPositive(Rand.RandomAt(o, 3 * i + 2), maxZ);
    SlantNonNegative(c.polygon, c.center, trig.cosTurn(Turn(o, i)), trig.sinTurn(Turn(o, i)),
                     Amount(o, i, maxSlant), Displacement(o, i, maxZ));
  }

  // ---------------------------------------------------------------------
  // apply_random_texture

  /** `'rotate({}, 50%, 50%)'.format(degrees)`. */
  function Rotation(degrees: int): string {
    "rotate(" + Numerals.IntToStr(degrees) + ", 50%, 50%)"
  }

  /** The transform text rotates by a whole angle in [0, 360). */
  predicate IsRotation(transform: string) {
    exists d :: 0 <= d < 360 && transform == Rotation(d)
  }

  /** The angle can be read back from the transform text. */
  lemma RotationAngle(degrees: int)
    ensures var t := Rotation(degrees);
      |t| > 18 && t[..7] == "rotate(" && t[|t| - 11..] == ", 50%, 50%)" &&
      Numerals.ParseInt(t[7..|t| - 11]) == Some(degrees)
  {
    var t := Rotation(degrees);
    var n := Numerals.IntToStr(degrees);
    assert t[7..|t| - 11] == n;
    Numerals.IntToStrRoundTrip(degrees);
  }

  /** The inner loop of `apply_random_texture`: every cell of the group gets
      the file and a rotation drawn by `random.randint(0, 359)`, at draws
      k, k + 1, ... in group order. */
  function AssignTextures(cells: seq<Cell>, group: seq<nat>, file: string, o: Rand.Oracle, k: nat): (r: seq<Cell>)
    requires forall j :: 0 <= j < |group| ==> group[j] < |cells|
    ensures |r| == |cells|
    decreases |group|
  {
    if group == [] then cells
    else
      var t := Texture(file, Rotation(Rand.RandIntAt(o, k, 0, 359)));
      AssignTextures(cells[group[0] := cells[group[0]].(texture := Some(t))], group[1..], file, o, k + 1)
  }

  /** The two cells differ at most in their texture. */
  predicate SameButTexture(a: Cell, b: Cell) {
    a.(texture := None) == b.(texture := None)
  }

  /** The texture of a cell names a file of the list and a rotation. */
  predicate HasTexture(c: Cell, textures: seq<string>) {
    c.texture.Some? && c.texture.value.file in textures && IsRotation(c.texture.value.transform)
  }

  /** The inner loop changes only textures, gives every cell of the group the
      same file with some rotation, and leaves the other cells alone. */
  lemma {:induction false} AssignTexturesSpec(cells: seq<Cell>, group: seq<nat>, file: string, o: Rand.Oracle, k: nat)
    requires forall j :: 0 <= j < |group| ==> group[j] < |cells|
    ensures var r := AssignTextures(cells, group, file, o, k);
      forall j :: 0 <= j < |cells| ==>
        SameButTexture(r[j], cells[j]) &&
        (j in group ==> r[j].texture.Some? && r[j].texture.value.file == file && IsRotation(r[j].texture.value.transform)) &&
        (j !in group ==> r[j] == cells[j])
    decreases |group|
  {
    if group != [] {
      var d := Rand.RandIntAt(o, k, 0, 359);
      var t := Texture(file, Rotation(d));
      var next := cells[group[0] := cells[group[0]].(texture := Some(t))];
      var rest := group[1..];
      AssignTexturesSpec(next, rest, file, o, k + 1);
      assert IsRotation(t.transform);
      assert forall j :: j in group <==> j == group[0] || j in rest;
    }
  }

  /** `apply_random_texture` from cell i on: cell i draws a file with
      `random.choice` and then each cell of its group a rotation, on the
      list as the earlier cells left it. Returns the list and the next draw
      position. Only textures change, and once the cells before i hold a
      texture of the required kind, every cell does. */
  function Textured(cells: seq<Cell>, textures: seq<string>, size0: int, size1: int, scale: real,
                    o: Rand.Oracle, k: nat, i: nat): (r: (seq<Cell>, nat))
    requires |textures| > 0 && i <= |cells|
    ensures |r.0| == |cells|
    ensures forall j :: 0 <= j < |cells| ==> SameButTexture(r.0[j], cells[j])
    ensures (forall j :: 0 <= j < i ==> HasTexture(cells[j], textures)) ==>
      forall j :: 0 <= j < |cells| ==> HasTexture(r.0[j], textures)
    decreases |cells| - i
  {
    if i == |cells| then (cells, k)
    else
      TextureStepSpec(cells, textures, size0, size1, scale, o, k, i);
      Textured(TextureStep(cells, textures, size0, size1, scale, o, k, i),
               textures, size0, size1, scale, o, k + 1 + |Group(cells, i, size0, size1, scale)|, i + 1)
  }

  /** One iteration of the outer loop of `apply_random_texture`, on cell i. */
  function TextureStep(cells: seq<Cell>, textures: seq<string>, size0: int, size1: int, scale: real,
                       o: Rand.Oracle, k: nat, i: nat): (r: seq<Cell>)
    requires |textures| > 0 && i < |cells|
    ensures |r| == |cells|
  {
    AssignTextures(cells, Group(cells, i, size0, size1, scale), Rand.ChoiceAt(o, k, textures), o, k + 1)
  }

  /** One outer iteration changes only textures, gives cell i a texture, and
      keeps the textures of the cells before it of the required kind. */
  lemma TextureStepSpec(cells: seq<Cell>, textures: seq<string>, size0: int, size1: int, scale: real,
                        o: Rand.Oracle, k: nat, i: nat)
    requires |textures| > 0 && i < |cells|
    ensures var next := TextureStep(cells, textures, size0, size1, scale, o, k, i);
      HasTexture(next[i], textures) &&
      ((forall j :: 0 <= j < i ==> HasTexture(cells[j], textures)) ==>
        forall j :: 0 <= j < i + 1 ==> HasTexture(next[j], textures)) &&
      forall j :: 0 <= j < |cells| ==> SameButTexture(next[j], cells[j])
  {
    AssignFirst(cells, Group(cells, i, size0, size1, scale), Rand.ChoiceAt(o, k, textures), textures, o, k + 1);
  }

  /** A group headed by cell i: cell i gets a texture of the required kind
      and so do the cells before it that had one. */
  lemma AssignFirst(cells: seq<Cell>, group: seq<nat>, file: string, textures: seq<string>, o: Rand.Oracle, k: nat)
    requires |group| > 0 && forall j :: 0 <= j < |group| ==> group[j] < |cells|
    requires file in textures
    ensures var i := group[0];
      var next := AssignTextures(cells, group, file, o, k);
      HasTexture(next[i], textures) &&
      ((forall j :: 0 <= j < i ==> HasTexture(cells[j], textures)) ==>
        forall j :: 0 <= j < i + 1 ==> HasTexture(next[j], textures)) &&
      forall j :: 0 <= j < |cells| ==> SameButTexture(next[j], cells[j])
  {
    var i := group[0];
    var next := AssignTextures(cells, group, file, o, k);
    AssignTexturesSpec(cells, group, file, o, k);
    if forall j :: 0 <= j < i ==> HasTexture(cells[j], textures) {
      forall j | 0 <= j < i + 1
        ensures HasTexture(next[j], textures)
      {
        if j !in group {
          assert next[j] == cells[j];
        }
      }
    }
  }

  /** `Textured` at cell i is one outer iteration followed by the rest. */
  lemma TexturedStep(cells: seq<Cell>, textures: seq<string>, size0: int, size1: int, scale: real,
                     o: Rand.Oracle, k: nat, i: nat)
    requires |textures| > 0 && i < |cells|
    ensures Textured(cells, textures, size0, size1, scale, o, k, i) ==
      Textured(TextureStep(cells, textures, size0, size1, scale, o, k, i),
               textures, size0, size1, scale, o, k + 1 + |Group(cells, i, size0, size1, scale)|, i + 1)
  {
  }

  /** After the first j cells of the group, what remains of the inner loop
      of `apply_random_texture` on r leads to target. */
  predicate AssignsFrom(r: seq<Cell>, group: seq<nat>, j: nat, file: string, o: Rand.Oracle, k: nat, target: seq<Cell>)
    requires j <= |group| && forall i :: 0 <= i < |group| ==> group[i] < |r|
  {
    AssignTextures(r, group[j..], file, o, k + j) == target
  }

  /** Texturing the group from position j on is texturing cell group[j]
      with draw k + j, then the rest from draw k + j + 1. */
  lemma AssignStep(r: seq<Cell>, group: seq<nat>, j: nat, file: string, o: Rand.Oracle, k: nat, t: Texture, target: seq<Cell>)
    requires j < |group| && forall i :: 0 <= i < |group| ==> group[i] < |r|
    requires t == Texture(file, Rotation(Rand.RandIntAt(o, k + j, 0, 359)))
    requires AssignsFrom(r, group, j, file, o, k, target)
    ensures AssignsFrom(r[group[j] := r[group[j]].(texture := Some(t))], group, j + 1, file, o, k, target)
  {
    assert group[j..][1..] == group[j + 1..];
  }

  /** The inner loop of `apply_random_texture`. */
  method AssignLoop(cells: seq<Cell>, group: seq<nat>, file: string, o: Rand.Oracle, k: nat) returns (r: seq<Cell>)
    requires forall j :: 0 <= j < |group| ==> group[j] < |cells|
    ensures r == AssignTextures(cells, group, file, o, k)
  {
    r := cells;
    var j := 0;
    while j < |group|
      invariant 0 <= j <= |group| && |r| == |cells|
      invariant AssignsFrom(r, group, j, file, o, k, AssignTextures(cells, group, file, o, k))
    {
      var c := group[j];
      var transform := Rotation(Rand.RandIntAt(o, k + j, 0, 359));
      AssignStep(r, group, j, file, o, k, Texture(file, transform), AssignTextures(cells, group, file, o, k));
      r := r[c := r[c].(texture := Some(Texture(file, transform)))];
      j := j + 1;
    }
  }

  /** One iteration of the outer loop of `apply_random_texture`: a file for
      cell i, then a rotation for each cell of its group. */
  method TextureCell(cells: seq<Cell>, textures: seq<string>, size0: int, size1: int, scale: real,
                     o: Rand.Oracle, k: nat, i: nat) returns (r: seq<Cell>, next: nat)
    requires |textures| > 0 && i < |cells|
    ensures r == TextureStep(cells, textures, size0, size1, scale, o, k, i)
    ensures next == k + 1 + |Group(cells, i, size0, size1, scale)|
  {
    var file := Rand.ChoiceAt(o, k, textures);
    var wrapped, positions := GetWrappedCells(cells, cells[i], size0, size1, scale);
    var group := [i] + positions;
    r := AssignLoop(cells, group, file, o, k + 1);
    next := k + 1 + |group|;
  }

  /** `apply_random_texture(cells, texture_images, grid_size, scale)` with
      the draws starting at k: None for an empty image list, otherwise a
      textured copy of the list in which every cell holds a file of the list
      and a rotation, and nothing but the textures differs from the input.
      Also returns the next draw position. */
  method ApplyRandomTexture(cells: seq<Cell>, textures: seq<string>, size0: int, size1: int, scale: real,
                            o: Rand.Oracle, k: nat) returns (r: Option<seq<Cell>>, next: nat)
    ensures |textures| == 0 ==> r == None && next == k
    ensures |textures| > 0 ==> var t := Textured(cells, textures, size0, size1, scale, o, k, 0);
      r == Some(t.0) && next == t.1
    ensures r.Some? ==>
      |r.value| == |cells| &&
      forall j :: 0 <= j < |cells| ==> HasTexture(r.value[j], textures) && SameButTexture(r.value[j], cells[j])
  {
    if |textures| == 0 {
      return None, k;
    }
    var current := cells;
    next := k;
    var i := 0;
    while i < |current|
      invariant 0 <= i <= |current| == |cells|
      invariant Textured(current, textures, size0, size1, scale, o, next, i) == Textured(cells, textures, size0, size1, scale, o, k, 0)
    {
      TexturedStep(current, textures, size0, size1, scale, o, next, i);
      current, next := TextureCell(current, textures, size0, size1, scale, o, next, i);
      i := i + 1;
    }
    r := Some(current);
  }

  // ---------------------------------------------------------------------
  // The list the operations change in place

  /** A list of cells, as `offset`, `slant_random` and
      `remove_random_cells` receive and mutate it. */
  class CellList {
    var cells: seq<Cell>

    constructor(initial: seq<Cell>)
      ensures cells == initial
    {
      cells := initial;
    }

    /** `offset(cells, distance, join_type)`. */
    method Offset(distance: real, join: JoinType, clipper: Clipper)
      modifies this
      ensures cells == OffsetCells(old(cells), distance, join, clipper)
    {
      ghost var before := cells;
      var i := 0;
      while i < |cells|
        invariant 0 <= i <= |cells| == |before|
        invariant forall j :: 0 <= j < i ==> cells[j] == OffsetCells(before, distance, join, clipper)[j]
        invariant forall j :: i <= j < |cells| ==> cells[j] == before[j]
      {
        var cell := cells[i];
        cells := cells[i := cell.(polygon := OffsetPolygon(cell.polygon, distance, join, clipper))];
        i := i + 1;
      }
    }

    /** `slant_random(cells, max_slant, max_z_displace, seed)`: three draws per
        cell after reseeding, in list order. */
    method SlantRandom(maxSlant: real, maxZ: real, o: Rand.Oracle, trig: Trig.Trig)
      modifies this
      ensures cells == SlantedCells(old(cells), maxSlant, maxZ, o, trig)
    {
      ghost var before := cells;
      var i := 0;
      while i < |cells|
        invariant 0 <= i <= |cells| == |before|
        invariant forall j :: 0 <= j < i ==> cells[j] == SlantedCells(before, maxSlant, maxZ, o, trig)[j]
        invariant forall j :: i <= j < |cells| ==> cells[j] == before[j]
      {
        var cell := SlantCell(cells[i], i, maxSlant, maxZ, o, trig);
        cells := cells[i := cell];
        i := i + 1;
      }
    }

    /** One iteration of the loop of `remove_random_cells`, the draws
        starting at k: the flat copies it adds, the next draw position, and
        the error that stops the loop, if any. */
    method RemoveOne(size0: int, size1: int, wrap: int, scale: real, o: Rand.Oracle, k: nat)
      returns (removed: seq<Cell>, next: nat, error: Option<CellError>)
      modifies this
      ensures Removal(cells, removed, next, error) == RemoveRound(old(cells), size0, size1, wrap, scale, o, k)
    {
      if cells == [] {
        return [], k, Some(NoCells);
      }
      var rindex;
      rindex, next := PickCell(cells, size0, size1, wrap, scale, o, k);
      var cell := cells[rindex];
      var wrapped, positions := GetWrappedCells(cells, cell, size0, size1, scale);
      var group := [rindex] + positions;
      var icells := CopyGroup(cells, group);
      var gone, ok := RemoveTargets(group);
      cells := Compact(cells, gone);
      if ok {
        removed, error := icells, None;
      } else {
        removed, error := [], Some(NotInList);
      }
    }

    /** One round of `remove_random_cells`, seen from the rounds that are
        left: a failure ends the removal with its error, a success leaves
        one round fewer, the list and copies grown by this round. */
    method RemoveCounted(ghost total: Removal, ghost earlier: seq<Cell>, ghost rounds: nat,
                         size0: int, size1: int, wrap: int, scale: real, o: Rand.Oracle, k: nat)
      returns (removed: seq<Cell>, next: nat, error: Option<CellError>)
      requires rounds > 0
      requires Continues(total, earlier, cells, rounds, size0, size1, wrap, scale, o, k)
      modifies this
      ensures error.Some? ==> total.cells == cells && total.error == error
      ensures error.None? ==> Continues(total, earlier + removed, cells, rounds - 1, size0, size1, wrap, scale, o, next)
    {
      ghost var first := RemoveRound(cells, size0, size1, wrap, scale, o, k);
      RoundsAdvance(cells, rounds, size0, size1, wrap, scale, o, k, first, earlier, total);
      removed, next, error := RemoveOne(size0, size1, wrap, scale, o, k);
      assert Removal(cells, removed, next, error) == first;
    }

    /** The loop of `remove_random_cells`: `rounds` rounds from draw 0,
        ending in the outcome total that the rounds specify. */
    method RunRounds(ghost total: Removal, rounds: nat, size0: int, size1: int, wrap: int, scale: real, o: Rand.Oracle)
      returns (result: Result<seq<Cell>, CellError>)
      requires Continues(total, [], cells, rounds, size0, size1, wrap, scale, o, 0)
      modifies this
      ensures cells == total.cells
      ensures result == if total.error.None? then Success(total.removed) else Failure(total.error.value)
    {
      var removed: seq<Cell> := [];
      var k: nat := 0;
      var left := rounds;
      while left > 0
        invariant Continues(total, removed, cells, left, size0, size1, wrap, scale, o, k)
      {
        var icells, next, error := RemoveCounted(total, removed, left, size0, size1, wrap, scale, o, k);
        if error.Some? {
          return Failure(error.value);
        }
        removed := removed + icells;
        k := next;
        left := left - 1;
      }
      RoundsDone(total, removed, cells, size0, size1, wrap, scale, o, k);
      result := Success(removed);
    }

    /** `remove_random_cells(cells, count, grid_size, wrap_amount, scale, seed)`:
        the flat copies of the removed cells, or the error that stopped it, in
        which case the list keeps the removes done before. */
    method RemoveRandomCells(count: int, size0: int, size1: int, wrap: int, scale: real, o: Rand.Oracle)
      returns (result: Result<seq<Cell>, CellError>)
      modifies this
      ensures var r := RemoveRounds(old(cells), Voronoi.Count(count), size0, size1, wrap, scale, o, 0);
        cells == r.cells &&
        result == if r.error.None? then Success(r.removed) else Failure(r.error.value)
    {
      ghost var total := RemoveRounds(cells, Voronoi.Count(count), size0, size1, wrap, scale, o, 0);
      PrefixedNothing(total);
      result := RunRounds(total, Voronoi.Count(count), size0, size1, wrap, scale, o);
    }
  }
}
