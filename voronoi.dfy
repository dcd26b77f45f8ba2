/** The lattice operations of grounds/voronoi/voronoi.py.

    The sites of a Voronoi graph are a list of 3D points that the generator
    builds as a regular grid, then jitters, lifts and extends by wrapping, in
    place (class `Lattice`). The cells computed from them are the subject of
    module Cells. */
module Voronoi {
  import opened Wrappers
  import opened Points
  import Rand

  /** The length of `range(n)`. */
  function Count(n: int): nat { if n < 0 then 0 else n }

  // ---------------------------------------------------------------------
  // grid

  /** `[(c + offset) * scale for c in range(0, n)]`. */
  function Axis(n: int, offset: real, scale: real): (r: seq<real>)
    ensures |r| == Count(n)
  {
    seq(Count(n), c => (c as real + offset) * scale)
  }

  /** `[Point3d(*p, 0) for p in itertools.product(xs, ys)]`: the first
      coordinate varies slowest. */
  function Product(xs: seq<real>, ys: seq<real>): seq<Point3> {
    if xs == [] then []
    else seq(|ys|, j requires 0 <= j < |ys| => P3(xs[0], ys[j], 0.0)) + Product(xs[1..], ys)
  }

  /** Entry (i, j) of a list laid out row by row with n entries per row, as
      `list[i*n + j]`; None where that index is out of range. */
  function Entry<T>(s: seq<T>, n: int, i: int, j: int): Option<T> {
    if 0 <= i * n + j < |s| then Some(s[i * n + j]) else None
  }

  lemma {:induction false} ProductSpec(xs: seq<real>, ys: seq<real>)
    ensures |Product(xs, ys)| == |xs| * |ys|
    ensures forall i, j :: 0 <= i < |xs| && 0 <= j < |ys| ==>
      Entry(Product(xs, ys), |ys|, i, j) == Some(P3(xs[i], ys[j], 0.0))
  {
    if xs != [] {
      var n := |ys|;
      var p := Product(xs, ys);
      var tail := Product(xs[1..], ys);
      ProductSpec(xs[1..], ys);
      assert |xs| * n == n + (|xs| - 1) * n;
      forall i, j | 0 <= i < |xs| && 0 <= j < n
        ensures Entry(p, n, i, j) == Some(P3(xs[i], ys[j], 0.0))
      {
        if i > 0 {
          assert i * n + j == n + ((i - 1) * n + j);
          assert Entry(tail, n, i - 1, j) == Some(P3(xs[1..][i - 1], ys[j], 0.0));
        }
      }
    }
  }

  /** `grid(size, offset, scale)`. */
  function Grid(size0: int, size1: int, offset0: real, offset1: real, scale: real): seq<Point3> {
    Product(Axis(size0, offset0, scale), Axis(size1, offset1, scale))
  }

  /** Grid point (xi, yi) before it is stored. */
  function GridPoint(xi: int, yi: int, offset0: real, offset1: real, scale: real): Point3 {
    P3((xi as real + offset0) * scale, (yi as real + offset1) * scale, 0.0)
  }

  /** The grid has size[0]·size[1] points, and entry xi·size[1] + yi is
      ((xi + offset[0])·scale, (yi + offset[1])·scale, 0). */
  lemma GridSpec(size0: int, size1: int, offset0: real, offset1: real, scale: real)
    ensures |Grid(size0, size1, offset0, offset1, scale)| == Count(size0) * Count(size1)
    ensures forall xi, yi :: 0 <= xi < Count(size0) && 0 <= yi < Count(size1) ==>
      Entry(Grid(size0, size1, offset0, offset1, scale), Count(size1), xi, yi) ==
        Some(GridPoint(xi, yi, offset0, offset1, scale))
  {
    var xs := Axis(size0, offset0, scale);
    var ys := Axis(size1, offset1, scale);
    var g := Grid(size0, size1, offset0, offset1, scale);
    assert g == Product(xs, ys);
    assert |g| == |xs| * |ys| by {
      ProductSpec(xs, ys);
    }
    forall xi, yi | 0 <= xi < |xs| && 0 <= yi < |ys|
      ensures Entry(g, |ys|, xi, yi) == Some(GridPoint(xi, yi, offset0, offset1, scale))
    {
      ProductAt(xs, ys, xi, yi);
      AxisAt(size0, offset0, scale, xi);
      AxisAt(size1, offset1, scale, yi);
    }
  }

  /** Coordinate c of an axis. */
  lemma AxisAt(n: int, offset: real, scale: real, c: nat)
    requires c < Count(n)
    ensures Axis(n, offset, scale)[c] == (c as real + offset) * scale
  {
  }

  /** One entry of a product. */
  lemma ProductAt(xs: seq<real>, ys: seq<real>, i: nat, j: nat)
    requires i < |xs| && j < |ys|
    ensures Entry(Product(xs, ys), |ys|, i, j) == Some(P3(xs[i], ys[j], 0.0))
  {
    ProductSpec(xs, ys);
  }

  /** A product has one point per pair. */
  lemma {:induction false} ProductLength(xs: seq<real>, ys: seq<real>)
    ensures |Product(xs, ys)| == |xs| * |ys|
  {
    if xs != [] {
      ProductLength(xs[1..], ys);
      assert |xs| * |ys| == |ys| + (|xs| - 1) * |ys|;
    }
  }

  /** `grid((2, 2))`: the four corners, the first coordinate varying
      slowest. */
  lemma GridExample()
    ensures Grid(2, 2, 0.0, 0.0, 1.0) == [P3(0.0, 0.0, 0.0), P3(0.0, 1.0, 0.0), P3(1.0, 0.0, 0.0), P3(1.0, 1.0, 0.0)]
  {
    var xs := Axis(2, 0.0, 1.0);
    assert xs == [0.0, 1.0];
    assert Product(xs[1..], xs) == [P3(1.0, 0.0, 0.0), P3(1.0, 1.0, 0.0)] by {
      assert xs[1..][1..] == [];
    }
  }

  /** `len(grid((24, 24))) == 576`. */
  lemma GridSizeExample()
    ensures |Grid(24, 24, 0.0, 0.0, 1.0)| == 576
  {
    ProductLength(Axis(24, 0.0, 1.0), Axis(24, 0.0, 1.0));
  }

  // ---------------------------------------------------------------------
  // random_2d

  /** `(random.random() - 0.5) * scale` for the draw at position k. */
  function Jitter(o: Rand.Oracle, k: nat, scale: real): real {
    (Rand.RandomAt(o, k) - 0.5) * scale
  }

  /** The points `random_2d((n, 1), scale)` builds after reseeding: point i
      takes draws 2i and 2i + 1. */
  function Noise(n: int, scale: real, o: Rand.Oracle): (r: seq<Point>)
    ensures |r| == Count(n)
  {
    seq(Count(n), i requires 0 <= i < Count(n) => P2(Jitter(o, 2 * i, scale), Jitter(o, 2 * i + 1, scale)))
  }

  lemma JitterBounds(o: Rand.Oracle, k: nat, scale: real)
    requires scale > 0.0
    ensures -scale / 2.0 <= Jitter(o, k, scale) < scale / 2.0
  {
    var u := Rand.RandomAt(o, k) - 0.5;
    var j := u * scale;
    var above := (0.5 - u) * scale;
    MulPositive(0.5 - u, scale, above);
    assert above == 0.5 * scale - j;
    if u > -0.5 {
      var below := (u + 0.5) * scale;
      MulPositive(u + 0.5, scale, below);
      assert below == j + 0.5 * scale;
    }
  }

  /** Every coordinate `random_2d` yields lies in [-scale/2, scale/2). */
  lemma NoiseBounds(n: int, scale: real, o: Rand.Oracle)
    requires scale > 0.0
    ensures forall i :: 0 <= i < Count(n) ==>
      Noise(n, scale, o)[i].kind == Point2d &&
      -scale / 2.0 <= X(Noise(n, scale, o)[i]) < scale / 2.0 &&
      -scale / 2.0 <= Y(Noise(n, scale, o)[i]) < scale / 2.0
  {
    forall i | 0 <= i < Count(n)
      ensures -scale / 2.0 <= Jitter(o, 2 * i, scale) < scale / 2.0
      ensures -scale / 2.0 <= Jitter(o, 2 * i + 1, scale) < scale / 2.0
    {
      JitterBounds(o, 2 * i, scale);
      JitterBounds(o, 2 * i + 1, scale);
    }
  }

  /** `random_2d(size, scale)`: size[0]·size[1] jitter vectors, drawn right
      after reseeding. */
  method Random2d(size0: int, size1: int, scale: real, o: Rand.Oracle) returns (points: seq<Point>)
    ensures points == Noise(size0 * size1, scale, o)
  {
    var n := Count(size0 * size1);
    points := [];
    var p := 0;
    while p < n
      invariant 0 <= p <= n
      invariant points == Noise(size0 * size1, scale, o)[..p]
    {
      var x := (Rand.RandomAt(o, 2 * p) - 0.5) * scale;
      var y := (Rand.RandomAt(o, 2 * p + 1) - 0.5) * scale;
      points := points + [P2(x, y)];
      p := p + 1;
    }
  }

  // ---------------------------------------------------------------------
  // Site lists changed in place

  /** `grid[i] = p + distortion[i]` for each site, up to the first site
      without a distortion vector. */
  function Distorted(sites: seq<Point3>, noise: seq<Point>): (r: seq<Point3>)
    requires forall i :: 0 <= i < |noise| ==> noise[i].kind == Point2d
    ensures |r| == |sites|
  {
    seq(|sites|, i requires 0 <= i < |sites| =>
      if i < |noise| then Shift(sites[i], noise[i].coords) else sites[i])
  }

  /** `p + v` on a site, for a vector no longer than 3. */
  function Shift(p: Point3, v: seq<real>): (r: Point3)
    requires |v| <= 3
    ensures r == Plus(p, v)
  {
    Plus(p, v)
  }

  /** `grid[i] = p + Point3d(z=random.random() * scale)`. */
  function ZDisplaced(sites: seq<Point3>, scale: real, o: Rand.Oracle): (r: seq<Point3>)
    ensures |r| == |sites|
  {
    var heights := Heights(|sites|, scale, o);
    seq(|sites|, i requires 0 <= i < |sites| => Lift(sites[i], heights[i]))
  }

  /** `random.random() * scale` for the first n draws. */
  function Heights(n: nat, scale: real, o: Rand.Oracle): (r: seq<real>)
    ensures |r| == n
  {
    seq(n, i requires 0 <= i < n => Rand.RandomAt(o, i) * scale)
  }

  /** `p + Point3d(z=dz)`, written out on the coordinates. */
  function Lift(p: Point3, dz: real): (r: Point3)
    ensures X(r) == X(p) && Y(r) == Y(p) && Z(r) == Z(p) + dz
  {
    P3(X(p), Y(p), Z(p) + dz)
  }

  /** Lift is the point addition of `Point3d(z=dz)`. */
  lemma LiftIsAddition(p: Point3, dz: real)
    ensures Lift(p, dz) == Plus(p, [0.0, 0.0, dz])
  {
    var q := Plus(p, [0.0, 0.0, dz]);
    assert q.coords == [X(p), Y(p), Z(p) + dz];
  }

  /** A distorted site moves by less than `scale` in x and in y, and, since a
      3D point plus a 2D vector rebuilds its z from the default, lands at
      z = 0. */
  lemma DistortedMoves(sites: seq<Point3>, size0: int, size1: int, scale: real, o: Rand.Oracle)
    requires scale > 0.0
    ensures var r := Distorted(sites, Noise(size0 * size1, scale * 2.0, o));
      forall i :: 0 <= i < |sites| && i < Count(size0 * size1) ==>
        -scale <= X(r[i]) - X(sites[i]) < scale &&
        -scale <= Y(r[i]) - Y(sites[i]) < scale &&
        Z(r[i]) == 0.0
  {
    NoiseBounds(size0 * size1, scale * 2.0, o);
  }

  /** z-displacement keeps x and y and raises z by a value in [0, scale). */
  lemma ZDisplacedMoves(sites: seq<Point3>, scale: real, o: Rand.Oracle)
    requires scale > 0.0
    ensures var r := ZDisplaced(sites, scale, o);
      forall i :: 0 <= i < |sites| ==>
        X(r[i]) == X(sites[i]) && Y(r[i]) == Y(sites[i]) &&
        Z(sites[i]) <= Z(r[i]) < Z(sites[i]) + scale
  {
    var r := ZDisplaced(sites, scale, o);
    forall i | 0 <= i < |sites|
      ensures X(r[i]) == X(sites[i]) && Y(r[i]) == Y(sites[i])
      ensures Z(sites[i]) <= Z(r[i]) < Z(sites[i]) + scale
    {
      var u := Rand.RandomAt(o, i);
      var up := u * scale;
      assert r[i] == Lift(sites[i], Heights(|sites|, scale, o)[i]);
      var rest := (1.0 - u) * scale;
      MulPositive(1.0 - u, scale, rest);
      assert rest == scale - up;
      if u > 0.0 {
        MulPositive(u, scale, up);
      }
    }
  }

  /** x·size1 + y addresses the original grid for x < rows and y < size1. */
  lemma GridIndex(x: nat, y: nat, rows: nat, size1: nat)
    requires x < rows && y < size1
    ensures x * size1 + y < rows * size1
  {
    assert x * size1 <= (rows - 1) * size1;
  }

  lemma MulMonotone(a: nat, b: nat, c: nat)
    requires a <= b
    ensures a * c <= b * c
  {
  }

  /** Row y of a wrap block: the points `grid[x*size1 + y] + shift` for x in
      range(cols). */
  function WrapRow(sites: seq<Point3>, y: nat, cols: nat, size1: nat, shift: seq<real>): (r: seq<Point3>)
    requires y < size1 && cols * size1 <= |sites| && |shift| == 3
    ensures |r| == cols
  {
    if cols == 0 then []
    else
      MulMonotone(cols - 1, cols, size1);
      GridIndex(cols - 1, y, cols, size1);
      WrapRow(sites, y, cols - 1, size1, shift) + [Shift(sites[(cols - 1) * size1 + y], shift)]
  }

  /** One of the three nested loops of `wrap`: for y in range(rows), for x in
      range(cols), append `grid[x*size1 + y] + shift`. */
  function WrapBlock(sites: seq<Point3>, rows: nat, cols: nat, size1: nat, shift: seq<real>): (r: seq<Point3>)
    requires rows <= size1 && cols * size1 <= |sites| && |shift| == 3
  {
    if rows == 0 then []
    else WrapBlock(sites, rows - 1, cols, size1, shift) + WrapRow(sites, rows - 1, cols, size1, shift)
  }

  /** `Entry(sites, size1, x, y) + shift`. */
  function ShiftedEntry(sites: seq<Point3>, size1: nat, x: int, y: int, shift: seq<real>): Option<Point3>
    requires |shift| == 3
  {
    match Entry(sites, size1, x, y)
    case Some(p) => Some(Shift(p, shift))
    case None => None
  }

  lemma {:induction false} WrapRowSpec(sites: seq<Point3>, y: nat, cols: nat, size1: nat, shift: seq<real>)
    requires y < size1 && cols * size1 <= |sites| && |shift| == 3
    ensures forall x :: 0 <= x < cols ==>
      ShiftedEntry(sites, size1, x, y, shift) == Some(WrapRow(sites, y, cols, size1, shift)[x])
  {
    if cols > 0 {
      MulMonotone(cols - 1, cols, size1);
      WrapRowSpec(sites, y, cols - 1, size1, shift);
      GridIndex(cols - 1, y, cols, size1);
    }
  }

  /** A block holds rows·cols points, and its entry y·cols + x is grid point
      x·size1 + y moved by the shift. */
  lemma WrapBlockSpec(sites: seq<Point3>, rows: nat, cols: nat, size1: nat, shift: seq<real>)
    requires rows <= size1 && cols * size1 <= |sites| && |shift| == 3
    ensures |WrapBlock(sites, rows, cols, size1, shift)| == rows * cols
    ensures forall y, x :: 0 <= y < rows && 0 <= x < cols ==>
      Entry(WrapBlock(sites, rows, cols, size1, shift), cols, y, x) == ShiftedEntry(sites, size1, x, y, shift)
  {
    WrapBlockLength(sites, rows, cols, size1, shift);
    forall y, x | 0 <= y < rows && 0 <= x < cols
      ensures Entry(WrapBlock(sites, rows, cols, size1, shift), cols, y, x) == ShiftedEntry(sites, size1, x, y, shift)
    {
      WrapBlockAt(sites, rows, cols, size1, shift, y, x);
    }
  }

  lemma {:induction false} WrapBlockLength(sites: seq<Point3>, rows: nat, cols: nat, size1: nat, shift: seq<real>)
    requires rows <= size1 && cols * size1 <= |sites| && |shift| == 3
    ensures |WrapBlock(sites, rows, cols, size1, shift)| == rows * cols
  {
    if rows > 0 {
      WrapBlockLength(sites, rows - 1, cols, size1, shift);
      assert rows * cols == (rows - 1) * cols + cols;
    }
  }

  lemma {:induction false} WrapBlockAt(sites: seq<Point3>, rows: nat, cols: nat, size1: nat, shift: seq<real>, y: nat, x: nat)
    requires rows <= size1 && cols * size1 <= |sites| && |shift| == 3 && y < rows && x < cols
    ensures Entry(WrapBlock(sites, rows, cols, size1, shift), cols, y, x) == ShiftedEntry(sites, size1, x, y, shift)
  {
    var r := rows - 1;
    var prev := WrapBlock(sites, r, cols, size1, shift);
    var row := WrapRow(sites, r, cols, size1, shift);
    WrapBlockLength(sites, r, cols, size1, shift);
    assert WrapBlock(sites, rows, cols, size1, shift) == prev + row;
    if y < r {
      EntryBefore(prev, row, r, cols, y, x);
      WrapBlockAt(sites, r, cols, size1, shift, y, x);
    } else {
      assert y == r;
      WrapRowAt(sites, r, cols, size1, shift, x);
      EntryLastRow(prev, row, r, cols, x);
    }
  }

  lemma WrapRowAt(sites: seq<Point3>, y: nat, cols: nat, size1: nat, shift: seq<real>, x: nat)
    requires y < size1 && cols * size1 <= |sites| && |shift| == 3 && x < cols
    ensures ShiftedEntry(sites, size1, x, y, shift) == Some(WrapRow(sites, y, cols, size1, shift)[x])
  {
    WrapRowSpec(sites, y, cols, size1, shift);
  }

  /** The points `wrap` appends, block after block. */
  function WrapBlocks(sites: seq<Point3>, size0: nat, size1: nat, amount: nat, scale: real): seq<Point3>
    requires amount <= size0 && amount <= size1 && size0 * size1 <= |sites|
  {
    MulMonotone(amount, size0, size1);
    WrapBlock(sites, size1, amount, size1, [size0 as real * scale, 0.0, 0.0]) +
    WrapBlock(sites, amount, size0, size1, [0.0, size1 as real * scale, 0.0]) +
    WrapBlock(sites, amount, amount, size1, [size0 as real * scale, size1 as real * scale, 0.0])
  }

  /** `wrap` appends amount·size[1] + amount·size[0] + amount² points: for
      each row y < size[1] the points x < amount of it shifted by one grid
      extent in x, then for y < amount the points x < size[0] shifted in y,
      then for y, x < amount the points shifted in both. */
  lemma WrapBlocksSpec(sites: seq<Point3>, size0: nat, size1: nat, amount: nat, scale: real)
    requires amount <= size0 && amount <= size1 && size0 * size1 <= |sites|
    ensures var w := WrapBlocks(sites, size0, size1, amount, scale);
      var n1 := size1 * amount;
      var n2 := amount * size0;
      var shiftX := [size0 as real * scale, 0.0, 0.0];
      var shiftY := [0.0, size1 as real * scale, 0.0];
      var shiftXY := [size0 as real * scale, size1 as real * scale, 0.0];
      0 <= n1 && 0 <= n2 && |w| == n1 + n2 + amount * amount && n1 <= n1 + n2 <= |w| &&
      (forall y, x :: 0 <= y < size1 && 0 <= x < amount ==>
        Entry(w, amount, y, x) == ShiftedEntry(sites, size1, x, y, shiftX)) &&
      (forall y, x :: 0 <= y < amount && 0 <= x < size0 ==>
        Entry(w[n1..], size0, y, x) == ShiftedEntry(sites, size1, x, y, shiftY)) &&
      (forall y, x :: 0 <= y < amount && 0 <= x < amount ==>
        Entry(w[n1 + n2..], amount, y, x) == ShiftedEntry(sites, size1, x, y, shiftXY))
  {
    MulMonotone(amount, size0, size1);
    var shiftX := [size0 as real * scale, 0.0, 0.0];
    var shiftY := [0.0, size1 as real * scale, 0.0];
    var shiftXY := [size0 as real * scale, size1 as real * scale, 0.0];
    var b1 := WrapBlock(sites, size1, amount, size1, shiftX);
    var b2 := WrapBlock(sites, amount, size0, size1, shiftY);
    var b3 := WrapBlock(sites, amount, amount, size1, shiftXY);
    WrapBlockSpec(sites, size1, amount, size1, shiftX);
    WrapBlockSpec(sites, amount, size0, size1, shiftY);
    WrapBlockSpec(sites, amount, amount, size1, shiftXY);
    var w := b1 + b2 + b3;
    assert w == b1 + (b2 + b3);
    assert w[|b1|..] == b2 + b3;
    assert w[|b1| + |b2|..] == b3;
    EntryPrefix(b1, b2 + b3, size1, amount);
    EntryPrefix(b2, b3, amount, size0);
  }

  /** Row y of a block grows by grid point x·size1 + y. */
  lemma WrapRowStep(sites: seq<Point3>, y: nat, x: nat, cols: nat, size1: nat, shift: seq<real>)
    requires y < size1 && x < cols && cols * size1 <= |sites| && |shift| == 3
    ensures x * size1 + y < |sites| && (x + 1) * size1 <= cols * size1
    ensures WrapRow(sites, y, x + 1, size1, shift) ==
      WrapRow(sites, y, x, size1, shift) + [Shift(sites[x * size1 + y], shift)]
  {
    GridIndex(x, y, cols, size1);
    MulMonotone(x + 1, cols, size1);
  }

  /** A prefix stays a prefix when the list grows. */
  lemma PrefixGrows<T>(a: seq<T>, b: seq<T>, c: seq<T>)
    requires a <= b && b <= c
    ensures a <= c
  {
  }

  /** A prefix one longer is the prefix and the next element. */
  lemma TakeOneMore<T>(s: seq<T>, i: nat)
    requires i < |s|
    ensures s[..i + 1] == s[..i] + [s[i]]
  {
  }

  lemma Concat3<T>(a: seq<T>, b: seq<T>, c: seq<T>)
    ensures a + b + c == a + (b + c)
  {
  }

  lemma Concat4<T>(a: seq<T>, b: seq<T>, c: seq<T>, d: seq<T>)
    ensures a + b + c + d == a + (b + c + d)
  {
  }

  /** Appending a row keeps the entries of the rows before it. */
  lemma EntryBefore<T>(a: seq<T>, row: seq<T>, rows: nat, cols: nat, y: nat, x: nat)
    requires |a| == rows * cols && y < rows && x < cols
    ensures Entry(a + row, cols, y, x) == Entry(a, cols, y, x)
  {
    GridIndex(y, x, rows, cols);
  }

  /** The appended row is the last row. */
  lemma EntryLastRow<T>(a: seq<T>, row: seq<T>, rows: nat, cols: nat, x: nat)
    requires |a| == rows * cols && |row| == cols && x < cols
    ensures Entry(a + row, cols, rows, x) == Some(row[x])
  {
    assert rows * cols + x == |a| + x;
  }

  /** Entries of a prefix holding whole rows are unaffected by what follows. */
  lemma EntryPrefix<T>(a: seq<T>, b: seq<T>, rows: nat, cols: nat)
    requires |a| == rows * cols
    ensures forall y, x :: 0 <= y < rows && 0 <= x < cols ==> Entry(a + b, cols, y, x) == Entry(a, cols, y, x)
  {
    forall y, x | 0 <= y < rows && 0 <= x < cols
      ensures Entry(a + b, cols, y, x) == Entry(a, cols, y, x)
    {
      GridIndex(y, x, rows, cols);
    }
  }

  class Lattice {
    /** The list of sites the grid functions change in place. */
    var sites: seq<Point3>

    constructor(initial: seq<Point3>)
      ensures sites == initial
    {
      sites := initial;
    }

    /** `distort(grid, size, scale)`: adds `random_2d(size, 2·scale)` to the
        sites in order. With more sites than vectors it raises IndexError
        after updating the sites that had one. */
    method Distort(size0: int, size1: int, scale: real, o: Rand.Oracle) returns (error: Option<OperatorError>)
      modifies this
      ensures error.None? <==> |old(sites)| <= Count(size0 * size1)
      ensures error.Some? ==> error.value == IndexError
      ensures sites == Distorted(old(sites), Noise(size0 * size1, scale * 2.0, o))
    {
      var distortion := Random2d(size0, size1, scale * 2.0, o);
      ghost var noise := Noise(size0 * size1, scale * 2.0, o);
      ghost var before := sites;
      var i := 0;
      while i < |sites|
        invariant 0 <= i <= |sites| == |before|
        invariant i <= |distortion| == |noise|
        invariant forall j :: i <= j < |sites| ==> sites[j] == before[j]
        invariant forall j :: 0 <= j < i ==> sites[j] == Distorted(before, noise)[j]
      {
        if i >= |distortion| {
          error := Some(IndexError);
          assert sites == Distorted(before, noise);
          return;
        }
        sites := sites[i := Shift(sites[i], distortion[i].coords)];
        i := i + 1;
      }
      error := None;
    }

    /** `z_displace(grid, scale)`: raises the z of site i by draw i, scaled. */
    method ZDisplace(scale: real, o: Rand.Oracle)
      modifies this
      ensures sites == ZDisplaced(old(sites), scale, o)
    {
      ghost var before := sites;
      var i := 0;
      while i < |sites|
        invariant 0 <= i <= |sites| == |before|
        invariant forall j :: i <= j < |sites| ==> sites[j] == before[j]
        invariant forall j :: 0 <= j < i ==> sites[j] == ZDisplaced(before, scale, o)[j]
      {
        var h := Rand.RandomAt(o, i) * scale;
        assert Heights(|before|, scale, o)[i] == h;
        assert ZDisplaced(before, scale, o)[i] == Lift(before[i], h);
        sites := sites[i := Lift(sites[i], h)];
        i := i + 1;
      }
    }

    /** `wrap(grid, size, amount, scale)`: appends the three blocks of
        translated copies and returns the same list. The renderer only calls
        it with amount at most the grid size, on a full grid. */
    method Wrap(size0: nat, size1: nat, amount: nat, scale: real) returns (r: seq<Point3>)
      requires amount <= size0 && amount <= size1 && size0 * size1 <= |sites|
      modifies this
      ensures sites == old(sites) + WrapBlocks(old(sites), size0, size1, amount, scale)
      ensures r == sites
    {
      MulMonotone(amount, size0, size1);
      assert amount * size1 <= |sites|;
      var shiftX := [size0 as real * scale, 0.0, 0.0];
      var shiftY := [0.0, size1 as real * scale, 0.0];
      var shiftXY := [size0 as real * scale, size1 as real * scale, 0.0];
      ghost var grid := sites;
      ghost var b1 := WrapBlock(grid, size1, amount, size1, shiftX);
      ghost var b2 := WrapBlock(grid, amount, size0, size1, shiftY);
      ghost var b3 := WrapBlock(grid, amount, amount, size1, shiftXY);
      AppendBlock(grid, size1, amount, size1, shiftX);
      ghost var s1 := sites;
      AppendBlock(grid, amount, size0, size1, shiftY);
      ghost var s2 := sites;
      AppendBlock(grid, amount, amount, size1, shiftXY);
      Concat4(grid, b1, b2, b3);
      assert sites == s2 + b3 && s2 == s1 + b2 && s1 == grid + b1;
      assert WrapBlocks(grid, size0, size1, amount, scale) == b1 + b2 + b3;
      r := sites;
    }

    /** One nested loop of `wrap`, reading the grid points from the prefix
        `grid` of the list. */
    method AppendBlock(ghost grid: seq<Point3>, rows: nat, cols: nat, size1: nat, shift: seq<real>)
      requires rows <= size1 && cols * size1 <= |grid| && |shift| == 3
      requires grid <= sites
      modifies this
      ensures sites == old(sites) + WrapBlock(grid, rows, cols, size1, shift)
      ensures grid <= sites
    {
      var y := 0;
      while y < rows
        invariant 0 <= y <= rows
        invariant sites == old(sites) + WrapBlock(grid, y, cols, size1, shift)
        invariant grid <= sites
      {
        ghost var prev := sites;
        AppendRow(grid, y, cols, size1, shift);
        PrefixGrows(grid, prev, sites);
        Concat3(old(sites), WrapBlock(grid, y, cols, size1, shift), WrapRow(grid, y, cols, size1, shift));
        y := y + 1;
      }
    }

    /** The inner loop of one block: appends row y of it. */
    method AppendRow(ghost before: seq<Point3>, y: nat, cols: nat, size1: nat, shift: seq<real>)
      requires y < size1 && cols * size1 <= |before| && |shift| == 3
      requires before <= sites
      modifies this
      ensures sites == old(sites) + WrapRow(before, y, cols, size1, shift)
    {
      var x := 0;
      while x < cols
        invariant 0 <= x <= cols
        invariant x * size1 <= cols * size1
        invariant sites == old(sites) + WrapRow(before, y, x, size1, shift)
      {
        AppendShifted(old(sites), before, y, x, cols, size1, shift);
        x := x + 1;
      }
    }

    /** One iteration of the inner loop: appends `grid[x*size1 + y] + shift`. */
    method AppendShifted(ghost start: seq<Point3>, ghost before: seq<Point3>, y: nat, x: nat, cols: nat, size1: nat, shift: seq<real>)
      requires y < size1 && x < cols && cols * size1 <= |before| && |shift| == 3
      requires before <= sites && sites == start + WrapRow(before, y, x, size1, shift)
      modifies this
      ensures (x + 1) * size1 <= cols * size1
      ensures sites == start + WrapRow(before, y, x + 1, size1, shift)
    {
      WrapRowStep(before, y, x, cols, size1, shift);
      var p := sites[x * size1 + y];
      assert p == before[x * size1 + y];
      ghost var row := WrapRow(before, y, x, size1, shift);
      sites := sites + [Shift(p, shift)];
      assert sites == start + (row + [Shift(p, shift)]);
    }
  }
}
