# road-image-gen ground textures, modelled in Dafny

road-image-gen builds synthetic road images. This project models the part
that makes the ground textures:

- **Points.** The fixed-arity point and colour classes of `util/point.py`
  (module `Points`):
  - construction from positional and keyword arguments;
  - indexing by position and by name;
  - the component-wise arithmetic and comparison operators;
  - swizzles;
  - the squared distance;
  - the number and colour coercions `_number` and `_color`.
- **The Voronoi lattice.** From `grounds/voronoi/voronoi.py`, module
  `Voronoi` models the list of sites. The grid is built with `grid`, jittered
  with `random_2d` and `distort`, lifted with `z_displace` and extended by
  `wrap`. The class `Lattice` holds the list those functions change in place.
- **The Voronoi cells.** Also from `grounds/voronoi/voronoi.py`, module
  `Cells` models a cell list, through the class `CellList` and its function
  counterparts:
  - the cell record;
  - `offset`, `slant_random` and `slant_polygon`;
  - the visibility and wrapped-counterpart tests;
  - `remove_random_cells` with its retry loop;
  - `apply_random_texture`.
- **The SVG serialiser.** From `grounds/voronoi/svg.py`, module `Svg` models:
  - the grey `_offset_color` gives a height;
  - the image size in pixels;
  - the height bounds of a cell and its two-stop gradient;
  - the `<path>` of one polygon;
  - the whole document `svg_voronoi` assembles.
- **The asphalt generator.** From `grounds/asphalt.py`, module `Asphalt`
  models:
  - the integer ramp and the colour list;
  - the noise palettes;
  - the eight compass directions;
  - the random quads;
  - the depth profile and the width profile of a crack;
  - the crack walker `draw_crack` and `generate_cracks`, which draws cracks
    and their branches.

  The class `Surface` stands for the three images. It records, in order,
  every call of `dynamic_width_crack`, and `StrokeStamp` gives what each call
  draws.
- **The command line.** From `image_generator.py`, module `ImageGenerator`
  models the value parsers `uint` and `parse_resolution`, and the
  `ground_textures` dispatch from a ground type to its generator.

Support modules:

- `Wrappers` holds `Option` and `Result`. A raised exception becomes a
  `Failure` carrying the error.
- `Rand` models Python's `random` as an oracle.
  - An `Oracle` is the stream of raw draws that follow a seeding. The k-th
    random call reads entry k.
  - Functions that reseed start at draw 0. The others take the next draw
    position and return the one after their last draw.
- `Numerals` models the builtins the core relies on:
  - `round` (half to even) and `int` on a float (truncation);
  - `str` and `int` between integers and decimal text;
  - `str.split` on a single character.
- `Trig` passes `math.cos` and `math.sin` as parameters. Every angle in the
  core is a multiple of 2π, so angles are measured in turns. `Trig.Valid`
  states the facts the proofs use.

Python numbers are modelled as `real`, so float rounding errors are not
represented.

## Model

| member | source | states |
|---|---|---|
| Points.Number | util/point.py:180-189 | `_number` keeps the value and yields an int exactly when the value is integral |
| Points.NumberIdempotent | util/point.py:180-189 | coercing an already coerced component changes nothing |
| Points.Fill | util/point.py:82-88 | the constructor gives every component exactly one value, whatever the arguments |
| Points.New | util/point.py:82-88 | a constructed point has the class it was built with and one value per component |
| Points.NewPositional | util/point.py:82-88 | positional construction: component i is argument i, or 0 past the last argument; surplus arguments are ignored |
| Points.NewKeywords | util/point.py:82-88 | keyword construction such as `Point3d(z=h)`: each named component takes its keyword, every other one is 0 |
| Points.GetItemSpec | util/point.py:90-95 | indexing succeeds exactly for a position in range(arity) or a component name, and position i and name i give the same value |
| Points.Contains | util/point.py:140 | `name in p` holds exactly when indexing by that name succeeds |
| Points.Len | util/point.py:139 | `len(p)` is the number of components of the point's class |
| Points.ZipSpec | util/point.py:97-114 | the operator comprehension fails with IndexError exactly when the operand is longer than the point, or a component fails; otherwise entry i is `p[i] op v[i]` |
| Points.BinarySequence | util/point.py:97-114 | `p op v` keeps p's class, has `p[i] op v[i]` below len(v) and 0 above it, and raises IndexError for an operand longer than the point |
| Points.BinaryScalar | util/point.py:97-114 | a scalar operand, through the TypeError fallback, is applied to every component, and only a division by zero fails |
| Points.Plus | util/point.py:97-99 | adding an operand no longer than the point cannot fail: component i is the sum below len(v) and 0 above, in p's class |
| Points.AddExample | util/point.py:12-14 | `Point2d(4, 1) + Point2d(6, -5) == Point2d(10, -4)` |
| Points.MulExample | util/point.py:15-16 | `Point2d(6, -5) * (2, 0.3) == Point2d(12, -1.5)` |
| Points.AddShorterZeroes | util/point.py:97-99 | a 3D point plus a 2D point keeps the 3D class, adds x and y, and has z rebuilt as 0 |
| Points.Negate | util/point.py:115 | `-p` has p's class and every component negated |
| Points.NegateIsScaling | util/point.py:103-115 | `-p` equals `p * -1`, and negating twice gives p back |
| Points.Positive | util/point.py:116 | `+p` is p itself |
| Points.Absolute | util/point.py:118 | `abs(p)` has p's class and the absolute value of every component |
| Points.AbsoluteProperties | util/point.py:115-118 | `abs` is idempotent, ignores negation, and leaves no negative component |
| Points.Rounded | util/point.py:119 | `round(p)` rounds every component to the nearest integer, ties to even |
| Points.RoundedProperties | util/point.py:119 | rounding moves each component by at most one half to an integral value, and rounding twice is rounding once |
| Points.CompareSpec | util/point.py:123-137 | a comparison yields one boolean per entry of a sequence operand, or per component for a scalar, and fails only when the sequence is longer than the point |
| Points.CompareExample | util/point.py:47-48 | `Point3d(1, 4, -3) > 0 == (True, True, False)` |
| Points.SwizzleTargetSpec | util/point.py:161-215 | every class has swizzles of each length from 2 to its arity, and a swizzle of length n builds a class of arity n |
| Points.Swizzle | util/point.py:161-175 | `p.<attr>` exists exactly when attr is 2 to arity component names, and entry j is the component attr[j] |
| Points.SwizzleExample | util/point.py:22-25 | `Point3d(1, 4, -3).zy == Point2d(-3, 4)` |
| Points.SwizzleExample4 | util/point.py:22-25 | `Point4d(7, -9, 8, 7.4).wzxy == Point4d(7.4, 8, 7, -9)` |
| Points.SquaredDistance | util/point.py:154-156 | the sum under the root of `distance` exists exactly when the operand has at least the point's arity, and it is non-negative |
| Points.SquaredVeclen | util/point.py:157-159 | the sum under the root of `veclen` is non-negative, and zero exactly for the all-zero point |
| Points.DistanceSymmetric | util/point.py:154-156 | between two points of one class the distance is symmetric, and zero exactly when they are equal |
| Points.ColorValueSpec | util/point.py:220-234 | `_color` accepts exactly the non-negative integral values and the values in [0, 1], keeps the value, and raises the negative error and the out-of-range error in exactly their cases |
| Points.ColorValueIdempotent | util/point.py:220-234 | re-coercing an accepted channel gives the same channel |
| Points.ColorSwizzle | util/point.py:240-243 | a colour swizzle exists exactly for three channel names and picks those channels in order |
| Points.ColorExamples | util/point.py:54-69 | `ColorRgb(255, 10, 100).gbr == ColorRgb(10, 100, 255)`, and 2.3 and -200 are rejected with their errors |
| Points.NewColorRgbValid | util/point.py:82-88 | a constructed ColorRgb has every channel as `_color` leaves it, holding the values given in order |
| Points.ColorBinaryIsPointBinary | util/point.py:97-114 | an arithmetic operator on a colour is the operator of a three-component point on its channel values, followed by `_color` on each result as `type(self)(...)` rebuilds it |
| Points.ColorBinaryScalar | util/point.py:97-114 | with a scalar, a colour operator succeeds exactly when every channel's arithmetic succeeds and `_color` accepts every result, which the new channels then hold |
| Points.ColorArithmeticExamples | util/point.py:97-114 | `ColorRgb(1, 1, 1) - 2` and `ColorRgb(0.5, 0, 0) * 3` raise ValueError, and `ColorRgb(10, 20, 30) + 5 == ColorRgb(15, 25, 35)` |
| Points.SameChannels | util/point.py:82-88 | the constructor depends only on the channels its arguments fill |
| Points.ColorNegateSpec | util/point.py:115 | `-c` of a valid colour succeeds exactly for black, which it leaves as it is; any other colour raises ValueError |
| Points.ColorAbsoluteRounded | util/point.py:118-119 | `abs(c)` returns a valid colour unchanged, and `round(c)` gives a valid colour of int channels, each within one half of the old value |
| Points.ColorGetItemSpec | util/point.py:90-95 | `c[index]` accepts exactly the positions 0 to 2 and the names r, g and b; position and name agree and read the channel's value |
| Points.ColorCompare | util/point.py:123-137 | the comparisons of a colour are those of the three-component point of its channel values |
| Numerals.RoundHalfEven | util/point.py:119 | Python's `round` lies within one half of x and breaks ties towards the even integer |
| Numerals.RoundMonotone | util/point.py:119 | `round` is monotone |
| Numerals.IntToStrRoundTrip | image_generator.py:159-162 | `int(str(n)) == n` for every integer |
| Numerals.ParseIntAccepts | image_generator.py:159-162 | the `int` conversion accepts exactly an optional sign followed by one or more digits |
| Numerals.SplitJoin | image_generator.py:178 | joining the pieces of `split` with the separator gives the text back |
| Voronoi.Axis | grounds/voronoi/voronoi.py:53-57 | each axis of the grid has one coordinate per index of `range(n)` |
| Voronoi.ProductSpec | grounds/voronoi/voronoi.py:53-57 | `itertools.product` of the axes yields every pair once, the first coordinate varying slowest, at z = 0 |
| Voronoi.GridSpec | grounds/voronoi/voronoi.py:36-57 | `grid` has size[0]·size[1] points, and point xi·size[1] + yi is ((xi + offset[0])·scale, (yi + offset[1])·scale, 0) |
| Voronoi.GridExample | grounds/voronoi/voronoi.py:45-46 | `grid((2, 2))` is the four corners, in order |
| Voronoi.GridSizeExample | grounds/voronoi/voronoi.py:50-51 | `grid((24, 24))` has 576 points |
| Voronoi.ProductLength | grounds/voronoi/voronoi.py:53-57 | the product has one point per pair of coordinates |
| Voronoi.Noise | grounds/voronoi/voronoi.py:67-71 | `random_2d` yields one vector per requested point |
| Voronoi.NoiseBounds | grounds/voronoi/voronoi.py:67-71 | every coordinate `random_2d` yields lies in [-scale/2, scale/2) |
| Voronoi.Random2d | grounds/voronoi/voronoi.py:60-71 | the method's loop builds size[0]·size[1] vectors, vector i from draws 2i and 2i + 1 after reseeding |
| Voronoi.DistortedMoves | grounds/voronoi/voronoi.py:74-86 | a distorted site moves by less than the scale in x and in y, and its z becomes 0 because a 3D point plus a 2D vector rebuilds z from the default |
| Voronoi.Lattice.Distort | grounds/voronoi/voronoi.py:74-86 | adds the vectors to the sites in order, and raises IndexError exactly when there are more sites than vectors, after updating those that had one |
| Voronoi.LiftIsAddition | grounds/voronoi/voronoi.py:100-101 | lifting a site is the point addition of `Point3d(z=dz)` |
| Voronoi.ZDisplacedMoves | grounds/voronoi/voronoi.py:89-102 | z-displacement keeps x and y and raises z by a value in [0, scale) |
| Voronoi.Lattice.ZDisplace | grounds/voronoi/voronoi.py:89-102 | site i is raised by draw i scaled, and nothing else changes |
| Voronoi.WrapRowSpec | grounds/voronoi/voronoi.py:129-144 | row y of a wrap block holds grid points x·size[1] + y moved by the shift, in order of x |
| Voronoi.WrapBlockSpec | grounds/voronoi/voronoi.py:129-144 | one nested loop of `wrap` appends rows·cols points, entry y·cols + x being grid point x·size[1] + y moved by the shift |
| Voronoi.WrapBlocksSpec | grounds/voronoi/voronoi.py:105-144 | `wrap` appends amount·size[1] + amount·size[0] + amount² copies: shifted by one grid extent in x, then in y, then in both |
| Voronoi.Lattice.Wrap | grounds/voronoi/voronoi.py:105-144 | the list gains the three blocks after the original sites, and the same list is returned |
| Voronoi.Lattice.AppendBlock | grounds/voronoi/voronoi.py:129-144 | one nested loop appends its block and leaves the earlier sites as they were |
| Voronoi.Lattice.AppendRow | grounds/voronoi/voronoi.py:129-144 | the inner loop appends one row of a block |
| Voronoi.Lattice.AppendShifted | grounds/voronoi/voronoi.py:129-144 | one `grid.append` adds grid point x·size[1] + y of the list as it was before the wrap, shifted, after the points of the row so far |
| Cells.NewCell | grounds/voronoi/voronoi.py:160-166 | a new cell keeps its centre and polygon and is unslanted, with no index, colour or texture |
| Cells.OffsetPolygon | grounds/voronoi/voronoi.py:239-261 | the offset polygon is the first solution path on the plane z = 0 and closed into a loop, or empty when the solution is empty |
| Cells.OffsetOnlyPolygons | grounds/voronoi/voronoi.py:216-236 | `offset` replaces only each cell's polygon, and every new polygon is empty or closed |
| Cells.CellList.Offset | grounds/voronoi/voronoi.py:216-236 | the list after `offset` is the list of offset cells |
| Cells.ShearedNonNegative | grounds/voronoi/voronoi.py:311-326 | whole-number heights and a non-negative displacement leave every vertex at z >= 0, because the compensation lifts the lowest sheared vertex to 0 or above |
| Cells.SlantNonNegative | grounds/voronoi/voronoi.py:292-326 | `slant_polygon` on whole-number heights with z_displace >= 0 leaves no vertex below 0 |
| Cells.Slanted | grounds/voronoi/voronoi.py:292-326 | a slanted polygon keeps its vertex count and every vertex's x and y |
| Cells.SlantPolygon | grounds/voronoi/voronoi.py:311-326 | the two loops shear each vertex around the centre while tracking the lowest z, then lift all vertices by the rounded displacement plus compensation |
| Cells.ShearLoop | grounds/voronoi/voronoi.py:311-320 | the first loop shears every vertex by its rounded slant offset and ends with the least sheared z, or the start value 1e9 when none is below it |
| Cells.ShearVertex | grounds/voronoi/voronoi.py:313-320 | one iteration appends the next sheared vertex and keeps the least z of the vertices so far |
| Cells.MinZ | grounds/voronoi/voronoi.py:312-319 | the tracked minimum is at most every vertex's z and is either one of them or the start value 1e9 |
| Cells.Compensation | grounds/voronoi/voronoi.py:321 | the compensation is non-negative and lifts the minimum to at least 0 |
| Cells.LiftLoop | grounds/voronoi/voronoi.py:322-325 | the second loop lifts every point by the same amount, in order |
| Cells.SlantRandomSpec | grounds/voronoi/voronoi.py:276-289 | `slant_random` changes only polygons and slanted flags, keeps every x and y, and marks a cell slanted exactly when it was slanted before or its amount draw and the maximum are positive |
| Cells.SlantedCellSpec | grounds/voronoi/voronoi.py:277-289 | for one cell: only its polygon and flag change, x and y stay, and it is slanted exactly when it was or its amount draw and the maximum are positive |
| Cells.SlantRandomNonNegative | grounds/voronoi/voronoi.py:276-289 | with whole-number heights and a non-negative maximum displacement, no vertex ends up below z = 0 |
| Cells.SlantCell | grounds/voronoi/voronoi.py:277-289 | one iteration slants the cell with its three draws and marks it slanted for a positive amount |
| Cells.CellList.SlantRandom | grounds/voronoi/voronoi.py:264-289 | three draws per cell after reseeding, in list order, slant each cell's polygon |
| Cells.Half | grounds/voronoi/voronoi.py:393-395 | `wrap_amount // 2` floors, negative amounts included |
| Cells.VisibleOnce | grounds/voronoi/voronoi.py:391-395 | a centre and its copy one grid extent further are both visible only on the two edges of the window |
| Cells.IsMirrorNear | grounds/voronoi/voronoi.py:409-426 | a test cell is a wrapped counterpart exactly when its centre is within the tolerance of one of the eight translations of the cell's centre by the grid extent |
| Cells.IsMirrorSymmetric | grounds/voronoi/voronoi.py:409-426 | being a wrapped counterpart is symmetric |
| Cells.IsMirrorSelf | grounds/voronoi/voronoi.py:409-426 | a cell is its own counterpart exactly when a grid extent is below the tolerance |
| Cells.MirrorPositionsSpec | grounds/voronoi/voronoi.py:409-426 | the counterparts are exactly the cells that pass the test, each once and in list order |
| Cells.GetWrappedCells | grounds/voronoi/voronoi.py:398-426 | the loop returns the cells that pass the test and their positions |
| Cells.WrappedCellsExample | grounds/voronoi/voronoi.py:403-407 | in a 4×4 grid the cell at (1, 2) has exactly its three copies as counterparts |
| Cells.Retry | grounds/voronoi/voronoi.py:343-351 | the retry loop settles on a visible index, or on the middle index when it runs out of redraws |
| Cells.Pick | grounds/voronoi/voronoi.py:342-351 | the chosen cell is a position of the list, visible or the middle one |
| Cells.RemoveGroup | grounds/voronoi/voronoi.py:352-356 | removing the cell and its counterparts one after the other fails exactly when the cell is among its own counterparts, and removes the cell and every counterpart before the failure |
| Cells.KeptSpec | grounds/voronoi/voronoi.py:352-356 | after the removes, the list keeps exactly the positions not removed, in order |
| Cells.RemoveAtSpec | grounds/voronoi/voronoi.py:352-362 | removing a group fails exactly when a grid extent is below the tolerance; otherwise it takes out the cell and its counterparts, keeps the order of the rest and returns one flat copy per removed cell |
| Cells.RemoveRoundError | grounds/voronoi/voronoi.py:341-364 | a round on a non-empty list fails exactly when a grid extent is below the tolerance |
| Cells.RemoveRoundCount | grounds/voronoi/voronoi.py:341-364 | a successful round removes as many cells as it returns copies, and the copies lie flat |
| Cells.RemoveRounds | grounds/voronoi/voronoi.py:341-364 | without an error the cells left and the copies returned add up to the cells given, and every copy lies flat |
| Cells.RoundThenRest | grounds/voronoi/voronoi.py:343-363 | a first round followed by the remaining ones: without an error the cells left and the copies returned add up to the cells given, and every copy lies flat |
| Cells.RemoveRoundConserves | grounds/voronoi/voronoi.py:341-364 | a successful round loses and duplicates no cell: the cells left and the cells taken make up the same multiset as the cells given, and the copies are the taken cells laid flat, in order |
| Cells.RemoveRoundsConserve | grounds/voronoi/voronoi.py:341-364 | without an error the rounds together lose and duplicate no cell: as a multiset the cells given are the cells left plus the cells taken, and the copies are the taken cells laid flat |
| Cells.ConservesTwice | grounds/voronoi/voronoi.py:341-364 | two runs that each lose and duplicate no cell, one after the other, lose and duplicate none, with the copies of the first in front |
| Cells.RoundsConserveStep | grounds/voronoi/voronoi.py:343-363 | a first round that conserves the cells, followed by rounds that conserve them, conserves them |
| Cells.SplitMultiset | grounds/voronoi/voronoi.py:352-356 | the cells kept and the cells removed by a list of positions together make up the multiset of the list |
| Cells.ProjectPerm | grounds/voronoi/voronoi.py:352-362 | taking the same positions in another order takes the same multiset of cells |
| Cells.PickCell | grounds/voronoi/voronoi.py:342-351 | the choice and the retry loop agree with `Pick` |
| Cells.Compact | grounds/voronoi/voronoi.py:352-356 | the list after removing the given positions keeps the other cells in order |
| Cells.Flatten | grounds/voronoi/voronoi.py:357-361 | the copy of a removed cell has z = 0 for its centre and every vertex |
| Cells.RemoveTargets | grounds/voronoi/voronoi.py:356-357 | the remove loop yields the removed positions, and stops at the first cell already gone |
| Cells.CopyGroup | grounds/voronoi/voronoi.py:357-362 | `deepcopy(mirror_cells)` flattened gives one flat copy per group entry |
| Cells.CellList.RemoveOne | grounds/voronoi/voronoi.py:341-362 | one iteration of the loop changes the list as one round says and returns its copies |
| Cells.CellList.RemoveCounted | grounds/voronoi/voronoi.py:343-363 | one iteration of the `count` loop moves the list and the copies one round along the whole run, or stops with the run's error and the list where the run leaves it |
| Cells.CellList.RunRounds | grounds/voronoi/voronoi.py:343-364 | the `count` loop leaves the list as the rounds do and returns all their copies, or the first error |
| Cells.CellList.RemoveRandomCells | grounds/voronoi/voronoi.py:329-364 | after `count` rounds the list and the returned copies are those of the rounds, and on an error the list keeps the removes done before it |
| Cells.RotationAngle | grounds/voronoi/voronoi.py:385 | the angle can be read back from the transform text |
| Cells.AssignTexturesSpec | grounds/voronoi/voronoi.py:383-386 | the inner loop gives every cell of the group the same file with some rotation, changes only textures, and leaves the other cells alone |
| Cells.AssignLoop | grounds/voronoi/voronoi.py:382-386 | the inner loop gives the group's cells the file and the rotations drawn in group order |
| Cells.TextureCell | grounds/voronoi/voronoi.py:380-386 | one outer iteration draws a file and then one rotation per group cell, consuming one draw more than the group's size |
| Cells.TextureStepSpec | grounds/voronoi/voronoi.py:379-386 | one outer iteration changes only textures, gives cell i a texture, and keeps the earlier cells textured |
| Cells.Textured | grounds/voronoi/voronoi.py:377-388 | the outer loop changes only textures, and once the cells before the current one hold a file of the list and a rotation, every cell ends up holding one |
| Cells.ApplyRandomTexture | grounds/voronoi/voronoi.py:367-388 | no images returns None, as the source does; otherwise every cell of the copy holds a file of the list and a rotation, and nothing but textures differs |
| Svg.Hex2 | grounds/voronoi/svg.py:153-156 | `'{0:0>2x}'` gives two hexadecimal digits that read back as the level |
| Svg.Clamp | grounds/voronoi/svg.py:152 | `max(0, min(255, n))` lies in [0, 255] and leaves values in range unchanged |
| Svg.OffsetColorSpec | grounds/voronoi/svg.py:151-156 | the colour is `#` and one level three times: the clamped, truncated z for a black foreground, 255 minus it for a white one, and none for any other foreground |
| Svg.LevelMonotone | grounds/voronoi/svg.py:152 | the level is monotone in z and equals every whole z in [0, 255] |
| Numerals.Truncate | grounds/voronoi/svg.py:152 | `int(z)` truncates toward zero |
| Svg.FixImageSize | grounds/voronoi/svg.py:208-221 | the pixel size is the size in centimetres at the dpi, plus half a pixel |
| Svg.FixImageSizeInverse | grounds/voronoi/svg.py:208-221 | for a positive dpi the size in centimetres can be recovered from the pixel size |
| Svg.FirstLowest | grounds/voronoi/svg.py:107-140 | the lower bound is the first vertex of least z |
| Svg.FirstHighest | grounds/voronoi/svg.py:107-140 | the upper bound is the first vertex of greatest z |
| Svg.UnitSpec | grounds/voronoi/svg.py:131-139 | normalising one axis gives 0.5 to both of two equal coordinates, and otherwise 0 to the smaller and 1 to the larger |
| Svg.ZBoundsSpec | grounds/voronoi/svg.py:107-140 | the normalised bounds take the z of the first lowest and first highest vertex, in order, and every normalised x and y is 0, 1 or 0.5 |
| Svg.CellZBounds | grounds/voronoi/svg.py:107-140 | the loop and the optional normalisation give those bounds |
| Svg.StopOffsetsIncrease | grounds/voronoi/svg.py:143-148 | stop offsets run from 0 at the first colour to 1 at the last, strictly increasing |
| Svg.GradientTwoStops | grounds/voronoi/svg.py:143-148 | for two colours the gradient has a stop at offset 0 with the first colour and one at offset 1 with the second |
| Svg.SvgGradient | grounds/voronoi/svg.py:143-148 | one stop per colour in order, and a single colour divides by zero |
| Svg.SvgPolySpec | grounds/voronoi/svg.py:78-100 | a non-empty path starts with `M` and the first vertex, and closes with Z; an empty polygon yields at most the centre dot |
| Svg.SvgPolyVertices | grounds/voronoi/svg.py:78-100 | between the head `M x0,y0 ` and the closing ` Z` of a non-empty path lie the coordinates of every vertex, in order, each at its place, with ` L ` between each two and nothing else |
| Svg.JoinWithJoined | grounds/voronoi/svg.py:78 | `sep.join(parts)` holds every part in order at its offset, with the separator between each two, and has exactly the length the parts and separators add up to |
| Svg.JoinedStep | grounds/voronoi/svg.py:78 | the layout of a join follows from the layout of the join of all parts but the first |
| Svg.Backdrop | grounds/voronoi/svg.py:38-46 | the background rectangle is present exactly for a truthy background |
| Svg.FillDefined | grounds/voronoi/svg.py:47-74 | a cell without vertices adds nothing; a textured cell's fill names the pattern it defines; a slanted cell without texture is filled with the gradient it defines; an unslanted cell defines nothing |
| Svg.SlantedGradient | grounds/voronoi/svg.py:61-73 | a slanted cell's gradient runs from the grey of its first lowest vertex at offset 0 to that of its first highest at offset 1 |
| Svg.DocumentShape | grounds/voronoi/svg.py:31-76 | the document opens with the XML declaration and closes the `<svg>` element |
| Svg.SvgVoronoi | grounds/voronoi/svg.py:4-76 | the document built cell by cell is the declared assembly of header, definitions and body |
| Svg.CellTexts | grounds/voronoi/svg.py:47-74 | the loop over the cells builds the definitions and the body of every cell in list order |
| Svg.CellText | grounds/voronoi/svg.py:48-74 | one iteration adds the definitions and the element of its cell |
| Asphalt.IntRampSpec | grounds/asphalt.py:11-15 | `_int_ramp` yields num integers from lo to hi, both ends included, in non-decreasing order, nothing for num <= 0, and fails exactly for num == 1 |
| Asphalt.RampValueBounds | grounds/asphalt.py:11-15 | every ramp value lies between lo and hi |
| Asphalt.RampValueMonotone | grounds/asphalt.py:11-15 | ramp values do not decrease along the ramp |
| Asphalt.ColorListSpec | grounds/asphalt.py:17 | `COLOR_LIST` has 44 greys from 0 to 190 in non-decreasing order |
| Asphalt.PaletteSpec | grounds/asphalt.py:54-62 | type 1 draws from the 14 lightest colours, type 2 from the 41 after the third, any other type from black and white; every palette is a non-empty list of greys |
| Asphalt.NoiseColor | grounds/asphalt.py:54-62 | a noise pixel is a grey of the type's palette |
| Asphalt.DirectionsSpec | grounds/asphalt.py:22 | every direction moves by at most one in each axis and never stands still, and the direction four places on is the opposite |
| Asphalt.DepthBrightnessSpec | grounds/asphalt.py:273-286 | for a non-zero step count the grey exists; it is 255 at both ends of the crack and 5 half way, symmetric about the middle, and always within [5, 255] |
| Asphalt.ArchWidthBounds | grounds/asphalt.py:176-190 | the width arch of the middle third stays within [0, max_width] |
| Asphalt.CrackWidthsSpec | grounds/asphalt.py:176-190 | every step from 0 to max_steps has widths and any other step is a ValueError; for a non-negative max_width both widths lie in [0, max_width], the middle third's second width is half its first, and the outer thirds use 0.2·max_width for both |
| Asphalt.PhasesCover | grounds/asphalt.py:176-190 | the three phases together cover exactly the steps 0 to max_steps |
| Asphalt.SpreadAxis | grounds/asphalt.py:317-327 | a rounded coordinate of `point_randrange` moves from the point by between the smaller and the larger bound, in the sign of the direction |
| Asphalt.VertexSpec | grounds/asphalt.py:301-327 | each vertex lies towards its corner, by between the bounds in each axis |
| Asphalt.RandomQuad | grounds/asphalt.py:289-305 | `random_quad` has four vertices |
| Asphalt.RandomQuadSpec | grounds/asphalt.py:301-305 | vertex j lies towards corner j of NW, SW, SE, NE, by between the two widths in each axis, rounded |
| Asphalt.CrackStampSpec | grounds/asphalt.py:176-223 | for a valid step the stamp exists, its depth grey is the crack's brightness at that step, and its quad spreads from the point by the step's widths |
| Asphalt.StrokeFailureSpec | grounds/asphalt.py:176-190 | a call of `dynamic_width_crack` fails exactly as its guard says, with the same error |
| Asphalt.Surface.DynamicWidthCrack | grounds/asphalt.py:161-190 | records one call, and raises exactly the error the call raises |
| Asphalt.WrapIntoSpec | grounds/asphalt.py:150-153 | a coordinate inside the image moved by at most its size stays inside after the wrap, which shifts it by exactly 0 or ±size |
| Asphalt.NextDirectionSpec | grounds/asphalt.py:156-157 | the next direction is a compass direction at most one step from the start direction |
| Asphalt.StepFailure | grounds/asphalt.py:147-149 | corrected guard: a direction is rejected exactly when `DIR_V` has no entry for it |
| Asphalt.EightPassesGuard | grounds/asphalt.py:147-149 | direction 8 passes the guard as written and then fails at `DIR_V[8]` |
| Asphalt.GuardsAgree | grounds/asphalt.py:147-149 | the written and the corrected guard differ only at 8 |
| Asphalt.WalkStepSpec | grounds/asphalt.py:147-157 | one iteration from a compass direction before step max_steps succeeds; it adds one point and its call, uses ten draws, and heads in a compass direction again |
| Asphalt.CrackAfterSpec | grounds/asphalt.py:143-158 | from a compass direction the walk never fails: after n steps it holds n points, one call per point with its step index, and it has used ten draws per step |
| Asphalt.CrackDepths | grounds/asphalt.py:143-158 | every call of a walk stamps a quad whose depth follows the brightness profile: white at the start, darkest half way |
| Asphalt.CrackInside | grounds/asphalt.py:149-153 | a walk that starts inside the image, as every branch does, with a step no longer than either side, never leaves [0, width] × [0, height] |
| Asphalt.WrapBand | grounds/asphalt.py:150-153 | a coordinate within one side of [0, side] wraps into it |
| Asphalt.CrackInsideFrom | grounds/asphalt.py:149-153 | a walk that starts less than a side minus a step outside the image, with a step no longer than either side, has every point inside [0, width] × [0, height] |
| Asphalt.MainCrackInside | grounds/asphalt.py:111-117 | every point of a main crack lies inside the image, although its start may lie up to half the image outside, when a step is no longer than the larger half of either side |
| Asphalt.CrackBadDirection | grounds/asphalt.py:146-148 | with the intended guard, every start direction outside 0 to 7, 8 included, stops the walk at its first step with ValueError, before anything is stamped; a walk of no steps never looks at the direction |
| Asphalt.CrackAsWrittenAgrees | grounds/asphalt.py:143-157 | for every start but 8 the walk with the guard as written is the walk with the intended guard |
| Asphalt.CrackEightAsWritten | grounds/asphalt.py:146-148 | as written, a walk from direction 8 passes the guard and fails at `DIR_V[8]` with IndexError, before anything is stamped |
| Asphalt.CrackBadDirectionAsWritten | grounds/asphalt.py:146-148 | as written, a start outside 0 to 8 raises ValueError at the first step and a start of 8 raises IndexError |
| Asphalt.StaysFailed | grounds/asphalt.py:143-158 | once the walk has failed, further iterations change nothing |
| Asphalt.Surface.DrawStep | grounds/asphalt.py:149-157 | one step moves and wraps the position, makes its call without error, and draws the next direction |
| Asphalt.Surface.DrawCrack | grounds/asphalt.py:125-158 | with the intended guard, the loop returns the points, the next draw and the error of the walk, and records exactly the walk's calls |
| Asphalt.SideDirectionSpec | grounds/asphalt.py:121 | a branch heads in a compass direction other than its crack's |
| Asphalt.StartPointSpec | grounds/asphalt.py:112-117 | moved by half the image along the direction, the start lies in the top-left quarter |
| Asphalt.CrackDirection | grounds/asphalt.py:112 | a crack's direction is one of the eight compass directions |
| Asphalt.BranchSteps | grounds/asphalt.py:120 | a branch's length is between a tenth and six tenths of the crack's, rounded |
| Asphalt.BranchSucceeds | grounds/asphalt.py:119-122 | a branch of a crack with at least one point never fails |
| Asphalt.MainCrackSpec | grounds/asphalt.py:112-118 | the walk of a crack never fails and has one point per step |
| Asphalt.OneCrackSpec | grounds/asphalt.py:110-122 | a crack of at least one step never fails; one of no steps has no point to branch from and raises IndexError |
| Asphalt.OneCrackBranches | grounds/asphalt.py:111-122 | a crack of at least one step draws its main walk and then 1 to 5 branch walks, each from a point of the main walk, in a compass direction other than the crack's, for between a tenth and six tenths of its steps |
| Asphalt.RepeatBranches | grounds/asphalt.py:119-122 | n iterations of the branch loop succeed and draw exactly n branch walks set up that way |
| Asphalt.PlanAtSpec | grounds/asphalt.py:120-122 | one branch starts at a point of the crack, turns to another compass direction, and draws its walk |
| Asphalt.BranchesGrow | grounds/asphalt.py:119-122 | one more branch adds its walk's calls after those of the earlier branches |
| Asphalt.GenerateCracksSpec | grounds/asphalt.py:93-122 | `generate_cracks` fails exactly when a zero width divides by zero or the length rounds to no steps; otherwise every crack and branch is drawn |
| Asphalt.Surface.DrawBranch | grounds/asphalt.py:119-122 | one branch records the calls of its walk |
| Asphalt.Surface.DrawBranches | grounds/asphalt.py:119-122 | the branch loop records the calls of its branches in order |
| Asphalt.Surface.DrawOneCrack | grounds/asphalt.py:110-122 | one crack records the calls of its walk and then of its branches |
| Asphalt.Surface.GenerateCracks | grounds/asphalt.py:93-122 | the images receive exactly the calls `generate_cracks` makes, in order, and the error that stops it |
| ImageGenerator.Uint | image_generator.py:150-166 | `uint` succeeds exactly for text that parses as an integer >= 0, and returns that integer |
| ImageGenerator.UintRoundTrip | image_generator.py:150-166 | `uint(str(n)) == n` for every n >= 0 |
| ImageGenerator.UintRejectsNegative | image_generator.py:163-164 | the numeral of a negative number fails as a negative number |
| ImageGenerator.UintRejectsText | image_generator.py:159-162 | text that is not a signed or unsigned digit string is not an integer, and the error names the text |
| ImageGenerator.ParseResolution | image_generator.py:168-185 | a resolution is only read from text with exactly one 'x' |
| ImageGenerator.ResolutionOf | image_generator.py:178-185 | text with one 'x' resolves to the integers on either side, or fails naming the first side that is not one, the width first |
| ImageGenerator.ResolutionSides | image_generator.py:178-185 | a parsed resolution's text is its two sides joined by one 'x', and those sides spell width and height |
| ImageGenerator.ResolutionRoundTrip | image_generator.py:178-185 | `parse_resolution(str(w) + 'x' + str(h)) == (w, h)` |
| ImageGenerator.DefaultResolution | image_generator.py:178-185 | the default '960x540' is 960 by 540 |
| ImageGenerator.NoSeparatorRejected | image_generator.py:178-180 | text without 'x' is not a resolution |
| ImageGenerator.TwoSeparatorsRejected | image_generator.py:178-180 | text with two 'x's is not a resolution |
| ImageGenerator.UppercaseRejected | image_generator.py:178-180 | the split is case-sensitive: '960X540' is not a resolution |
| ImageGenerator.JoinPath | image_generator.py:138 | the path starts with the directory and ends with the name; an empty directory gives the name alone, otherwise a separator comes just before the name and is added only when the directory does not already end in one |
| ImageGenerator.GroundTextures | image_generator.py:137-146 | exactly the three ground types are accepted, each calling the generator of its name with the defects and the texture path; any other name raises its error |

## Left out

- `voronoi_polygons` (grounds/voronoi/voronoi.py:177-213) calls pyvoronoi. Every cell operation starts from a given list of cells.
- The polygon offset belongs to pyclipper, a foreign library. It is the parameter `Clipper`, and its geometry is not modelled.
- `math.cos` and `math.sin` are the parameter `Trig.Trig`. `math.sqrt` is left off `distance` and `veclen`, which are modelled by the sums under the root.
- Python's random generator, the Mersenne Twister, is an oracle of raw draws. `randbelow`'s rejection sampling is modelled as a remainder, and each call is taken to consume one draw.
- Float precision is not modelled: numbers are reals. The text of a number (`'{}'.format`, `'{:.2}'.format`) is the parameter `Svg.Show`. Python prints an int as `500` and a float as `500.0`; the pyclipper vertices of a polygon are ints, while gradient coordinates and centres are floats. A single `real -> string` parameter cannot tell the two apart, so the model does not fix which form a coordinate takes.
- `_svg_texture` (grounds/voronoi/svg.py:159-200) reads an image file, so the pattern it returns is the parameter `Svg.Patterns`. `write` and all other file output are left out.
- `_svg_text` (grounds/voronoi/svg.py:103-105) is unused by `svg_voronoi` and is left out. A dictionary-valued background is left out too; the background is an optional text.
- The colour classes `ColorHsv`, `ColorHsl` and `ColorHls` (util/point.py:245-259) are left out. So are the text and conversion dunders `__int__`, `__float__`, `__iter__`, `__str__`, `__repr__` and `__deepcopy__`. On colours, `+c` (which returns the colour itself), `len(c)` (always 3) and `name in c` are left out too.
- Asphalt.Surface.DrawCrack, Asphalt.Crack and everything built on them (the cracks and branches of `generate_cracks`) use the intended guard `0 <= direction < 8`. The guard as written is modelled separately, by Asphalt.CrackAsWritten, as the Findings table describes.
- Object identity, which `cells.remove` relies on, is the position of a cell in its list.
- `os.path.abspath` of the texture file names in `apply_random_texture` is left out, because it depends on the working directory.
- In `generate_asphalt` (grounds/asphalt.py:26-91), the PIL images, the per-pixel noise loop and the loop of 6000 shapes are left out. Only the palette a noise pixel draws from is modelled, as `Asphalt.NoiseColor`. The images are the `Surface`'s record of calls, and `StrokeStamp` gives the quad and depth grey each call draws.
- The texture tint of `draw_asphalt_shape` goes through `colorsys`, an HLS conversion on floats, and is left out. The defect image always receives white.
- `draw_quad` and `pothole_generater` (grounds/asphalt.py:228-271) are never called and are left out.
- The tuple-valued bounds branch of `point_randrange` is left out. Every caller in the core passes a pair of scalars, which takes the TypeError fallback (grounds/asphalt.py:323-327).
- `Numerals.ParseInt` is stricter than Python's `int(text)`. It does not accept surrounding whitespace, underscores between digits or non-ASCII digits.
- ImageGenerator.ParseResolution: the error carries the invalid side itself, whereas Python's message quotes its repr.
- These parts of image_generator.py are left out:
  - the `cli` function;
  - argparse itself, including defaults that are not strings;
  - the subprocess call of Blender;
  - the texture generators of grounds/textures.py, which are not part of this model.
- Voronoi.Lattice.Wrap requires an amount no greater than either grid dimension, and a full grid of size[0]·size[1] sites. The source also runs when the amount is larger, and then reads points that earlier loops appended. The renderer never calls it that way.

## Findings

| source | as written | input that shows it | evidently intended | confidence | as-written member | corrected member |
|---|---|---|---|---|---|---|
| grounds/asphalt.py:147 | the guard `0 <= direction <= 8` admits 8, and `DIR_V[8]` then raises IndexError | `draw_crack` with start direction 8 | ValueError for 8, as for every other direction that `DIR_V` lacks | not executed | Asphalt.CrackEightAsWritten | Asphalt.CrackBadDirection |
