/** Fixed-arity points and colours (util/point.py).

    A point is a value of one of the point classes, each with a fixed list of
    component names. Python keeps the components as attributes and coerces
    each one with `_number`, which only changes how a value prints (an
    integral float becomes an int); the model stores the values themselves as
    reals and states the coercion separately (`Number`). Every operator builds
    a new point; none changes one. */
module Points {
  import opened Wrappers
  import Numerals

  // ---------------------------------------------------------------------
  // Point classes and values

  datatype Kind = Point2d | Point3d | Point4d | Point2dTex

  /** The component names of each class, in order. */
  function Components(k: Kind): string {
    match k
    case Point2d => "xy"
    case Point3d => "xyz"
    case Point4d => "xyzw"
    case Point2dTex => "uv"
  }

  function Arity(k: Kind): nat { |Components(k)| }

  datatype PointValue = Make(kind: Kind, coords: seq<real>)

  /** A point always holds exactly one value per component of its class. */
  type Point = p: PointValue | |p.coords| == Arity(p.kind) witness Make(Point2d, [0.0, 0.0])

  type Point3 = p: Point | p.kind == Point3d witness Make(Point3d, [0.0, 0.0, 0.0])

  function P2(x: real, y: real): Point { Make(Point2d, [x, y]) }

  function P3(x: real, y: real, z: real): Point3 { Make(Point3d, [x, y, z]) }

  function X(p: Point): real { p.coords[0] }

  function Y(p: Point): real { p.coords[1] }

  function Z(p: Point3): real { p.coords[2] }

  // ---------------------------------------------------------------------
  // Numeric coercion (`_number`)

  datatype Num = Int(i: int) | Float(f: real) {
    function Value(): real {
      match this
      case Int(i) => i as real
      case Float(f) => f
    }
  }

  /** `f % 1.0 == 0` for a finite float f. */
  predicate Integral(v: real) { v.Floor as real == v }

  /** `_number`: keeps the value, and makes it an int exactly when it is integral. */
  function Number(v: real): (n: Num)
    ensures n.Value() == v
    ensures n.Int? <==> Integral(v)
  {
    if Integral(v) then Int(v.Floor) else Float(v)
  }

  /** Coercing an already coerced value changes nothing. */
  lemma NumberIdempotent(v: real)
    ensures Number(Number(v).Value()) == Number(v)
  {
  }

  // ---------------------------------------------------------------------
  // Construction

  /** The constructor's rule for each component name in turn: its keyword
      argument if given, else the next unused positional argument, else 0.
      Surplus positional arguments are ignored. */
  function Fill(names: string, args: seq<real>, kwargs: map<string, real>): (r: seq<real>)
    ensures |r| == |names|
  {
    if names == [] then []
    else if [names[0]] in kwargs then [kwargs[[names[0]]]] + Fill(names[1..], args, kwargs)
    else if |args| > 0 then [args[0]] + Fill(names[1..], args[1..], kwargs)
    else [0.0] + Fill(names[1..], [], kwargs)
  }

  /** `Kind(*args, **kwargs)`. */
  function New(k: Kind, args: seq<real>, kwargs: map<string, real>): (p: Point)
    ensures p.kind == k
  {
    Make(k, Fill(Components(k), args, kwargs))
  }

  lemma {:induction false} FillPositional(names: string, args: seq<real>)
    ensures forall i :: 0 <= i < |names| ==>
      Fill(names, args, map[])[i] == if i < |args| then args[i] else 0.0
  {
    if names != [] {
      if |args| > 0 {
        FillPositional(names[1..], args[1..]);
      } else {
        FillPositional(names[1..], []);
      }
    }
  }

  lemma {:induction false} FillKeywords(names: string, kwargs: map<string, real>)
    ensures forall i :: 0 <= i < |names| ==>
      Fill(names, [], kwargs)[i] == if [names[i]] in kwargs then kwargs[[names[i]]] else 0.0
  {
    if names != [] {
      FillKeywords(names[1..], kwargs);
      assert forall i :: 1 <= i < |names| ==> names[i] == names[1..][i - 1];
    }
  }

  /** Positional construction: component i is argument i, or 0 when fewer
      arguments than components are given. */
  lemma NewPositional(k: Kind, args: seq<real>)
    ensures forall i :: 0 <= i < Arity(k) ==>
      New(k, args, map[]).coords[i] == if i < |args| then args[i] else 0.0
  {
    FillPositional(Components(k), args);
  }

  /** Keyword-only construction, as in `Point3d(z=h)`: each named component
      takes its keyword's value, every other one is 0. */
  lemma NewKeywords(k: Kind, kwargs: map<string, real>)
    ensures forall i :: 0 <= i < Arity(k) ==>
      New(k, [], kwargs).coords[i] ==
        if [Components(k)[i]] in kwargs then kwargs[[Components(k)[i]]] else 0.0
  {
    FillKeywords(Components(k), kwargs);
  }

  // ---------------------------------------------------------------------
  // Component-wise operators

  datatype OperatorError = IndexError | ZeroDivisionError

  datatype ArithOp = Add | Sub | Mul | TrueDiv | FloorDiv | Mod

  /** The other operand: a number, or anything with a length and indexing. */
  datatype Operand = Scalar(value: real) | Sequence(items: seq<real>)

  /** One component of `+ - * / // %`; Python's `//` floors and its `%`
      takes the sign of the divisor. */
  function Apply(op: ArithOp, a: real, b: real): Result<real, OperatorError> {
    match op
    case Add => Success(a + b)
    case Sub => Success(a - b)
    case Mul => Success(a * b)
    case TrueDiv => if b == 0.0 then Failure(ZeroDivisionError) else Success(a / b)
    case FloorDiv => if b == 0.0 then Failure(ZeroDivisionError) else Success((a / b).Floor as real)
    case Mod => if b == 0.0 then Failure(ZeroDivisionError) else Success(a - b * (a / b).Floor as real)
  }

  /** The comprehension `[f(self[i], other[i]) for i in range(len(other))]`:
      it walks the other operand, fails with IndexError once it runs past the
      point's components, and stops at the first failing component. */
  function Zip<T>(f: (real, real) -> Result<T, OperatorError>, xs: seq<real>, ys: seq<real>): Result<seq<T>, OperatorError> {
    if ys == [] then Success([])
    else if xs == [] then Failure(IndexError)
    else
      var head :- f(xs[0], ys[0]);
      var tail :- Zip(f, xs[1..], ys[1..]);
      Success([head] + tail)
  }

  lemma {:induction false} ZipSpec<T>(f: (real, real) -> Result<T, OperatorError>, xs: seq<real>, ys: seq<real>)
    ensures Zip(f, xs, ys).Success? <==>
      |ys| <= |xs| && forall i :: 0 <= i < |ys| ==> f(xs[i], ys[i]).Success?
    ensures Zip(f, xs, ys).Success? ==>
      |Zip(f, xs, ys).value| == |ys| &&
      forall i :: 0 <= i < |ys| ==> Zip(f, xs, ys).value[i] == f(xs[i], ys[i]).value
    ensures |ys| > |xs| && (forall i :: 0 <= i < |xs| ==> f(xs[i], ys[i]).Success?) ==>
      Zip(f, xs, ys) == Failure(IndexError)
  {
    if ys != [] && xs != [] {
      ZipSpec(f, xs[1..], ys[1..]);
      assert forall i :: 1 <= i < |xs| ==> xs[i] == xs[1..][i - 1];
      assert forall i :: 1 <= i < |ys| ==> ys[i] == ys[1..][i - 1];
    }
  }

  /** `p op other`. A sequence operand is combined position by position and
      the result is rebuilt through the constructor, so components past the
      operand's length become 0; a scalar operand (the TypeError fallback) is
      applied to every component. */
  function Binary(op: ArithOp, p: Point, other: Operand): Result<Point, OperatorError> {
    var items := match other
      case Sequence(v) => v
      case Scalar(s) => seq(Arity(p.kind), _ => s);
    var r :- Zip((a, b) => Apply(op, a, b), p.coords, items);
    Success(New(p.kind, r, map[]))
  }

  /** A sequence operand: the result has the point's class, component i is
      `p[i] op v[i]` below the operand's length and 0 above it; an operand
      longer than the point raises IndexError. */
  lemma BinarySequence(op: ArithOp, p: Point, v: seq<real>)
    ensures Binary(op, p, Sequence(v)).Success? <==>
      |v| <= Arity(p.kind) && forall i :: 0 <= i < |v| ==> Apply(op, p.coords[i], v[i]).Success?
    ensures Binary(op, p, Sequence(v)).Success? ==>
      var r := Binary(op, p, Sequence(v)).value;
      r.kind == p.kind &&
      forall i :: 0 <= i < Arity(p.kind) ==>
        r.coords[i] == if i < |v| then Apply(op, p.coords[i], v[i]).value else 0.0
    ensures |v| > Arity(p.kind) && (forall i :: 0 <= i < Arity(p.kind) ==> Apply(op, p.coords[i], v[i]).Success?) ==>
      Binary(op, p, Sequence(v)) == Failure(IndexError)
  {
    var f := (a, b) => Apply(op, a, b);
    ZipSpec(f, p.coords, v);
    var z := Zip(f, p.coords, v);
    if z.Success? {
      NewPositional(p.kind, z.value);
    }
  }

  /** A scalar operand is broadcast: component i is `p[i] op s`. */
  lemma BinaryScalar(op: ArithOp, p: Point, s: real)
    ensures Binary(op, p, Scalar(s)).Success? <==>
      forall i :: 0 <= i < Arity(p.kind) ==> Apply(op, p.coords[i], s).Success?
    ensures Binary(op, p, Scalar(s)).Success? ==>
      var r := Binary(op, p, Scalar(s)).value;
      r.kind == p.kind &&
      forall i :: 0 <= i < Arity(p.kind) ==> r.coords[i] == Apply(op, p.coords[i], s).value
  {
    var f := (a, b) => Apply(op, a, b);
    var items := seq(Arity(p.kind), _ => s);
    ZipSpec(f, p.coords, items);
    var z := Zip(f, p.coords, items);
    if z.Success? {
      NewPositional(p.kind, z.value);
    }
  }

  /** `p + v` for an operand no longer than the point, which cannot fail. */
  function Plus(p: Point, v: seq<real>): (r: Point)
    requires |v| <= Arity(p.kind)
    ensures Binary(Add, p, Sequence(v)) == Success(r)
    ensures r.kind == p.kind
    ensures forall i :: 0 <= i < Arity(p.kind) ==> r.coords[i] == if i < |v| then p.coords[i] + v[i] else 0.0
  {
    BinarySequence(Add, p, v);
    Binary(Add, p, Sequence(v)).value
  }

  /** `Point2d(4, 1) + Point2d(6, -5) == Point2d(10, -4)`. */
  lemma AddExample()
    ensures Binary(Add, P2(4.0, 1.0), Sequence([6.0, -5.0])) == Success(P2(10.0, -4.0))
  {
    var r := Plus(P2(4.0, 1.0), [6.0, -5.0]);
    assert r.coords == [10.0, -4.0];
  }

  /** `Point2d(6, -5) * (2, 0.3) == Point2d(12, -1.5)`. */
  lemma MulExample()
    ensures Binary(Mul, P2(6.0, -5.0), Sequence([2.0, 0.3])) == Success(P2(12.0, -1.5))
  {
    BinarySequence(Mul, P2(6.0, -5.0), [2.0, 0.3]);
    var r := Binary(Mul, P2(6.0, -5.0), Sequence([2.0, 0.3])).value;
    assert r.coords == [12.0, -1.5];
  }

  /** A 3D point plus a 2D point keeps the 3D class and gets z = 0. */
  lemma AddShorterZeroes(p: Point3, q: Point)
    requires q.kind == Point2d
    ensures Binary(Add, p, Sequence(q.coords)) == Success(P3(X(p) + X(q), Y(p) + Y(q), 0.0))
  {
    var r := Plus(p, q.coords);
    assert r.coords == [X(p) + X(q), Y(p) + Y(q), 0.0];
  }

  // ---------------------------------------------------------------------
  // Unary operators and len

  function Negate(p: Point): (r: Point)
    ensures r.kind == p.kind
    ensures forall i :: 0 <= i < Arity(p.kind) ==> r.coords[i] == -p.coords[i]
  {
    Make(p.kind, seq(Arity(p.kind), i requires 0 <= i < Arity(p.kind) => -p.coords[i]))
  }

  /** `+p` returns p itself. */
  function Positive(p: Point): (r: Point)
    ensures r == p
  {
    p
  }

  function AbsValue(x: real): real { if x < 0.0 then -x else x }

  function Absolute(p: Point): (r: Point)
    ensures r.kind == p.kind
    ensures forall i :: 0 <= i < Arity(p.kind) ==> r.coords[i] == AbsValue(p.coords[i])
  {
    Make(p.kind, seq(Arity(p.kind), i requires 0 <= i < Arity(p.kind) => AbsValue(p.coords[i])))
  }

  /** `round(p)`: Python's round, half to even, on each component. */
  function Rounded(p: Point): (r: Point)
    ensures r.kind == p.kind
    ensures forall i :: 0 <= i < Arity(p.kind) ==>
      r.coords[i] == Numerals.RoundHalfEven(p.coords[i]) as real
  {
    Make(p.kind, seq(Arity(p.kind), i requires 0 <= i < Arity(p.kind) => Numerals.RoundHalfEven(p.coords[i]) as real))
  }

  /** Unary minus agrees with multiplying by the scalar -1, and is an involution. */
  lemma NegateIsScaling(p: Point)
    ensures Binary(Mul, p, Scalar(-1.0)) == Success(Negate(p))
    ensures Negate(Negate(p)) == p
  {
    BinaryScalar(Mul, p, -1.0);
    var r := Binary(Mul, p, Scalar(-1.0)).value;
    assert r.coords == Negate(p).coords;
    assert Negate(Negate(p)).coords == p.coords;
  }

  /** abs is idempotent, ignores the sign, and leaves non-negative components. */
  lemma AbsoluteProperties(p: Point)
    ensures Absolute(Absolute(p)) == Absolute(p)
    ensures Absolute(Negate(p)) == Absolute(p)
    ensures forall i :: 0 <= i < Arity(p.kind) ==> Absolute(p).coords[i] >= 0.0
  {
    assert Absolute(Absolute(p)).coords == Absolute(p).coords;
    assert Absolute(Negate(p)).coords == Absolute(p).coords;
  }

  /** round moves each component by at most one half, to an integral value,
      and rounding twice is rounding once. */
  lemma RoundedProperties(p: Point)
    ensures forall i :: 0 <= i < Arity(p.kind) ==>
      Integral(Rounded(p).coords[i]) &&
      AbsValue(Rounded(p).coords[i] - p.coords[i]) <= 0.5
    ensures Rounded(Rounded(p)) == Rounded(p)
  {
    forall i | 0 <= i < Arity(p.kind)
      ensures Numerals.RoundHalfEven(Rounded(p).coords[i]) as real == Rounded(p).coords[i]
    {
      Numerals.RoundInteger(Numerals.RoundHalfEven(p.coords[i]));
    }
    assert Rounded(Rounded(p)).coords == Rounded(p).coords;
  }

  /** `len(p)` is the arity of its class. */
  function Len(p: Point): (n: nat)
    ensures n == |p.coords|
  {
    |Components(p.kind)|
  }

  // ---------------------------------------------------------------------
  // Comparisons

  datatype CmpOp = Gt | Lt | Ge | Le | Eq

  function Holds(op: CmpOp, a: real, b: real): bool {
    match op
    case Gt => a > b
    case Lt => a < b
    case Ge => a >= b
    case Le => a <= b
    case Eq => a == b
  }

  /** `p > other` and friends: a tuple of per-component booleans, as long as a
      sequence operand or as the point for a scalar. */
  function Compare(op: CmpOp, p: Point, other: Operand): Result<seq<bool>, OperatorError> {
    var items := match other
      case Sequence(v) => v
      case Scalar(s) => seq(Arity(p.kind), _ => s);
    Zip((a, b) => Success(Holds(op, a, b)), p.coords, items)
  }

  lemma CompareSpec(op: CmpOp, p: Point, other: Operand)
    ensures other.Sequence? ==>
      (Compare(op, p, other).Success? <==> |other.items| <= Arity(p.kind))
    ensures other.Scalar? ==> Compare(op, p, other).Success?
    ensures Compare(op, p, other).Success? ==>
      var n := if other.Sequence? then |other.items| else Arity(p.kind);
      |Compare(op, p, other).value| == n &&
      forall i :: 0 <= i < n ==>
        Compare(op, p, other).value[i] ==
          Holds(op, p.coords[i], if other.Sequence? then other.items[i] else other.value)
  {
    var items := match other
      case Sequence(v) => v
      case Scalar(s) => seq(Arity(p.kind), _ => s);
    ZipSpec((a, b) => Success(Holds(op, a, b)), p.coords, items);
  }

  /** `Point3d(1, 4, -3) > 0 == (True, True, False)`. */
  lemma CompareExample()
    ensures Compare(Gt, P3(1.0, 4.0, -3.0), Scalar(0.0)) == Success([true, true, false])
  {
    CompareSpec(Gt, P3(1.0, 4.0, -3.0), Scalar(0.0));
    var r := Compare(Gt, P3(1.0, 4.0, -3.0), Scalar(0.0)).value;
    assert r == [true, true, false];
  }

  // ---------------------------------------------------------------------
  // Indexed and named access

  datatype Index = Position(i: int) | Name(name: string)

  function IndexOf(s: string, c: char): (i: nat)
    requires c in s
    ensures i < |s| && s[i] == c && c !in s[..i]
  {
    if s[0] == c then 0 else 1 + IndexOf(s[1..], c)
  }

  /** `p[index]`: a position in range(arity) or a component name; anything
      else, a negative position included, raises IndexError. */
  function GetItem(p: Point, index: Index): Result<real, OperatorError> {
    match index
    case Position(i) => if 0 <= i < Arity(p.kind) then Success(p.coords[i]) else Failure(IndexError)
    case Name(n) =>
      if |n| == 1 && n[0] in Components(p.kind) then Success(p.coords[IndexOf(Components(p.kind), n[0])])
      else Failure(IndexError)
  }

  /** `name in p`. */
  function Contains(p: Point, name: string): (b: bool)
    ensures b <==> GetItem(p, Name(name)).Success?
  {
    |name| == 1 && name[0] in Components(p.kind)
  }

  lemma ComponentsDistinct(k: Kind)
    ensures forall i, j :: 0 <= i < j < Arity(k) ==> Components(k)[i] != Components(k)[j]
  {
  }

  /** Access by position and by name agree, and exactly the positions in
      range(arity) and the component names are accepted. */
  lemma GetItemSpec(p: Point, index: Index)
    ensures GetItem(p, index).Success? <==>
      match index
      case Position(i) => 0 <= i < Arity(p.kind)
      case Name(n) => exists i :: 0 <= i < Arity(p.kind) && n == [Components(p.kind)[i]]
    ensures forall i :: 0 <= i < Arity(p.kind) ==>
      GetItem(p, Name([Components(p.kind)[i]])) == GetItem(p, Position(i)) == Success(p.coords[i])
  {
    var cs := Components(p.kind);
    ComponentsDistinct(p.kind);
    forall i | 0 <= i < Arity(p.kind)
      ensures GetItem(p, Name([cs[i]])) == Success(p.coords[i])
    {
      var j := IndexOf(cs, cs[i]);
      assert cs[j] == cs[i];
      assert j == i;
    }
    if index.Name? && |index.name| == 1 && index.name[0] in cs {
      var j := IndexOf(cs, index.name[0]);
      assert index.name == [cs[j]];
    }
  }

  // ---------------------------------------------------------------------
  // Swizzles

  /** The classes handed to `_make_swizzles` before the class itself. */
  function Partials(k: Kind): seq<Kind> {
    match k
    case Point2d => []
    case Point3d => [Point2d]
    case Point4d => [Point2d, Point3d]
    case Point2dTex => []
  }

  /** `_make_swizzles`: on class k, swizzles of length offset + i build the
      i-th class of `Partials(k) + [k]`, where offset is
      `max(0, arity - len(partials))`. */
  function SwizzleTarget(k: Kind, n: nat): Option<Kind> {
    var classes := Partials(k) + [k];
    var offset := if Arity(k) >= |Partials(k)| then Arity(k) - |Partials(k)| else 0;
    if offset <= n < offset + |classes| then Some(classes[n - offset]) else None
  }

  /** Every class has swizzles of each length from 2 up to its arity, and a
      swizzle of length n builds a class of arity n. */
  lemma SwizzleTargetSpec(k: Kind, n: nat)
    ensures SwizzleTarget(k, n).Some? <==> 2 <= n <= Arity(k)
    ensures SwizzleTarget(k, n).Some? ==> Arity(SwizzleTarget(k, n).value) == n
  {
  }

  predicate AllComponents(k: Kind, attr: string) {
    forall j :: 0 <= j < |attr| ==> attr[j] in Components(k)
  }

  /** The attribute `p.<attr>` for a swizzle name; None is Python's
      AttributeError. */
  function Swizzle(p: Point, attr: string): (r: Option<Point>)
    ensures r.Some? <==> AllComponents(p.kind, attr) && 2 <= |attr| <= Arity(p.kind)
    ensures r.Some? ==>
      r.value.kind == SwizzleTarget(p.kind, |attr|).value &&
      forall j :: 0 <= j < |attr| ==>
        r.value.coords[j] == GetItem(p, Name([attr[j]])).value
  {
    SwizzleTargetSpec(p.kind, |attr|);
    var target := SwizzleTarget(p.kind, |attr|);
    if target.Some? && AllComponents(p.kind, attr) then
      var cs := Components(p.kind);
      Some(Make(target.value, seq(|attr|, j requires 0 <= j < |attr| => p.coords[IndexOf(cs, attr[j])])))
    else None
  }

  /** `Point3d(1, 4, -3).zy == Point2d(-3, 4)`. */
  lemma SwizzleExample()
    ensures Swizzle(P3(1.0, 4.0, -3.0), "zy") == Some(P2(-3.0, 4.0))
  {
    var r := Swizzle(P3(1.0, 4.0, -3.0), "zy");
    assert r.Some?;
    assert r.value.coords == [-3.0, 4.0];
  }

  /** `Point4d(7, -9, 8, 7.4).wzxy == Point4d(7.4, 8, 7, -9)`. */
  lemma SwizzleExample4()
    ensures Swizzle(Make(Point4d, [7.0, -9.0, 8.0, 7.4]), "wzxy") == Some(Make(Point4d, [7.4, 8.0, 7.0, -9.0]))
  {
    var r := Swizzle(Make(Point4d, [7.0, -9.0, 8.0, 7.4]), "wzxy");
    assert r.Some?;
    assert r.value.coords == [7.4, 8.0, 7.0, -9.0];
  }

  // ---------------------------------------------------------------------
  // Distance

  function SumSquares(xs: seq<real>, ys: seq<real>): (r: real)
    requires |xs| <= |ys|
    ensures r >= 0.0
  {
    if xs == [] then 0.0
    else (ys[0] - xs[0]) * (ys[0] - xs[0]) + SumSquares(xs[1..], ys[1..])
  }

  /** The quantity under the square root of `p.distance(other)`:
      `sum((other[i] - p[i])**2 for each component i)`; an operand shorter
      than the point raises IndexError, extra entries are ignored. */
  function SquaredDistance(p: Point, other: seq<real>): (r: Result<real, OperatorError>)
    ensures r.Success? <==> |other| >= Arity(p.kind)
    ensures r.Success? ==> r.value >= 0.0
  {
    if |other| < Arity(p.kind) then Failure(IndexError) else Success(SumSquares(p.coords, other))
  }

  /** The quantity under the square root of `p.veclen()`, the distance to the
      all-zero point of the same class. */
  function SquaredVeclen(p: Point): (r: real)
    ensures r >= 0.0
    ensures r == 0.0 <==> forall i :: 0 <= i < Arity(p.kind) ==> p.coords[i] == 0.0
  {
    var origin := New(p.kind, [], map[]);
    NewPositional(p.kind, []);
    SquaresZero(p.coords, origin.coords);
    SquaredDistance(p, origin.coords).value
  }

  lemma {:induction false} SumSquaresSymmetric(xs: seq<real>, ys: seq<real>)
    requires |xs| == |ys|
    ensures SumSquares(xs, ys) == SumSquares(ys, xs)
  {
    if xs != [] {
      SumSquaresSymmetric(xs[1..], ys[1..]);
      assert (ys[0] - xs[0]) * (ys[0] - xs[0]) == (xs[0] - ys[0]) * (xs[0] - ys[0]);
    }
  }

  lemma MulPositive(a: real, b: real, s: real)
    requires a > 0.0 && b > 0.0 && s == a * b
    ensures s > 0.0
  {
  }

  lemma SquarePositive(d: real, s: real)
    requires d != 0.0 && s == d * d
    ensures s > 0.0
  {
    if d > 0.0 {
      MulPositive(d, d, s);
    } else {
      MulPositive(-d, -d, s);
    }
  }

  lemma {:induction false} SquaresZero(xs: seq<real>, ys: seq<real>)
    requires |xs| <= |ys|
    ensures SumSquares(xs, ys) == 0.0 <==> forall i :: 0 <= i < |xs| ==> xs[i] == ys[i]
  {
    if xs != [] {
      SquaresZero(xs[1..], ys[1..]);
      var d := ys[0] - xs[0];
      var sq := d * d;
      assert forall i :: 1 <= i < |xs| ==> xs[i] == xs[1..][i - 1] && ys[i] == ys[1..][i - 1];
      if d != 0.0 {
        SquarePositive(d, sq);
      }
    }
  }

  /** The distance between two points of one class is symmetric, and zero
      exactly between equal points. */
  lemma DistanceSymmetric(p: Point, q: Point)
    requires p.kind == q.kind
    ensures SquaredDistance(p, q.coords) == SquaredDistance(q, p.coords)
    ensures SquaredDistance(p, q.coords) == Success(0.0) <==> p == q
  {
    SumSquaresSymmetric(p.coords, q.coords);
    SquaresZero(p.coords, q.coords);
    if SquaredDistance(p, q.coords) == Success(0.0) {
      assert p.coords == q.coords;
    }
  }

  // ---------------------------------------------------------------------
  // Colours (`_color`, ColorRgb)

  datatype ColorError = NegativeColor(value: real) | ColorOutOfRange(value: real)

  /** `_color`: an integral value must be non-negative and becomes an int, any
      other value must lie in [0, 1] and stays a float. */
  function ColorValue(v: real): Result<Num, ColorError> {
    if Integral(v) then
      if v >= 0.0 then Success(Int(v.Floor)) else Failure(NegativeColor(v))
    else if 0.0 <= v <= 1.0 then Success(Float(v))
    else Failure(ColorOutOfRange(v))
  }

  /** The three outcomes of `_color`, and that an accepted value keeps its value. */
  lemma ColorValueSpec(v: real)
    ensures ColorValue(v).Success? <==> (Integral(v) && v >= 0.0) || (0.0 <= v <= 1.0)
    ensures ColorValue(v).Success? ==> ColorValue(v).value.Value() == v && ColorValue(v).value == Number(v)
    ensures ColorValue(v) == Failure(NegativeColor(v)) <==> Integral(v) && v < 0.0
    ensures ColorValue(v) == Failure(ColorOutOfRange(v)) <==> !Integral(v) && (v < 0.0 || v > 1.0)
  {
    if 0.0 <= v <= 1.0 && !Integral(v) {
      assert ColorValue(v) == Success(Float(v));
    }
  }

  /** What `_color` accepts again unchanged: re-coercing an accepted channel,
      as swizzling a colour does, gives the same channel back. */
  lemma ColorValueIdempotent(v: real)
    requires ColorValue(v).Success?
    ensures ColorValue(ColorValue(v).value.Value()) == ColorValue(v)
  {
    ColorValueSpec(v);
  }

  datatype Color = Rgb(r: Num, g: Num, b: Num)

  /** `ColorRgb(*args, **kwargs)`: the channels are filled like a point's
      components and coerced with `_color` in the order r, g, b; the first
      rejected channel raises. */
  function NewColorRgb(args: seq<real>, kwargs: map<string, real>): Result<Color, ColorError> {
    var values := Fill("rgb", args, kwargs);
    var r :- ColorValue(values[0]);
    var g :- ColorValue(values[1]);
    var b :- ColorValue(values[2]);
    Success(Rgb(r, g, b))
  }

  function Channel(c: Color, name: char): Num
    requires name in "rgb"
  {
    if name == 'r' then c.r else if name == 'g' then c.g else c.b
  }

  /** A colour swizzle: three channel names, building a new ColorRgb. */
  function ColorSwizzle(c: Color, attr: string): (r: Option<Color>)
    ensures r.Some? <==> |attr| == 3 && forall j :: 0 <= j < 3 ==> attr[j] in "rgb"
    ensures r.Some? ==> r.value == Rgb(Channel(c, attr[0]), Channel(c, attr[1]), Channel(c, attr[2]))
  {
    if |attr| == 3 && attr[0] in "rgb" && attr[1] in "rgb" && attr[2] in "rgb" then
      Some(Rgb(Channel(c, attr[0]), Channel(c, attr[1]), Channel(c, attr[2])))
    else None
  }

  /** `ColorRgb(255, 10, 100).gbr == ColorRgb(10, 100, 255)`, and the two
      rejected colours: 2.3 is a float outside [0, 1], -200 is negative. */
  lemma ColorExamples()
    ensures NewColorRgb([255.0, 10.0, 100.0], map[]) == Success(Rgb(Int(255), Int(10), Int(100)))
    ensures ColorSwizzle(Rgb(Int(255), Int(10), Int(100)), "gbr") == Some(Rgb(Int(10), Int(100), Int(255)))
    ensures NewColorRgb([2.3, 0.0, 0.0], map[]) == Failure(ColorOutOfRange(2.3))
    ensures NewColorRgb([-200.0, 0.0, 0.0], map[]) == Failure(NegativeColor(-200.0))
  {
    FillPositional("rgb", [255.0, 10.0, 100.0]);
    FillPositional("rgb", [2.3, 0.0, 0.0]);
    FillPositional("rgb", [-200.0, 0.0, 0.0]);
    assert (2.3).Floor == 2;
  }

  // ---------------------------------------------------------------------
  // Colour operators (BasePoint's dunders on a ColorRgb)

  /** The values of a colour's channels, r, g, b. */
  function ColorCoords(c: Color): (r: seq<real>)
    ensures |r| == 3
  {
    [c.r.Value(), c.g.Value(), c.b.Value()]
  }

  /** A colour as `_color` leaves it: every channel is what `_color` makes
      of its own value. Every ColorRgb the constructor builds is one. */
  predicate ValidColor(c: Color) {
    ColorValue(c.r.Value()) == Success(c.r) &&
    ColorValue(c.g.Value()) == Success(c.g) &&
    ColorValue(c.b.Value()) == Success(c.b)
  }

  /** The constructor builds valid colours whose channels take the values
      given, in order. */
  lemma NewColorRgbValid(values: seq<real>)
    requires |values| == 3 && NewColorRgb(values, map[]).Success?
    ensures ValidColor(NewColorRgb(values, map[]).value)
    ensures ColorCoords(NewColorRgb(values, map[]).value) == values
  {
    FillPositional("rgb", values);
    ColorValueIdempotent(values[0]);
    ColorValueIdempotent(values[1]);
    ColorValueIdempotent(values[2]);
    ColorValueSpec(values[0]);
    ColorValueSpec(values[1]);
    ColorValueSpec(values[2]);
  }

  /** A colour operator fails either in the component arithmetic or when the
      constructor re-coerces a resulting channel (ValueError). */
  datatype ColorOpError = OperatorFailed(op: OperatorError) | CoercionFailed(coercion: ColorError)

  /** Rebuilding the colour: `type(self)(*values)`. */
  function Recolor(values: Result<seq<real>, OperatorError>): Result<Color, ColorOpError> {
    match values
    case Failure(e) => Failure(OperatorFailed(e))
    case Success(v) =>
      match NewColorRgb(v, map[])
      case Failure(e) => Failure(CoercionFailed(e))
      case Success(c) => Success(c)
  }

  /** `c op other` on a ColorRgb: the channels are combined as a point's
      components are, and the new ColorRgb coerces each result with
      `_color`. */
  function ColorBinary(op: ArithOp, c: Color, other: Operand): Result<Color, ColorOpError> {
    var items := match other
      case Sequence(v) => v
      case Scalar(s) => [s, s, s];
    Recolor(Zip((a, b) => Apply(op, a, b), ColorCoords(c), items))
  }

  /** Colour arithmetic is the arithmetic of a three-component point on the
      channel values, followed by `_color` on every resulting component. */
  lemma ColorBinaryIsPointBinary(op: ArithOp, c: Color, other: Operand)
    ensures ColorBinary(op, c, other) ==
      match Binary(op, Make(Point3d, ColorCoords(c)), other)
      case Failure(e) => Failure(OperatorFailed(e))
      case Success(p) => Recolor(Success(p.coords))
  {
    var p := Make(Point3d, ColorCoords(c));
    var f := (a, b) => Apply(op, a, b);
    var items := match other
      case Sequence(v) => v
      case Scalar(s) => [s, s, s];
    assert items == match other
      case Sequence(v) => v
      case Scalar(s) => seq(Arity(p.kind), _ => s);
    var z := Zip(f, p.coords, items);
    assert Binary(op, p, other) == if z.Failure? then Failure(z.error) else Success(New(Point3d, z.value, map[]));
    if z.Success? {
      ZipSpec(f, p.coords, items);
      var q := New(Point3d, z.value, map[]);
      FillPositional("xyz", z.value);
      FillPositional("rgb", z.value);
      FillPositional("rgb", q.coords);
      assert Fill("rgb", z.value, map[]) == Fill("rgb", q.coords, map[]);
      SameChannels(z.value, q.coords);
    }
  }

  /** The constructor only sees the channels the arguments fill. */
  lemma SameChannels(a: seq<real>, b: seq<real>)
    requires Fill("rgb", a, map[]) == Fill("rgb", b, map[])
    ensures Recolor(Success(a)) == Recolor(Success(b))
  {
    assert NewColorRgb(a, map[]) == NewColorRgb(b, map[]);
  }

  /** A scalar operand: the result succeeds exactly when every channel's
      arithmetic succeeds and `_color` accepts every result, and then the
      new channels hold those results. */
  lemma ColorBinaryScalar(op: ArithOp, c: Color, s: real)
    ensures ColorBinary(op, c, Scalar(s)).Success? <==>
      forall i :: 0 <= i < 3 ==>
        Apply(op, ColorCoords(c)[i], s).Success? && ColorValue(Apply(op, ColorCoords(c)[i], s).value).Success?
    ensures ColorBinary(op, c, Scalar(s)).Success? ==>
      var r := ColorBinary(op, c, Scalar(s)).value;
      ValidColor(r) && forall i :: 0 <= i < 3 ==> ColorCoords(r)[i] == Apply(op, ColorCoords(c)[i], s).value
  {
    var f := (a, b) => Apply(op, a, b);
    var xs := ColorCoords(c);
    ZipSpec(f, xs, [s, s, s]);
    var z := Zip(f, xs, [s, s, s]);
    if z.Success? {
      FillPositional("rgb", z.value);
      if NewColorRgb(z.value, map[]).Success? {
        NewColorRgbValid(z.value);
      }
    }
  }

  /** `ColorRgb(1, 1, 1) - 2` and `ColorRgb(0.5, 0, 0) * 3` raise ValueError
      when the result is coerced, while `ColorRgb(10, 20, 30) + 5` is
      `ColorRgb(15, 25, 35)`. */
  lemma ColorArithmeticExamples()
    ensures ColorBinary(Sub, Rgb(Int(1), Int(1), Int(1)), Scalar(2.0)) == Failure(CoercionFailed(NegativeColor(-1.0)))
    ensures ColorBinary(Mul, Rgb(Float(0.5), Int(0), Int(0)), Scalar(3.0)) == Failure(CoercionFailed(ColorOutOfRange(1.5)))
    ensures ColorBinary(Add, Rgb(Int(10), Int(20), Int(30)), Scalar(5.0)) == Success(Rgb(Int(15), Int(25), Int(35)))
  {
    FillPositional("rgb", [-1.0, -1.0, -1.0]);
    FillPositional("rgb", [1.5, 0.0, 0.0]);
    FillPositional("rgb", [15.0, 25.0, 35.0]);
    assert (1.5).Floor == 1;
    assert (15.0).Floor == 15 && (25.0).Floor == 25 && (35.0).Floor == 35;
    assert NewColorRgb([15.0, 25.0, 35.0], map[]) == Success(Rgb(Int(15), Int(25), Int(35)));
  }

  /** `-c`: only the black colour can be negated; any other valid colour has
      a channel whose negation `_color` rejects. */
  function ColorNegate(c: Color): Result<Color, ColorOpError> {
    Recolor(Success([-c.r.Value(), -c.g.Value(), -c.b.Value()]))
  }

  lemma ColorNegateSpec(c: Color)
    requires ValidColor(c)
    ensures ColorNegate(c).Success? <==> ColorCoords(c) == [0.0, 0.0, 0.0]
    ensures ColorNegate(c).Success? ==> ColorNegate(c) == Success(c)
  {
    var v := [-c.r.Value(), -c.g.Value(), -c.b.Value()];
    FillPositional("rgb", v);
    ColorValueSpec(c.r.Value());
    ColorValueSpec(c.g.Value());
    ColorValueSpec(c.b.Value());
    ColorValueSpec(v[0]);
    ColorValueSpec(v[1]);
    ColorValueSpec(v[2]);
  }

  /** `abs(c)`. */
  function ColorAbsolute(c: Color): Result<Color, ColorOpError> {
    Recolor(Success([AbsValue(c.r.Value()), AbsValue(c.g.Value()), AbsValue(c.b.Value())]))
  }

  /** `round(c)`: half to even on each channel. */
  function ColorRounded(c: Color): Result<Color, ColorOpError> {
    Recolor(Success([Numerals.RoundHalfEven(c.r.Value()) as real, Numerals.RoundHalfEven(c.g.Value()) as real,
                     Numerals.RoundHalfEven(c.b.Value()) as real]))
  }

  /** abs leaves a valid colour as it is, and round turns it into a valid
      colour of int channels, each within one half of the old value. */
  lemma ColorAbsoluteRounded(c: Color)
    requires ValidColor(c)
    ensures ColorAbsolute(c) == Success(c)
    ensures ColorRounded(c).Success? &&
      var r := ColorRounded(c).value;
      ValidColor(r) && r.r.Int? && r.g.Int? && r.b.Int? &&
      forall i :: 0 <= i < 3 ==> AbsValue(ColorCoords(r)[i] - ColorCoords(c)[i]) <= 0.5
  {
    var xs := ColorCoords(c);
    ColorValueSpec(xs[0]);
    ColorValueSpec(xs[1]);
    ColorValueSpec(xs[2]);
    FillPositional("rgb", [xs[0], xs[1], xs[2]]);
    assert [AbsValue(xs[0]), AbsValue(xs[1]), AbsValue(xs[2])] == xs;
    var v := [Numerals.RoundHalfEven(xs[0]) as real, Numerals.RoundHalfEven(xs[1]) as real, Numerals.RoundHalfEven(xs[2]) as real];
    Numerals.RoundAtLeast(0, xs[0]);
    Numerals.RoundAtLeast(0, xs[1]);
    Numerals.RoundAtLeast(0, xs[2]);
    FillPositional("rgb", v);
    assert NewColorRgb(v, map[]).Success?;
    NewColorRgbValid(v);
  }

  /** `c[index]`: a channel by position in range(3) or by name. */
  function ColorGetItem(c: Color, index: Index): Result<Num, OperatorError> {
    match index
    case Position(i) => if 0 <= i < 3 then Success(Channel(c, "rgb"[i])) else Failure(IndexError)
    case Name(n) => if |n| == 1 && n[0] in "rgb" then Success(Channel(c, n[0])) else Failure(IndexError)
  }

  /** Access by position and by name agree, and read the channel of a
      colour's point of channel values. */
  lemma ColorGetItemSpec(c: Color, index: Index)
    ensures ColorGetItem(c, index).Success? <==>
      match index
      case Position(i) => 0 <= i < 3
      case Name(n) => n == "r" || n == "g" || n == "b"
    ensures forall i :: 0 <= i < 3 ==>
      ColorGetItem(c, Name(["rgb"[i]])) == ColorGetItem(c, Position(i)) &&
      ColorGetItem(c, Position(i)).value.Value() == ColorCoords(c)[i]
  {
    if index.Name? && |index.name| == 1 && index.name[0] in "rgb" {
      assert index.name == [index.name[0]];
    }
  }

  /** `c > other` and the other comparisons: the comparisons of the
      three-component point of channel values. */
  function ColorCompare(op: CmpOp, c: Color, other: Operand): (r: Result<seq<bool>, OperatorError>)
    ensures r == Compare(op, Make(Point3d, ColorCoords(c)), other)
  {
    var items := match other
      case Sequence(v) => v
      case Scalar(s) => [s, s, s];
    assert items == match other
      case Sequence(v) => v
      case Scalar(s) => seq(3, _ => s);
    Zip((a, b) => Success(Holds(op, a, b)), ColorCoords(c), items)
  }
}
