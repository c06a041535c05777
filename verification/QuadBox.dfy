/** The affine mapping of boxes in docmirror/evidence/plane.py, over the reals. */
module QuadBox {

  /** The first two rows of the coordinate matrix. */
  datatype Matrix = Matrix(a: real, b: real, c: real, d: real, e: real, f: real)

  datatype Point = Point(x: real, y: real)

  /** A box as two corners, in any order. */
  datatype Box = Box(x0: real, y0: real, x1: real, y1: real)

  function Form(a: real, b: real, c: real, x: real, y: real): real {
    a * x + b * y + c
  }

  /** `_apply_coordinate_matrix`. */
  function Apply(m: Matrix, p: Point): Point {
    Point(Form(m.a, m.b, m.c, p.x, p.y), Form(m.d, m.e, m.f, p.x, p.y))
  }

  /** The third column of the matrix is the image of the origin; the others are the images of the unit vectors from there. */
  lemma ColumnsAreImages(m: Matrix)
    ensures Apply(m, Point(0.0, 0.0)) == Point(m.c, m.f)
    ensures Apply(m, Point(1.0, 0.0)) == Point(m.a + m.c, m.d + m.f)
    ensures Apply(m, Point(0.0, 1.0)) == Point(m.b + m.c, m.e + m.f)
  {
  }

  // ----- Rounding -----

  /** Rounding to an integer, ties to even. */
  function RoundEven(x: real): int {
    var low := x.Floor;
    var rest := x - low as real;
    if rest < 0.5 then low else if rest > 0.5 then low + 1 else if low % 2 == 0 then low else low + 1
  }

  /** `round(value, 4)`. */
  function Round4(x: real): real {
    RoundEven(x * 10000.0) as real / 10000.0
  }

  lemma RoundEvenClose(x: real)
    ensures x - 0.5 <= RoundEven(x) as real <= x + 0.5
  {
  }

  lemma RoundEvenMonotone(x: real, y: real)
    requires x <= y
    ensures RoundEven(x) <= RoundEven(y)
  {
    assert x.Floor <= y.Floor;
  }

  lemma RoundEvenInteger(n: int)
    ensures RoundEven(n as real) == n
  {
  }

  /** Halfway between two integers the even one is taken. */
  lemma TiesToEven(n: int)
    ensures RoundEven(n as real + 0.5) % 2 == 0
  {
    assert (n as real + 0.5).Floor == n;
  }

  lemma Round4Close(x: real)
    ensures x - 0.00005 <= Round4(x) <= x + 0.00005
  {
    RoundEvenClose(x * 10000.0);
  }

  /** The rounded number has four decimal places. */
  lemma FourPlaces(x: real)
    ensures (Round4(x) * 10000.0).Floor as real == Round4(x) * 10000.0
  {
    WholePlaces(RoundEven(x * 10000.0));
  }

  lemma WholePlaces(n: int)
    ensures (n as real / 10000.0 * 10000.0).Floor as real == n as real / 10000.0 * 10000.0
  {
    assert n as real / 10000.0 * 10000.0 == n as real;
  }

  lemma Round4Monotone(x: real, y: real)
    requires x <= y
    ensures Round4(x) <= Round4(y)
  {
    RoundEvenMonotone(x * 10000.0, y * 10000.0);
  }

  lemma Round4Twice(x: real)
    ensures Round4(Round4(x)) == Round4(x)
  {
    var n := RoundEven(x * 10000.0);
    RoundEvenInteger(n);
    assert Round4(x) * 10000.0 == n as real;
  }

  // ----- Boxes -----

  function Corners(box: Box): seq<Point> {
    [Point(box.x0, box.y0), Point(box.x1, box.y0), Point(box.x1, box.y1), Point(box.x0, box.y1)]
  }

  function RoundPoint(p: Point): Point {
    Point(Round4(p.x), Round4(p.y))
  }

  /** `_transform_quad_with_matrix`. */
  function TransformQuad(m: Matrix, box: Box): seq<Point> {
    [RoundPoint(Apply(m, Corners(box)[0])), RoundPoint(Apply(m, Corners(box)[1])),
     RoundPoint(Apply(m, Corners(box)[2])), RoundPoint(Apply(m, Corners(box)[3]))]
  }

  function Least(xs: seq<real>): (r: real)
    requires |xs| > 0
    ensures r in xs && forall x | x in xs :: r <= x
  {
    if |xs| == 1 then xs[0]
    else
      assert xs == [xs[0]] + xs[1..];
      var rest := Least(xs[1..]);
      if xs[0] <= rest then xs[0] else rest
  }

  function Greatest(xs: seq<real>): (r: real)
    requires |xs| > 0
    ensures r in xs && forall x | x in xs :: x <= r
  {
    if |xs| == 1 then xs[0]
    else
      assert xs == [xs[0]] + xs[1..];
      var rest := Greatest(xs[1..]);
      if xs[0] >= rest then xs[0] else rest
  }

  function Xs(points: seq<Point>): (r: seq<real>)
    ensures |r| == |points| && forall i | 0 <= i < |r| :: r[i] == points[i].x
  {
    seq(|points|, i requires 0 <= i < |points| => points[i].x)
  }

  function Ys(points: seq<Point>): (r: seq<real>)
    ensures |r| == |points| && forall i | 0 <= i < |r| :: r[i] == points[i].y
  {
    seq(|points|, i requires 0 <= i < |points| => points[i].y)
  }

  function Bounds(points: seq<Point>): Box
    requires |points| > 0
  {
    Box(Least(Xs(points)), Least(Ys(points)), Greatest(Xs(points)), Greatest(Ys(points)))
  }

  function RoundBox(box: Box): Box {
    Box(Round4(box.x0), Round4(box.y0), Round4(box.x1), Round4(box.y1))
  }

  /** `_quad_bbox`. */
  function QuadBbox(points: seq<Point>): Box
    requires |points| > 0
  {
    RoundBox(Bounds(points))
  }

  /** `_transform_bbox_with_matrix`. */
  function TransformBbox(m: Matrix, box: Box): Box {
    QuadBbox(TransformQuad(m, box))
  }

  /** The corners' images before any rounding. */
  function Images(m: Matrix, box: Box): seq<Point> {
    [Apply(m, Corners(box)[0]), Apply(m, Corners(box)[1]), Apply(m, Corners(box)[2]), Apply(m, Corners(box)[3])]
  }

  predicate Between(x: real, a: real, b: real) {
    a <= x <= b || b <= x <= a
  }

  /** The point lies in the rectangle with the given corners. */
  predicate Inside(p: Point, box: Box) {
    Between(p.x, box.x0, box.x1) && Between(p.y, box.y0, box.y1)
  }

  predicate Covers(box: Box, p: Point) {
    box.x0 <= p.x <= box.x1 && box.y0 <= p.y <= box.y1
  }

  // ----- The exact bounds -----

  lemma ScaleBetween(a: real, x: real, x0: real, x1: real)
    requires Between(x, x0, x1)
    ensures Between(a * x, a * x0, a * x1)
  {
    if a >= 0.0 {
      Scale(a, x0, x);
      Scale(a, x, x1);
      Scale(a, x1, x);
      Scale(a, x, x0);
    } else {
      Scale(-a, x0, x);
      Scale(-a, x, x1);
      Scale(-a, x1, x);
      Scale(-a, x, x0);
    }
  }

  lemma Scale(a: real, x: real, y: real)
    requires a >= 0.0
    ensures x <= y ==> a * x <= a * y
  {
    if x <= y {
      assert a * (y - x) >= 0.0;
    }
  }

  /** A sum of two terms, each between its two ends, is between the least and the greatest sum of ends. */
  lemma SumBetween(u: real, v: real, u0: real, u1: real, v0: real, v1: real, w: real, low: real, high: real)
    requires Between(u, u0, u1) && Between(v, v0, v1)
    requires low <= u0 + v0 + w <= high && low <= u1 + v0 + w <= high
    requires low <= u1 + v1 + w <= high && low <= u0 + v1 + w <= high
    ensures low <= u + v + w <= high
  {
  }

  /** An affine form on a rectangle is bounded by its values at the corners. */
  lemma CornersBound(a: real, b: real, c: real, x: real, y: real, box: Box, low: real, high: real)
    requires Between(x, box.x0, box.x1) && Between(y, box.y0, box.y1)
    requires low <= Form(a, b, c, box.x0, box.y0) <= high && low <= Form(a, b, c, box.x1, box.y0) <= high
    requires low <= Form(a, b, c, box.x1, box.y1) <= high && low <= Form(a, b, c, box.x0, box.y1) <= high
    ensures low <= Form(a, b, c, x, y) <= high
  {
    FormIs(a, b, c, box.x0, box.y0, a * box.x0, b * box.y0, low, high);
    FormIs(a, b, c, box.x1, box.y0, a * box.x1, b * box.y0, low, high);
    FormIs(a, b, c, box.x1, box.y1, a * box.x1, b * box.y1, low, high);
    FormIs(a, b, c, box.x0, box.y1, a * box.x0, b * box.y1, low, high);
    ProductsBound(a, b, c, x, y, box, a * x, b * y, a * box.x0, a * box.x1, b * box.y0, b * box.y1, low, high);
    FormIs(a, b, c, x, y, a * x, b * y, low, high);
  }

  /** The same with names for the products. */
  lemma ProductsBound(a: real, b: real, c: real, x: real, y: real, box: Box, u: real, v: real,
                      u0: real, u1: real, v0: real, v1: real, low: real, high: real)
    requires u == a * x && u0 == a * box.x0 && u1 == a * box.x1 && Between(x, box.x0, box.x1)
    requires v == b * y && v0 == b * box.y0 && v1 == b * box.y1 && Between(y, box.y0, box.y1)
    requires low <= u0 + v0 + c <= high && low <= u1 + v0 + c <= high
    requires low <= u1 + v1 + c <= high && low <= u0 + v1 + c <= high
    ensures low <= u + v + c <= high
  {
    ProductBetween(a, x, box.x0, box.x1, u, u0, u1);
    ProductBetween(b, y, box.y0, box.y1, v, v0, v1);
    SumBetween(u, v, u0, u1, v0, v1, c, low, high);
  }

  lemma ProductBetween(a: real, x: real, x0: real, x1: real, u: real, u0: real, u1: real)
    requires Between(x, x0, x1) && u == a * x && u0 == a * x0 && u1 == a * x1
    ensures Between(u, u0, u1)
  {
    ScaleBetween(a, x, x0, x1);
  }

  lemma FormIs(a: real, b: real, c: real, x: real, y: real, u: real, v: real, low: real, high: real)
    requires u == a * x && v == b * y
    ensures low <= Form(a, b, c, x, y) <= high <==> low <= u + v + c <= high
  {
  }

  lemma BoundsHold(points: seq<Point>, i: nat)
    requires i < |points|
    ensures Covers(Bounds(points), points[i])
  {
    assert Xs(points)[i] in Xs(points) && Ys(points)[i] in Ys(points);
  }

  lemma ImageCovered(m: Matrix, box: Box, p: Point, target: Box)
    requires Inside(p, box)
    requires Covers(target, Apply(m, Point(box.x0, box.y0))) && Covers(target, Apply(m, Point(box.x1, box.y0)))
    requires Covers(target, Apply(m, Point(box.x1, box.y1))) && Covers(target, Apply(m, Point(box.x0, box.y1)))
    ensures Covers(target, Apply(m, p))
  {
    CornersBound(m.a, m.b, m.c, p.x, p.y, box, target.x0, target.x1);
    CornersBound(m.d, m.e, m.f, p.x, p.y, box, target.y0, target.y1);
  }

  /** The unrounded bounds cover the image of every point of the rectangle. */
  lemma BoundsCoverImage(m: Matrix, box: Box, p: Point)
    requires Inside(p, box)
    ensures Covers(Bounds(Images(m, box)), Apply(m, p))
  {
    forall i | 0 <= i < 4 ensures Covers(Bounds(Images(m, box)), Apply(m, Corners(box)[i])) {
      BoundsHold(Images(m, box), i);
      assert Images(m, box)[i] == Apply(m, Corners(box)[i]);
    }
    CornersMatter(m, box, p, Bounds(Images(m, box)));
  }

  lemma CornersMatter(m: Matrix, box: Box, p: Point, target: Box)
    requires Inside(p, box) && forall i | 0 <= i < 4 :: Covers(target, Apply(m, Corners(box)[i]))
    ensures Covers(target, Apply(m, p))
  {
    assert Covers(target, Apply(m, Corners(box)[0])) && Covers(target, Apply(m, Corners(box)[1]));
    assert Covers(target, Apply(m, Corners(box)[2])) && Covers(target, Apply(m, Corners(box)[3]));
    ImageCovered(m, box, p, target);
  }

  ghost predicate CoversImage(m: Matrix, box: Box, target: Box) {
    forall p | Inside(p, box) :: Covers(target, Apply(m, p))
  }

  predicate Contains(outer: Box, inner: Box) {
    outer.x0 <= inner.x0 && outer.y0 <= inner.y0 && inner.x1 <= outer.x1 && inner.y1 <= outer.y1
  }

  /** The unrounded bounds are the tightest box: a box covers the image exactly when it contains them. */
  lemma BoundsAreTight(m: Matrix, box: Box, target: Box)
    ensures CoversImage(m, box, target) <==> Contains(target, Bounds(Images(m, box)))
  {
    if Contains(target, Bounds(Images(m, box))) {
      forall p | Inside(p, box) ensures Covers(target, Apply(m, p)) {
        BoundsCoverImage(m, box, p);
      }
    }
    if CoversImage(m, box, target) {
      forall i | 0 <= i < 4 ensures Covers(target, Images(m, box)[i]) {
        assert Inside(Corners(box)[i], box) && Images(m, box)[i] == Apply(m, Corners(box)[i]);
      }
      CornersDecide(Images(m, box), target);
    }
  }

  lemma CornersDecide(points: seq<Point>, target: Box)
    requires |points| > 0 && forall i | 0 <= i < |points| :: Covers(target, points[i])
    ensures Contains(target, Bounds(points))
  {
    var b := Bounds(points);
    var i :| 0 <= i < |points| && Xs(points)[i] == b.x0;
    var j :| 0 <= j < |points| && Xs(points)[j] == b.x1;
    var k :| 0 <= k < |points| && Ys(points)[k] == b.y0;
    var l :| 0 <= l < |points| && Ys(points)[l] == b.y1;
    assert Covers(target, points[i]) && Covers(target, points[j]) && Covers(target, points[k]) && Covers(target, points[l]);
  }

  // ----- The rounded bounds -----

  function RoundAll(xs: seq<real>): (r: seq<real>)
    ensures |r| == |xs| && forall i | 0 <= i < |r| :: r[i] == Round4(xs[i])
  {
    seq(|xs|, i requires 0 <= i < |xs| => Round4(xs[i]))
  }

  /** Rounding is monotone, so it commutes with minimum and maximum. */
  lemma RoundedMin(xs: seq<real>)
    requires |xs| > 0
    ensures Least(RoundAll(xs)) == Round4(Least(xs))
  {
    var i :| 0 <= i < |xs| && xs[i] == Least(xs);
    var j :| 0 <= j < |xs| && RoundAll(xs)[j] == Least(RoundAll(xs));
    assert RoundAll(xs)[i] in RoundAll(xs) && xs[j] in xs;
    Round4Monotone(Least(xs), xs[j]);
  }

  lemma RoundedMax(xs: seq<real>)
    requires |xs| > 0
    ensures Greatest(RoundAll(xs)) == Round4(Greatest(xs))
  {
    var i :| 0 <= i < |xs| && xs[i] == Greatest(xs);
    var j :| 0 <= j < |xs| && RoundAll(xs)[j] == Greatest(RoundAll(xs));
    assert RoundAll(xs)[i] in RoundAll(xs) && xs[j] in xs;
    Round4Monotone(xs[j], Greatest(xs));
  }

  /** Rounding the corners and then the box is rounding the exact bounds once. */
  lemma RoundedOnce(m: Matrix, box: Box)
    ensures TransformBbox(m, box) == RoundBox(Bounds(Images(m, box)))
  {
    var exact, rounded := Images(m, box), TransformQuad(m, box);
    assert forall i | 0 <= i < 4 :: rounded[i] == RoundPoint(exact[i]);
    assert Xs(rounded) == RoundAll(Xs(exact)) && Ys(rounded) == RoundAll(Ys(exact));
    RoundedMin(Xs(exact));
    RoundedMin(Ys(exact));
    RoundedMax(Xs(exact));
    RoundedMax(Ys(exact));
    var b := Bounds(exact);
    Round4Twice(b.x0);
    Round4Twice(b.y0);
    Round4Twice(b.x1);
    Round4Twice(b.y1);
  }

  predicate Near(x: real, y: real) {
    y - 0.00005 <= x <= y + 0.00005
  }

  /** The rounded box is off by at most 0.00005 per edge. */
  lemma RoundedBoxIsNear(m: Matrix, box: Box)
    ensures var exact, rounded := Bounds(Images(m, box)), TransformBbox(m, box);
            Near(rounded.x0, exact.x0) && Near(rounded.y0, exact.y0) && Near(rounded.x1, exact.x1) && Near(rounded.y1, exact.y1)
  {
    RoundedOnce(m, box);
    var b := Bounds(Images(m, box));
    Round4Close(b.x0);
    Round4Close(b.y0);
    Round4Close(b.x1);
    Round4Close(b.y1);
  }

  /** The rounded box still covers the image exactly when no edge is rounded inwards. */
  lemma RoundedCoversIff(m: Matrix, box: Box)
    ensures var b := Bounds(Images(m, box));
            CoversImage(m, box, TransformBbox(m, box))
            <==> Round4(b.x0) <= b.x0 && Round4(b.y0) <= b.y0 && b.x1 <= Round4(b.x1) && b.y1 <= Round4(b.y1)
  {
    RoundedOnce(m, box);
    BoundsAreTight(m, box, TransformBbox(m, box));
  }

  const IDENTITY := Matrix(1.0, 0.0, 0.0, 0.0, 1.0, 0.0)

  lemma IdentityBounds(box: Box)
    requires box.x0 <= box.x1 && box.y0 <= box.y1
    ensures Bounds(Images(IDENTITY, box)) == box
  {
    BoundsHold(Images(IDENTITY, box), 0);
    BoundsHold(Images(IDENTITY, box), 2);
    CornersDecide(Images(IDENTITY, box), box);
  }

  /** An edge can be rounded inwards: the identity on a box that starts at 0.00006. */
  lemma RoundedCanMiss()
    ensures !CoversImage(IDENTITY, Box(0.00006, 0.0, 1.0, 1.0), TransformBbox(IDENTITY, Box(0.00006, 0.0, 1.0, 1.0)))
  {
    IdentityBounds(Box(0.00006, 0.0, 1.0, 1.0));
    RoundedCoversIff(IDENTITY, Box(0.00006, 0.0, 1.0, 1.0));
    assert 0.00006 * 10000.0 == 0.6 && RoundEven(0.6) == 1;
  }

  /** Mapping a box forth and its bounds back covers the box again. */
  lemma ThereAndBack(m: Matrix, inverse: Matrix, box: Box, p: Point)
    requires forall q :: Apply(inverse, Apply(m, q)) == q
    requires Inside(p, box)
    ensures Covers(Bounds(Images(inverse, Bounds(Images(m, box)))), p)
  {
    BoundsCoverImage(m, box, p);
    BoundsCoverImage(inverse, Bounds(Images(m, box)), Apply(m, p));
  }
}
