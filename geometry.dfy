/**
 * Points and polygons of the country outlines, and the normalisation of SVG
 * canvas coordinates into the unit square (src/svg_helper.rs).
 * Coordinates are exact reals; the Rust code uses f32.
 */
module Geometry {

  datatype Point = Point(x: real, y: real)

  /** `impl Add<&Point> for Point`. */
  function Add(a: Point, b: Point): Point {
    Point(a.x + b.x, a.y + b.y)
  }

  /** `impl Mul<&Point> for Point`: component-wise, used to scale by a size. */
  function Mul(a: Point, b: Point): Point {
    Point(a.x * b.x, a.y * b.y)
  }

  /** Both operators act on each coordinate separately, so they obey the laws of the reals per axis. */
  lemma PointAlgebra(a: Point, b: Point, c: Point)
    ensures Add(a, b) == Add(b, a) && Add(Add(a, b), c) == Add(a, Add(b, c))
    ensures Add(a, Point(0.0, 0.0)) == a
    ensures Mul(a, b) == Mul(b, a) && Mul(a, Point(1.0, 1.0)) == a
    ensures Mul(Add(a, b), c) == Add(Mul(a, c), Mul(b, c))
  {
  }

  /** One closed outline; the last point is implicitly joined to the first. */
  type Polygon = seq<Point>

  /** The declared size of every SVG document of the catalogue. */
  const SvgWidth: real := 2000.0
  const SvgHeight: real := 857.0

  predicate InCanvas(p: Point) {
    0.0 <= p.x < SvgWidth && 0.0 <= p.y < SvgHeight
  }

  predicate InUnitSquare(p: Point) {
    0.0 <= p.x < 1.0 && 0.0 <= p.y < 1.0
  }

  /** `scale_polygon`: every point divided by the canvas size, count and order kept. */
  function ScalePolygon(polygon: Polygon): (r: Polygon)
    ensures |r| == |polygon|
    ensures forall i :: 0 <= i < |r| ==> Mul(r[i], Point(SvgWidth, SvgHeight)) == polygon[i]
  {
    seq(|polygon|, i requires 0 <= i < |polygon| => Point(polygon[i].x / SvgWidth, polygon[i].y / SvgHeight))
  }

  /** A point inside the canvas lands in the unit square, and nothing outside it does. */
  lemma ScaleBounds(polygon: Polygon, i: int)
    requires 0 <= i < |polygon|
    ensures InCanvas(polygon[i]) <==> InUnitSquare(ScalePolygon(polygon)[i])
  {
  }
}
