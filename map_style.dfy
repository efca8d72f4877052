/**
 * The drawing rules both world map widgets share (src/widgets/world_map.rs,
 * and its earlier copy in src/widgets.rs): the colour of a country derived
 * from the bytes of its ISO-3 code, and the projection of unit-square outlines
 * into a canvas frame with letterboxing. Colours and coordinates are reals;
 * the Rust code uses f32.
 */
module MapStyle {
  import opened Wrappers
  import opened Geometry

  /** An RGB colour, each channel nominally in [0, 1]. */
  datatype Color = Rgb(r: real, g: real, b: real)

  const Black: Color := Rgb(0.0, 0.0, 0.0)
  const Green: Color := Rgb(0.0, 1.0, 0.0)
  const Gray: Color := Rgb(0.7, 0.7, 0.7)

  const ByteA: u8 := 65
  const ByteZ: u8 := 90

  /** `color_component_from_ascii`: `(c - b'A') / 26`; the u8 subtraction panics below 'A'. */
  function Component(c: u8): real
    requires c >= ByteA
  {
    (c - ByteA) as real / 26.0
  }

  /** Upper-case letters give channels from 0 ('A') to 25/26 ('Z'), and a later letter is strictly brighter. */
  lemma ComponentOrder(c: u8, d: u8)
    requires ByteA <= c <= ByteZ && ByteA <= d <= ByteZ
    ensures 0.0 <= Component(c) <= 25.0 / 26.0
    ensures Component(c) == 0.0 <==> c == ByteA
    ensures Component(c) == 25.0 / 26.0 <==> c == ByteZ
    ensures c < d <==> Component(c) < Component(d)
  {
  }

  /** The bytes `color_from_ascii` reads: at least three (else an index panic), none of them below 'A'. */
  predicate AsciiColorDefined(bytes: seq<u8>) {
    |bytes| >= 3 && bytes[0] >= ByteA && bytes[1] >= ByteA && bytes[2] >= ByteA
  }

  /** `color_from_ascii`: one channel from each of the first three bytes. */
  function ColorFromAscii(bytes: seq<u8>): (c: Color)
    requires AsciiColorDefined(bytes)
  {
    Rgb(Component(bytes[0]), Component(bytes[1]), Component(bytes[2]))
  }

  /**
   * The "lightening" of an unvisited country's byte: `b'Z' - (b'Z' - c) / 8`
   * in u8 arithmetic, which panics above 'Z'. It moves the byte towards 'Z',
   * never past it, and never below 'O', so the result is a valid colour byte.
   */
  function Lighten(c: u8): (r: u8)
    requires c <= ByteZ
    ensures c <= r <= ByteZ
    ensures r >= 79
    ensures r == ByteZ <==> c >= 83
  {
    ByteZ - (ByteZ - c) / 8
  }

  /** 'A' lightens to 'W', 'Z' stays 'Z'. */
  lemma LightenExamples()
    ensures Lighten(ByteA) == 87
    ensures Lighten(ByteZ) == ByteZ
  {
  }

  // ---------------------------------------------------------------------------
  // Projector (`draw_polygon`)
  // ---------------------------------------------------------------------------

  /** Width over height of the SVG canvas. */
  const SvgAspect: real := SvgWidth / SvgHeight

  /** Where the map lands in a frame: its rendered size and its top-left offset. */
  datatype Viewport = Viewport(size: Point, offset: Point)

  /**
   * The letterbox fit: when the canvas is wider than the frame, use the full
   * width and centre vertically; otherwise use the full height and centre
   * horizontally.
   */
  function Fit(w: real, h: real): (v: Viewport)
    requires w > 0.0 && h > 0.0
    ensures v.size.x * SvgHeight == v.size.y * SvgWidth
    ensures 0.0 < v.size.x <= w && 0.0 < v.size.y <= h
    ensures v.size.x == w || v.size.y == h
    ensures 0.0 <= v.offset.x && 0.0 <= v.offset.y
    ensures 2.0 * v.offset.x + v.size.x == w && 2.0 * v.offset.y + v.size.y == h
  {
    if SvgAspect > w / h then
      var size := Point(w, w / SvgAspect);
      Viewport(size, Point(0.0, (h - size.y) / 2.0))
    else
      var size := Point(h * SvgAspect, h);
      Viewport(size, Point((w - size.x) / 2.0, 0.0))
  }

  /** A unit-square point scaled to the rendered size and shifted by the offset. */
  function Project(p: Point, v: Viewport): Point {
    Add(Mul(p, v.size), v.offset)
  }

  /** One axis of the projection: a fraction of the size, shifted by an offset that leaves room for the size. */
  lemma AxisInside(t: real, size: real, offset: real, bound: real)
    requires 0.0 <= t < 1.0 && 0.0 < size && 0.0 <= offset && 2.0 * offset + size == bound
    ensures 0.0 <= t * size + offset < bound
  {
    assert t * size < 1.0 * size;
  }

  /** Every point of the unit square lands inside the frame. */
  lemma ProjectInside(p: Point, w: real, h: real)
    requires w > 0.0 && h > 0.0 && InUnitSquare(p)
    ensures 0.0 <= Project(p, Fit(w, h)).x < w
    ensures 0.0 <= Project(p, Fit(w, h)).y < h
  {
    var v := Fit(w, h);
    AxisInside(p.x, v.size.x, v.offset.x, w);
    AxisInside(p.y, v.size.y, v.offset.y, h);
  }

  /** The commands of an iced `Path`. */
  datatype PathOp = MoveTo(to: Point) | LineTo(to: Point) | ClosePath

  /** One `frame.fill` plus `frame.stroke` of a path (stroke width 1). */
  datatype Shape = Shape(path: seq<PathOp>, fill: Color, stroke: Color)

  /** Regrouping shape lists, the step both widgets' drawing loops take when they append a country's shapes. */
  lemma ConcatAssoc(a: seq<Shape>, b: seq<Shape>, c: seq<Shape>)
    ensures a + b + c == a + (b + c)
  {
  }

  /** The path of one polygon: move to the first point, a line to each further point, then close. */
  function Outline(polygon: Polygon, v: Viewport): seq<PathOp>
    decreases |polygon|
  {
    if polygon == [] then []
    else [MoveTo(Project(polygon[0], v))] + LinesTo(polygon[1..], v) + [ClosePath]
  }

  function LinesTo(points: seq<Point>, v: Viewport): seq<PathOp> {
    seq(|points|, i requires 0 <= i < |points| => LineTo(Project(points[i], v)))
  }

  /** The path visits the projected points in order, one command each, and is closed. */
  lemma OutlineShape(polygon: Polygon, v: Viewport)
    ensures polygon == [] <==> Outline(polygon, v) == []
    ensures polygon != [] ==>
            |Outline(polygon, v)| == |polygon| + 1 &&
            Outline(polygon, v)[0] == MoveTo(Project(polygon[0], v)) &&
            (forall i :: 0 < i < |polygon| ==> Outline(polygon, v)[i] == LineTo(Project(polygon[i], v))) &&
            Outline(polygon, v)[|polygon|] == ClosePath
  {
  }

  /** The closure passed to `Path::new`: a loop over the projected points. */
  method TracePolygon(polygon: Polygon, v: Viewport) returns (ops: seq<PathOp>)
    ensures ops == Outline(polygon, v)
  {
    if polygon == [] {
      return [];
    }
    ops := [MoveTo(Project(polygon[0], v))];
    var i := 1;
    while i < |polygon|
      invariant 1 <= i <= |polygon|
      invariant ops == [MoveTo(Project(polygon[0], v))] + LinesTo(polygon[1..i], v)
    {
      assert LinesTo(polygon[1..i + 1], v) == LinesTo(polygon[1..i], v) + [LineTo(Project(polygon[i], v))];
      ops := ops + [LineTo(Project(polygon[i], v))];
      i := i + 1;
    }
    assert polygon[1..i] == polygon[1..];
    ops := ops + [ClosePath];
  }
}
