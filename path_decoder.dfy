/**
 * The SVG path decoder of src/svg_helper.rs (`polygons_from_svg`): it walks
 * the `<path>` elements of a document and splits their command lists into
 * polygons, supporting the M/m, L/l and Z/z commands of section 8.3 of SVG 1.1.
 *
 * Two deviations from SVG 1.1 are kept on purpose, because the Rust code has
 * them: the coordinate pairs after the first one of a moveto are dropped
 * instead of being implicit linetos (section 8.3.2), and a closepath does not
 * move the current point back to the start of the subpath (section 8.3.3).
 * An absolute moveto does not flush the accumulated points; a closepath and a
 * relative moveto do, even when nothing has been accumulated.
 *
 * The input is the already tokenised document: the XML reader and the path
 * data tokeniser of the `svg` crate are not part of this model.
 */
module PathDecoder {
  import opened Wrappers
  import opened Geometry

  datatype Position = Absolute | Relative

  /** One command of a `d` attribute with its numeric parameters. */
  datatype Command =
    | Move(pos: Position, params: seq<real>)
    | Line(pos: Position, params: seq<real>)
    | Close
    | Unsupported  // curves, arcs, horizontal and vertical lines: reported and skipped

  /** An event of the SVG reader: a `<path>` tag with its `d` attribute, if any, or anything else. */
  datatype Event = PathTag(d: Option<seq<Command>>) | OtherEvent

  /** Why the Rust decoder panics: an `unwrap` of a missing number or of a missing current point. */
  datatype Panic = MissingCoordinate | NoCurrentPoint

  /** The decoder's mutable variables `paths`, `current_path` and `last_point`. */
  datatype Decoder = Decoder(paths: seq<Polygon>, current: seq<Point>, cursor: Option<Point>)

  // ---------------------------------------------------------------------------
  // Specification: one step per command, folded over the document
  // ---------------------------------------------------------------------------

  /**
   * `point_from_iter` / `rel_point_from_iter` on the parameters not yet
   * consumed: a relative point needs a current point, and every point needs
   * two numbers.
   */
  function NextPoint(cursor: Option<Point>, pos: Position, params: seq<real>): (r: Result<Point, Panic>)
    ensures r.Success? <==> (pos == Absolute || cursor.Some?) && |params| >= 2
    ensures r == Failure(NoCurrentPoint) <==> pos == Relative && cursor.None?
    ensures r.Success? && pos == Absolute ==> r.value == Point(params[0], params[1])
    ensures r.Success? && pos == Relative ==> r.value == Add(Point(params[0], params[1]), cursor.value)
  {
    match pos
    case Absolute =>
      if |params| < 2 then Failure(MissingCoordinate) else Success(Point(params[0], params[1]))
    case Relative =>
      if cursor.None? then Failure(NoCurrentPoint)
      else if |params| < 2 then Failure(MissingCoordinate)
      else Success(Add(Point(params[0], params[1]), cursor.value))
  }

  /**
   * A lineto: one point per coordinate pair, each relative pair taken from the
   * point before it; the parameter list must be non-empty and of even length.
   */
  function LineTo(d: Decoder, pos: Position, params: seq<real>): Result<Decoder, Panic>
    decreases |params|
  {
    match NextPoint(d.cursor, pos, params)
    case Failure(e) => Failure(e)
    case Success(p) =>
      var next := Decoder(d.paths, d.current + [p], Some(p));
      if |params| == 2 then Success(next) else LineTo(next, pos, params[2..])
  }

  /** The effect of one command on the decoder. */
  function Step(d: Decoder, c: Command): Result<Decoder, Panic> {
    match c
    case Move(pos, params) =>
      (match NextPoint(d.cursor, pos, params)
       case Failure(e) => Failure(e)
       case Success(p) =>
         if pos == Absolute then Success(Decoder(d.paths, d.current + [p], Some(p)))
         else Success(Decoder(d.paths + [d.current], [p], Some(p))))
    case Line(pos, params) => LineTo(d, pos, params)
    case Close => Success(Decoder(d.paths + [d.current], [], d.cursor))
    case Unsupported => Success(d)
  }

  /** The commands of one `d` attribute, in order; the first panic ends decoding. */
  function Run(d: Decoder, commands: seq<Command>): Result<Decoder, Panic>
    decreases |commands|
  {
    if commands == [] then
      Success(d)
    else
      match Step(d, commands[0])
      case Failure(e) => Failure(e)
      case Success(d') => Run(d', commands[1..])
  }

  /** The events of a document; each `<path>` starts with an empty accumulator and no current point. */
  function DecodeFrom(paths: seq<Polygon>, events: seq<Event>): Result<seq<Polygon>, Panic>
    decreases |events|
  {
    if events == [] then
      Success(paths)
    else if events[0].PathTag? && events[0].d.Some? then
      match Run(Decoder(paths, [], None), events[0].d.value)
      case Failure(e) => Failure(e)
      case Success(d) => DecodeFrom(d.paths, events[1..])
    else
      DecodeFrom(paths, events[1..])
  }

  function Decode(events: seq<Event>): Result<seq<Polygon>, Panic> {
    DecodeFrom([], events)
  }

  // ---------------------------------------------------------------------------
  // The decoder as the Rust code runs it
  // ---------------------------------------------------------------------------

  /** `polygons_from_svg`; a panic is returned as a `Failure`. */
  method PolygonsFromSvg(events: seq<Event>) returns (r: Result<seq<Polygon>, Panic>)
    ensures r == Decode(events)
  {
    var paths: seq<Polygon> := [];
    var i := 0;
    while i < |events|
      invariant 0 <= i <= |events|
      invariant Decode(events) == DecodeFrom(paths, events[i..])
    {
      assert events[i..][1..] == events[i + 1..];
      if events[i].PathTag? && events[i].d.Some? {
        var commands := events[i].d.value;
        ghost var start := paths;
        assert Decode(events) == DecodeFrom(start, events[i..]);
        var current: seq<Point> := [];
        var lastPoint: Option<Point> := None;
        var j := 0;
        while j < |commands|
          invariant 0 <= j <= |commands|
          invariant Run(Decoder(start, [], None), commands) == Run(Decoder(paths, current, lastPoint), commands[j..])
        {
          ghost var here := Decoder(paths, current, lastPoint);
          assert commands[j..][1..] == commands[j + 1..];
          match commands[j] {
          case Move(pos, params) =>
            if pos == Absolute {
              if |params| < 2 {
                return Failure(MissingCoordinate);
              }
              lastPoint := Some(Point(params[0], params[1]));
              current := current + [lastPoint.value];
              assert NextPoint(here.cursor, pos, params) == Success(lastPoint.value);
              assert Step(here, commands[j]) == Success(Decoder(paths, current, lastPoint));
            } else {
              paths := paths + [current];
              current := [];
              if lastPoint.None? {
                return Failure(NoCurrentPoint);
              }
              if |params| < 2 {
                return Failure(MissingCoordinate);
              }
              lastPoint := Some(Add(Point(params[0], params[1]), lastPoint.value));
              current := current + [lastPoint.value];
              assert NextPoint(here.cursor, pos, params) == Success(lastPoint.value);
              assert paths == here.paths + [here.current];
              assert current == [lastPoint.value];
              assert Step(here, commands[j]) == Success(Decoder(here.paths + [here.current], [lastPoint.value], lastPoint));
            }
            assert Step(here, commands[j]) == Success(Decoder(paths, current, lastPoint));
          case Line(pos, params) =>
            var k := 0;
            while true
              invariant 0 <= k <= |params| && (k == 0 || k < |params|)
              invariant LineTo(here, pos, params) == LineTo(Decoder(paths, current, lastPoint), pos, params[k..])
              decreases |params| - k
            {
              ghost var before := Decoder(paths, current, lastPoint);
              if pos == Relative && lastPoint.None? {
                return Failure(NoCurrentPoint);
              }
              if |params| - k < 2 {
                return Failure(MissingCoordinate);
              }
              var p := Point(params[k], params[k + 1]);
              if pos == Relative {
                p := Add(p, lastPoint.value);
              }
              lastPoint := Some(p);
              current := current + [p];
              assert NextPoint(before.cursor, pos, params[k..]) == Success(p);
              k := k + 2;
              if k == |params| {
                assert LineTo(here, pos, params) == Success(Decoder(paths, current, lastPoint));
                break;
              }
              assert params[k - 2..][2..] == params[k..];
            }
            assert LineTo(here, pos, params) == Success(Decoder(paths, current, lastPoint));
          case Close =>
            paths := paths + [current];
            current := [];
          case Unsupported =>
          }
          assert Step(here, commands[j]) == Success(Decoder(paths, current, lastPoint));
          j := j + 1;
        }
      }
      i := i + 1;
    }
    return Success(paths);
  }

  // ---------------------------------------------------------------------------
  // Properties of the decoder
  // ---------------------------------------------------------------------------

  /** Reference definition: the points of the absolute coordinate pairs, in order. */
  function Pairs(params: seq<real>): seq<Point>
    decreases |params|
  {
    if |params| < 2 then [] else [Point(params[0], params[1])] + Pairs(params[2..])
  }

  /** Reference definition: a walk from `start`, each pair an offset from the point before. */
  function Walk(start: Point, params: seq<real>): seq<Point>
    decreases |params|
  {
    if |params| < 2 then [] else var p := Add(Point(params[0], params[1]), start); [p] + Walk(p, params[2..])
  }

  /**
   * A lineto succeeds exactly when it has a non-empty, even-length parameter
   * list (and, if relative, a current point); it then appends one point per
   * pair, leaves the finished polygons alone and moves the cursor to the last
   * point it appended, so relative offsets accumulate.
   */
  lemma {:induction false} LineToAppends(d: Decoder, pos: Position, params: seq<real>)
    ensures LineTo(d, pos, params).Success? <==>
              (pos == Absolute || d.cursor.Some?) && |params| >= 2 && |params| % 2 == 0
    ensures LineTo(d, pos, params).Success? ==>
              && LineTo(d, pos, params).value.paths == d.paths
              && LineTo(d, pos, params).value.current ==
                   d.current + (if pos == Absolute then Pairs(params) else Walk(d.cursor.value, params))
              && LineTo(d, pos, params).value.cursor ==
                   Some(LineTo(d, pos, params).value.current[|LineTo(d, pos, params).value.current| - 1])
    decreases |params|
  {
    if (pos == Absolute || d.cursor.Some?) && |params| >= 2 {
      var p := NextPoint(d.cursor, pos, params).value;
      var next := Decoder(d.paths, d.current + [p], Some(p));
      if |params| > 2 {
        LineToAppends(next, pos, params[2..]);
        if LineTo(d, pos, params).Success? {
          assert d.current + [p] + Walk(p, params[2..]) == d.current + ([p] + Walk(p, params[2..]));
          assert d.current + [p] + Pairs(params[2..]) == d.current + ([p] + Pairs(params[2..]));
        }
      }
    }
  }

  /** The commands that emit a polygon: a closepath and a relative moveto. */
  predicate Flushes(c: Command) {
    c.Close? || (c.Move? && c.pos == Relative)
  }

  function FlushCount(commands: seq<Command>): nat
    decreases |commands|
  {
    if commands == [] then 0 else (if Flushes(commands[0]) then 1 else 0) + FlushCount(commands[1..])
  }

  /**
   * Polygons once emitted are never changed or removed, and each command that
   * flushes emits exactly one polygon (possibly empty); no other command emits any.
   */
  lemma {:induction false} RunAppendsPolygons(d: Decoder, commands: seq<Command>)
    ensures Run(d, commands).Success? ==>
              && |Run(d, commands).value.paths| == |d.paths| + FlushCount(commands)
              && Run(d, commands).value.paths[..|d.paths|] == d.paths
    decreases |commands|
  {
    if commands != [] && Step(d, commands[0]).Success? {
      var d' := Step(d, commands[0]).value;
      if commands[0].Line? {
        LineToAppends(d, commands[0].pos, commands[0].params);
      }
      assert |d'.paths| == |d.paths| + (if Flushes(commands[0]) then 1 else 0);
      assert d'.paths[..|d.paths|] == d.paths;
      RunAppendsPolygons(d', commands[1..]);
      if Run(d, commands).Success? {
        var e := Run(d, commands).value;
        assert e.paths[..|d'.paths|] == d'.paths;
        assert e.paths[..|d.paths|] == d'.paths[..|d.paths|];
      }
    }
  }

  /** Reference definition: the commands without the unsupported ones. */
  function Supported(commands: seq<Command>): seq<Command>
    decreases |commands|
  {
    if commands == [] then []
    else if commands[0].Unsupported? then Supported(commands[1..])
    else [commands[0]] + Supported(commands[1..])
  }

  /** Unsupported commands change neither the accumulator, the cursor nor the output. */
  lemma {:induction false} UnsupportedIgnored(d: Decoder, commands: seq<Command>)
    ensures Run(d, commands) == Run(d, Supported(commands))
    decreases |commands|
  {
    if commands != [] {
      if commands[0].Unsupported? {
        UnsupportedIgnored(d, commands[1..]);
      } else {
        var s := [commands[0]] + Supported(commands[1..]);
        assert s[0] == commands[0] && s[1..] == Supported(commands[1..]);
        if Step(d, commands[0]).Success? {
          UnsupportedIgnored(Step(d, commands[0]).value, commands[1..]);
        }
      }
    }
  }

  /** Running two command lists one after the other. */
  lemma {:induction false} RunAppend(d: Decoder, a: seq<Command>, b: seq<Command>)
    ensures Run(d, a + b) == (match Run(d, a) case Failure(e) => Failure(e) case Success(d') => Run(d', b))
    decreases |a|
  {
    if a == [] {
      assert a + b == b;
    } else {
      assert (a + b)[0] == a[0] && (a + b)[1..] == a[1..] + b;
      if Step(d, a[0]).Success? {
        RunAppend(Step(d, a[0]).value, a[1..], b);
      }
    }
  }

  /** The polygons one `<path>` element emits on its own, starting from nothing. */
  function ElementPolygons(commands: seq<Command>): Result<seq<Polygon>, Panic> {
    match Run(Decoder([], [], None), commands)
    case Failure(e) => Failure(e)
    case Success(d) => Success(d.paths)
  }

  /**
   * Points accumulated after the last closepath or relative moveto of an
   * element are dropped: appending commands that do not flush (and do not
   * panic) leaves the element's output unchanged.
   */
  lemma TrailingPointsDropped(commands: seq<Command>, tail: seq<Command>)
    requires forall k :: 0 <= k < |tail| ==> !Flushes(tail[k])
    requires ElementPolygons(commands + tail).Success?
    ensures ElementPolygons(commands + tail) == ElementPolygons(commands)
  {
    var d0 := Decoder([], [], None);
    RunAppend(d0, commands, tail);
    var d := Run(d0, commands).value;
    NoFlushes(tail);
    RunAppendsPolygons(d, tail);
    var e := Run(d, tail).value;
    assert e.paths == e.paths[..|d.paths|];
  }

  lemma {:induction false} NoFlushes(commands: seq<Command>)
    requires forall k :: 0 <= k < |commands| ==> !Flushes(commands[k])
    ensures FlushCount(commands) == 0
    decreases |commands|
  {
    if commands != [] {
      NoFlushes(commands[1..]);
    }
  }

  /** Reference definition: each element's polygons, concatenated in document order. */
  function Concatenated(events: seq<Event>): Result<seq<Polygon>, Panic>
    decreases |events|
  {
    if events == [] then
      Success([])
    else if events[0].PathTag? && events[0].d.Some? then
      match ElementPolygons(events[0].d.value)
      case Failure(e) => Failure(e)
      case Success(ps) =>
        (match Concatenated(events[1..])
         case Failure(e) => Failure(e)
         case Success(qs) => Success(ps + qs))
    else
      Concatenated(events[1..])
  }

  /** Prefixes a decoder result's finished polygons. */
  function Behind(prefix: seq<Polygon>, r: Result<Decoder, Panic>): Result<Decoder, Panic> {
    match r
    case Failure(e) => Failure(e)
    case Success(d) => Success(Decoder(prefix + d.paths, d.current, d.cursor))
  }

  lemma {:induction false} LineToBehind(prefix: seq<Polygon>, d: Decoder, pos: Position, params: seq<real>)
    ensures LineTo(Decoder(prefix + d.paths, d.current, d.cursor), pos, params) == Behind(prefix, LineTo(d, pos, params))
    decreases |params|
  {
    if NextPoint(d.cursor, pos, params).Success? && |params| != 2 {
      var p := NextPoint(d.cursor, pos, params).value;
      LineToBehind(prefix, Decoder(d.paths, d.current + [p], Some(p)), pos, params[2..]);
    }
  }

  /** What was emitted before never influences what a command list does. */
  lemma {:induction false} RunBehind(prefix: seq<Polygon>, d: Decoder, commands: seq<Command>)
    ensures Run(Decoder(prefix + d.paths, d.current, d.cursor), commands) == Behind(prefix, Run(d, commands))
    decreases |commands|
  {
    if commands != [] {
      var c := commands[0];
      var shifted := Decoder(prefix + d.paths, d.current, d.cursor);
      if c.Line? {
        LineToBehind(prefix, d, c.pos, c.params);
      } else if c.Move? || c.Close? {
        assert prefix + d.paths + [d.current] == prefix + (d.paths + [d.current]);
      }
      assert Step(shifted, c) == Behind(prefix, Step(d, c));
      if Step(d, c).Success? {
        RunBehind(prefix, Step(d, c).value, commands[1..]);
      }
    }
  }

  lemma {:induction false} DecodeFromConcatenated(paths: seq<Polygon>, events: seq<Event>)
    ensures DecodeFrom(paths, events) ==
              (match Concatenated(events) case Failure(e) => Failure(e) case Success(ps) => Success(paths + ps))
    decreases |events|
  {
    if events == [] {
      assert paths + [] == paths;
    } else if events[0].PathTag? && events[0].d.Some? {
      var commands := events[0].d.value;
      RunBehind(paths, Decoder([], [], None), commands);
      assert paths + [] == paths;
      if ElementPolygons(commands).Success? {
        var ps := ElementPolygons(commands).value;
        DecodeFromConcatenated(paths + ps, events[1..]);
        if Concatenated(events[1..]).Success? {
          assert paths + ps + Concatenated(events[1..]).value == paths + (ps + Concatenated(events[1..]).value);
        }
      }
    } else {
      DecodeFromConcatenated(paths, events[1..]);
    }
  }

  /**
   * The decoder's output is the concatenation, in document order, of what each
   * `<path>` element emits on its own: the accumulator and the cursor are reset
   * for every element, and elements without a `d` attribute contribute nothing.
   */
  lemma DecodeIsConcatenation(events: seq<Event>)
    ensures Decode(events) == Concatenated(events)
  {
    DecodeFromConcatenated([], events);
    if Concatenated(events).Success? {
      assert [] + Concatenated(events).value == Concatenated(events).value;
    }
  }

  function TotalFlushes(events: seq<Event>): nat
    decreases |events|
  {
    if events == [] then 0
    else if events[0].PathTag? && events[0].d.Some? then FlushCount(events[0].d.value) + TotalFlushes(events[1..])
    else TotalFlushes(events[1..])
  }

  /** The number of polygons is the number of closepaths plus the number of relative movetos. */
  lemma {:induction false} PolygonCount(events: seq<Event>)
    ensures Decode(events).Success? ==> |Decode(events).value| == TotalFlushes(events)
    decreases |events|
  {
    DecodeIsConcatenation(events);
    if events != [] {
      PolygonCount(events[1..]);
      DecodeIsConcatenation(events[1..]);
      if events[0].PathTag? && events[0].d.Some? {
        RunAppendsPolygons(Decoder([], [], None), events[0].d.value);
      }
    }
  }

  /** A moveto reads one coordinate pair; the pairs after it are ignored, not drawn as linetos. */
  lemma MoveIgnoresExtraPairs(d: Decoder, pos: Position, params: seq<real>)
    requires |params| >= 2
    ensures Step(d, Move(pos, params)) == Step(d, Move(pos, params[..2]))
  {
  }

  /** A run that makes the given successful steps ends in the last state. */
  lemma {:induction false} RunSteps(states: seq<Decoder>, commands: seq<Command>)
    requires |states| == |commands| + 1
    requires forall k :: 0 <= k < |commands| ==> Step(states[k], commands[k]) == Success(states[k + 1])
    ensures Run(states[0], commands) == Success(states[|commands|])
    decreases |commands|
  {
    if commands != [] {
      RunSteps(states[1..], commands[1..]);
    }
  }

  /** `M 0,0 1,1 Z` gives the one-point polygon [(0,0)], where SVG 1.1 would draw a line to (1,1). */
  lemma MoveIsNotImplicitLineto()
    ensures Decode([PathTag(Some([Move(Absolute, [0.0, 0.0, 1.0, 1.0]), Close]))]) == Success([[Point(0.0, 0.0)]])
  {
    var o := Point(0.0, 0.0);
    var commands := [Move(Absolute, [0.0, 0.0, 1.0, 1.0]), Close];
    var states := [Decoder([], [], None), Decoder([], [o], Some(o)), Decoder([[o]], [], Some(o))];
    assert states[0].current + [o] == [o];
    assert states[1].paths + [[o]] == [[o]];
    RunSteps(states, commands);
    assert [PathTag(Some(commands))][1..] == [];
  }

  /** `M 0,0 L 5,0 Z m 1,1 Z`: after Z the cursor is still (5,0), so the relative move lands on (6,1). */
  lemma CloseKeepsCursor()
    ensures Decode([PathTag(Some([Move(Absolute, [0.0, 0.0]), Line(Absolute, [5.0, 0.0]), Close,
                                  Move(Relative, [1.0, 1.0]), Close]))])
         == Success([[Point(0.0, 0.0), Point(5.0, 0.0)], [], [Point(6.0, 1.0)]])
  {
    var a, b, c := Point(0.0, 0.0), Point(5.0, 0.0), Point(6.0, 1.0);
    var commands := [Move(Absolute, [0.0, 0.0]), Line(Absolute, [5.0, 0.0]), Close, Move(Relative, [1.0, 1.0]), Close];
    var states := [Decoder([], [], None), Decoder([], [a], Some(a)), Decoder([], [a, b], Some(b)),
                   Decoder([[a, b]], [], Some(b)), Decoder([[a, b], []], [c], Some(c)),
                   Decoder([[a, b], [], [c]], [], Some(c))];
    assert states[0].current + [a] == [a];
    assert states[1].current + [b] == [a, b];
    assert states[2].paths + [[a, b]] == [[a, b]];
    assert states[3].paths + [[]] == [[a, b], []];
    assert states[4].paths + [[c]] == [[a, b], [], [c]];
    RunSteps(states, commands);
    assert [PathTag(Some(commands))][1..] == [];
  }

  /** `M 0,0 L 1,0 L 1,1 Z M 2,2 L 3,2 Z` yields two polygons. */
  lemma SegmentationExample()
    ensures Decode([PathTag(Some([Move(Absolute, [0.0, 0.0]), Line(Absolute, [1.0, 0.0]), Line(Absolute, [1.0, 1.0]),
                                  Close, Move(Absolute, [2.0, 2.0]), Line(Absolute, [3.0, 2.0]), Close]))])
         == Success([[Point(0.0, 0.0), Point(1.0, 0.0), Point(1.0, 1.0)], [Point(2.0, 2.0), Point(3.0, 2.0)]])
  {
    var a, b, c, e, f := Point(0.0, 0.0), Point(1.0, 0.0), Point(1.0, 1.0), Point(2.0, 2.0), Point(3.0, 2.0);
    var commands := [Move(Absolute, [0.0, 0.0]), Line(Absolute, [1.0, 0.0]), Line(Absolute, [1.0, 1.0]),
                     Close, Move(Absolute, [2.0, 2.0]), Line(Absolute, [3.0, 2.0]), Close];
    var states := [Decoder([], [], None), Decoder([], [a], Some(a)), Decoder([], [a, b], Some(b)),
                   Decoder([], [a, b, c], Some(c)), Decoder([[a, b, c]], [], Some(c)),
                   Decoder([[a, b, c]], [e], Some(e)), Decoder([[a, b, c]], [e, f], Some(f)),
                   Decoder([[a, b, c], [e, f]], [], Some(f))];
    assert states[0].current + [a] == [a];
    assert states[1].current + [b] == [a, b];
    assert states[2].current + [c] == [a, b, c];
    assert states[3].paths + [[a, b, c]] == [[a, b, c]];
    assert states[4].current + [e] == [e];
    assert states[5].current + [f] == [e, f];
    assert states[6].paths + [[e, f]] == [[a, b, c], [e, f]];
    RunSteps(states, commands);
    assert [PathTag(Some(commands))][1..] == [];
  }

  /** `M 0,0 L 1,0 m 1,1 l 1,0 Z`: the relative move flushes, and relative offsets build on the cursor. */
  lemma RelativeMoveExample()
    ensures Decode([PathTag(Some([Move(Absolute, [0.0, 0.0]), Line(Absolute, [1.0, 0.0]), Move(Relative, [1.0, 1.0]),
                                  Line(Relative, [1.0, 0.0]), Close]))])
         == Success([[Point(0.0, 0.0), Point(1.0, 0.0)], [Point(2.0, 1.0), Point(3.0, 1.0)]])
  {
    var a, b, c, e := Point(0.0, 0.0), Point(1.0, 0.0), Point(2.0, 1.0), Point(3.0, 1.0);
    var commands := [Move(Absolute, [0.0, 0.0]), Line(Absolute, [1.0, 0.0]), Move(Relative, [1.0, 1.0]),
                     Line(Relative, [1.0, 0.0]), Close];
    var states := [Decoder([], [], None), Decoder([], [a], Some(a)), Decoder([], [a, b], Some(b)),
                   Decoder([[a, b]], [c], Some(c)), Decoder([[a, b]], [c, e], Some(e)),
                   Decoder([[a, b], [c, e]], [], Some(e))];
    assert states[0].current + [a] == [a];
    assert states[1].current + [b] == [a, b];
    assert states[2].paths + [[a, b]] == [[a, b]];
    assert states[3].current + [e] == [c, e];
    assert states[4].paths + [[c, e]] == [[a, b], [c, e]];
    RunSteps(states, commands);
    assert [PathTag(Some(commands))][1..] == [];
  }

  /** A relative command before any absolute moveto of its element panics. */
  lemma RelativeNeedsCursor(pos: Position, params: seq<real>, rest: seq<Command>)
    ensures ElementPolygons([Move(Relative, params)] + rest) == Failure(NoCurrentPoint)
    ensures ElementPolygons([Line(Relative, params)] + rest) == Failure(NoCurrentPoint)
  {
  }
}
