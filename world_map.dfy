/**
 * The world map canvas (src/widgets/world_map.rs): which style each country
 * is painted in, in which order, and the cached drawing of the outlines.
 * The database query that `update` re-runs is a parameter, and the outline
 * registry is fixed when the widget is made. The drawn frame is modelled as
 * the sequence of filled and stroked paths it receives.
 */
module WorldMapWidget {
  import opened Wrappers
  import opened Geometry
  import opened Text
  import opened Models
  import opened Registry
  import opened MapStyle
  import opened Partitions

  /** `WorldMapCountryFilter`: the ISO-2 codes to highlight. */
  datatype CountryFilter = Include(inclusions: seq<string>)

  /** `accept`: the country's ISO-2 code is in the list. */
  predicate Accept(f: CountryFilter, c: Country) {
    match f
    case Include(inclusions) => c.iso2 in inclusions
  }

  datatype Message = FilterChanged(filter: CountryFilter) | FilterRemoved

  datatype RenderStyle = Normal(visited: bool) | Selected | Unselected

  /** `b'Z' - c` panics for any byte of the code above 'Z', not only the three used. */
  predicate Lightenable(bytes: seq<u8>) {
    forall k :: 0 <= k < |bytes| ==> bytes[k] <= ByteZ
  }

  function LightenAll(bytes: seq<u8>): (r: seq<u8>)
    requires Lightenable(bytes)
  {
    seq(|bytes|, k requires 0 <= k < |bytes| && Lightenable(bytes) => Lighten(bytes[k]))
  }

  /** The inputs for which `get_fill_color` does not panic. */
  predicate FillDefined(style: RenderStyle, country: Country) {
    var bytes := Utf8(country.iso3);
    match style
    case Normal(visited) =>
      if visited then AsciiColorDefined(bytes) else |bytes| >= 3 && Lightenable(bytes)
    case Selected => AsciiColorDefined(bytes)
    case Unselected => true
  }

  /** `get_fill_color`. */
  function FillColor(style: RenderStyle, country: Country): Color
    requires FillDefined(style, country)
  {
    var bytes := Utf8(country.iso3);
    match style
    case Normal(visited) =>
      if visited then ColorFromAscii(bytes) else ColorFromAscii(LightenAll(bytes))
    case Selected => ColorFromAscii(bytes)
    case Unselected => Gray
  }

  /** `get_stroke_style`. */
  function StrokeColor(style: RenderStyle): Color {
    match style
    case Normal(_) => Black
    case Selected => Green
    case Unselected => Black
  }

  /** A selected country is coloured as a visited one; an unselected one is gray whatever its code. */
  lemma SelectedAndUnselectedFill(country: Country)
    ensures FillDefined(Selected, country) <==> FillDefined(Normal(true), country)
    ensures FillDefined(Selected, country) ==> FillColor(Selected, country) == FillColor(Normal(true), country)
    ensures FillDefined(Unselected, country) && FillColor(Unselected, country) == Gray
  {
  }

  /** Only the selection is outlined in green; everything else in black. */
  lemma StrokeRule(style: RenderStyle)
    ensures StrokeColor(style) == Green <==> style == Selected
    ensures style != Selected ==> StrokeColor(style) == Black
  {
  }

  /** A code of three upper-case ASCII letters. */
  predicate UpperCode(s: string) {
    |s| == 3 && forall k :: 0 <= k < 3 ==> 'A' <= s[k] <= 'Z'
  }

  /**
   * For an upper-case code both fills are defined, and the unvisited fill is
   * at least as bright as the visited one in every channel.
   */
  lemma UnvisitedIsLighter(country: Country)
    requires UpperCode(country.iso3)
    ensures FillDefined(Normal(true), country) && FillDefined(Normal(false), country)
    ensures FillColor(Normal(true), country).r <= FillColor(Normal(false), country).r
    ensures FillColor(Normal(true), country).g <= FillColor(Normal(false), country).g
    ensures FillColor(Normal(true), country).b <= FillColor(Normal(false), country).b
  {
    Utf8Ascii(country.iso3);
    var bytes := Utf8(country.iso3);
    assert forall k :: 0 <= k < 3 ==> ByteA <= bytes[k] <= ByteZ;
    var light := LightenAll(bytes);
    ComponentOrder(bytes[0], light[0]);
    ComponentOrder(bytes[1], light[1]);
    ComponentOrder(bytes[2], light[2]);
  }

  /** "AAA" is black and "ZZZ" is 25/26 in every channel. */
  lemma FillExamples(country: Country)
    ensures country.iso3 == "AAA" ==> FillDefined(Selected, country) && FillColor(Selected, country) == Rgb(0.0, 0.0, 0.0)
    ensures country.iso3 == "ZZZ" ==> FillDefined(Selected, country) && FillColor(Selected, country) == Rgb(25.0 / 26.0, 25.0 / 26.0, 25.0 / 26.0)
  {
    if country.iso3 == "AAA" || country.iso3 == "ZZZ" {
      Utf8Ascii(country.iso3);
    }
  }

  // ---------------------------------------------------------------------------
  // Draw order
  // ---------------------------------------------------------------------------

  /** The filter's `accept` as a predicate on countries, the argument `partition` is given. */
  function Accepts(f: CountryFilter): Country -> bool {
    c => Accept(f, c)
  }

  /** One call of `draw_country`: a country and the style it is painted in. */
  datatype Item = Item(country: Country, style: RenderStyle)

  function Styled(countries: seq<Country>, style: RenderStyle): seq<Item> {
    seq(|countries|, i requires 0 <= i < |countries| => Item(countries[i], style))
  }

  function CountriesOf(rows: seq<(Country, bool)>): seq<Country> {
    seq(|rows|, i requires 0 <= i < |rows| => rows[i].0)
  }

  function ItemCountries(items: seq<Item>): seq<Country> {
    seq(|items|, i requires 0 <= i < |items| => items[i].country)
  }

  /**
   * The order of `draw_country` calls: with a filter, the rejected countries
   * as `Unselected` and then the accepted ones as `Selected`; without one,
   * every country as `Normal`, with its visited flag.
   */
  function DrawOrder(filter: Option<CountryFilter>, rows: seq<(Country, bool)>): seq<Item> {
    match filter
    case None => seq(|rows|, i requires 0 <= i < |rows| => Item(rows[i].0, Normal(rows[i].1)))
    case Some(f) =>
      var parts := Partition(Accepts(f), CountriesOf(rows));
      Styled(parts.1, Unselected) + Styled(parts.0, Selected)
  }

  /**
   * Every country is drawn exactly once. With a filter its style says whether
   * the filter accepts it, and no unselected country is drawn after a selected
   * one, so the selection is painted on top; without a filter each row is
   * drawn in place as `Normal` with its own visited flag.
   */
  lemma DrawOrderFacts(filter: Option<CountryFilter>, rows: seq<(Country, bool)>)
    ensures multiset(ItemCountries(DrawOrder(filter, rows))) == multiset(CountriesOf(rows))
    ensures filter.Some? ==>
            forall i :: 0 <= i < |DrawOrder(filter, rows)| ==>
              DrawOrder(filter, rows)[i].style == (if Accept(filter.value, DrawOrder(filter, rows)[i].country) then Selected else Unselected)
    ensures filter.Some? ==>
            forall i, j :: 0 <= i < j < |DrawOrder(filter, rows)| && DrawOrder(filter, rows)[i].style == Selected ==>
              DrawOrder(filter, rows)[j].style == Selected
    ensures filter.Some? ==>
            ItemCountries(DrawOrder(filter, rows)) ==
            Keep(Accepts(filter.value), false, CountriesOf(rows)) + Keep(Accepts(filter.value), true, CountriesOf(rows))
    ensures filter.None? ==>
            |DrawOrder(filter, rows)| == |rows| &&
            forall i :: 0 <= i < |rows| ==> DrawOrder(filter, rows)[i] == Item(rows[i].0, Normal(rows[i].1))
  {
    match filter
    case None =>
      assert ItemCountries(DrawOrder(filter, rows)) == CountriesOf(rows);
    case Some(f) =>
      FilteredOrder(f, rows);
  }

  lemma ItemCountriesOfStyled(countries: seq<Country>, style: RenderStyle)
    ensures ItemCountries(Styled(countries, style)) == countries
  {
  }

  lemma ItemCountriesAppend(a: seq<Item>, b: seq<Item>)
    ensures ItemCountries(a + b) == ItemCountries(a) + ItemCountries(b)
  {
  }

  /** The filtered case of `DrawOrderFacts`: the rejected countries in input order, then the accepted ones. */
  lemma FilteredOrder(f: CountryFilter, rows: seq<(Country, bool)>)
    ensures ItemCountries(DrawOrder(Some(f), rows)) ==
            Keep(Accepts(f), false, CountriesOf(rows)) + Keep(Accepts(f), true, CountriesOf(rows))
    ensures multiset(ItemCountries(DrawOrder(Some(f), rows))) == multiset(CountriesOf(rows))
    ensures forall i :: 0 <= i < |DrawOrder(Some(f), rows)| ==>
              DrawOrder(Some(f), rows)[i].style == (if Accept(f, DrawOrder(Some(f), rows)[i].country) then Selected else Unselected)
    ensures forall i, j :: 0 <= i < j < |DrawOrder(Some(f), rows)| && DrawOrder(Some(f), rows)[i].style == Selected ==>
              DrawOrder(Some(f), rows)[j].style == Selected
  {
    var countries := CountriesOf(rows);
    var parts := Partition(Accepts(f), countries);
    var order := DrawOrder(Some(f), rows);
    assert order == Styled(parts.1, Unselected) + Styled(parts.0, Selected);
    FilteredCountries(f, countries);
    FilteredStyles(f, parts.1, parts.0, order);
  }

  lemma FilteredCountries(f: CountryFilter, countries: seq<Country>)
    ensures var parts := Partition(Accepts(f), countries);
            var items := Styled(parts.1, Unselected) + Styled(parts.0, Selected);
            ItemCountries(items) == Keep(Accepts(f), false, countries) + Keep(Accepts(f), true, countries) &&
            multiset(ItemCountries(items)) == multiset(countries)
  {
    var parts := Partition(Accepts(f), countries);
    var unselected, selected := Styled(parts.1, Unselected), Styled(parts.0, Selected);
    ItemCountriesOfStyled(parts.1, Unselected);
    ItemCountriesOfStyled(parts.0, Selected);
    ItemCountriesAppend(unselected, selected);
    assert multiset(parts.1 + parts.0) == multiset(parts.1) + multiset(parts.0);
  }

  /** Rejected countries styled `Unselected`, then accepted ones styled `Selected`: each style tells acceptance, and no unselected item follows a selected one. */
  lemma FilteredStyles(f: CountryFilter, rejected: seq<Country>, accepted: seq<Country>, order: seq<Item>)
    requires forall c :: c in rejected ==> !Accepts(f)(c)
    requires forall c :: c in accepted ==> Accepts(f)(c)
    requires order == Styled(rejected, Unselected) + Styled(accepted, Selected)
    ensures forall i :: 0 <= i < |order| ==>
              order[i].style == (if Accept(f, order[i].country) then Selected else Unselected)
    ensures forall i, j :: 0 <= i < j < |order| && order[i].style == Selected ==> order[j].style == Selected
  {
    var unselected, selected := Styled(rejected, Unselected), Styled(accepted, Selected);
    forall i | 0 <= i < |order|
      ensures order[i].style == (if Accept(f, order[i].country) then Selected else Unselected)
      ensures order[i].style == Selected <==> i >= |rejected|
    {
      if i < |unselected| {
        assert order[i] == unselected[i];
        assert unselected[i] == Item(rejected[i], Unselected);
        assert !Accepts(f)(rejected[i]);
      } else {
        var k := i - |unselected|;
        assert order[i] == selected[k];
        assert selected[k] == Item(accepted[k], Selected);
        assert Accepts(f)(accepted[k]);
      }
    }
  }

  // ---------------------------------------------------------------------------
  // Drawing
  // ---------------------------------------------------------------------------

  /** Some polygon of the list has a point, so `draw_polygon` reaches `get_fill_color` for it. */
  predicate Drawn(polygons: seq<Polygon>)
    decreases |polygons|
  {
    polygons != [] && (polygons[0] != [] || Drawn(polygons[1..]))
  }

  /** The fill colour is computed only for a non-empty polygon, so only then can it panic. */
  predicate Paints(item: Item, polygons: seq<Polygon>) {
    Drawn(polygons) ==> FillDefined(item.style, item.country)
  }

  predicate ItemPaintable(item: Item, outlines: Outlines) {
    item.country.iso2 in outlines ==> Paints(item, outlines[item.country.iso2])
  }

  predicate Paintable(items: seq<Item>, outlines: Outlines) {
    forall i :: 0 <= i < |items| ==> ItemPaintable(items[i], outlines)
  }

  /**
   * The fill of every drawn polygon of a country. Black stands in where
   * `get_fill_color` would panic; no drawing of a paintable item uses it.
   */
  function CountryFill(item: Item): Color {
    if FillDefined(item.style, item.country) then FillColor(item.style, item.country) else Black
  }

  /** `draw_polygon`: nothing for an empty polygon, else its outline filled and stroked. */
  function PolygonShape(polygon: Polygon, fill: Color, stroke: Color, v: Viewport): seq<Shape> {
    if polygon == [] then [] else [Shape(Outline(polygon, v), fill, stroke)]
  }

  function PolygonShapes(polygons: seq<Polygon>, fill: Color, stroke: Color, v: Viewport): seq<Shape>
    decreases |polygons|
  {
    if polygons == [] then [] else PolygonShape(polygons[0], fill, stroke, v) + PolygonShapes(polygons[1..], fill, stroke, v)
  }

  /** `draw_country`: every polygon of the country's outlines, or nothing if the registry has none. */
  function CountryShapes(item: Item, outlines: Outlines, v: Viewport): seq<Shape> {
    if item.country.iso2 in outlines then
      PolygonShapes(outlines[item.country.iso2], CountryFill(item), StrokeColor(item.style), v)
    else
      []
  }

  function RenderItems(items: seq<Item>, outlines: Outlines, v: Viewport): seq<Shape>
    decreases |items|
  {
    if items == [] then [] else CountryShapes(items[0], outlines, v) + RenderItems(items[1..], outlines, v)
  }

  /** What the canvas receives for a frame with viewport `v`. */
  function Render(filter: Option<CountryFilter>, rows: seq<(Country, bool)>, outlines: Outlines, v: Viewport): seq<Shape> {
    RenderItems(DrawOrder(filter, rows), outlines, v)
  }

  lemma {:induction false} DrawnAt(polygons: seq<Polygon>, i: nat)
    requires i < |polygons| && polygons[i] != []
    ensures Drawn(polygons)
    decreases i
  {
    if i > 0 {
      assert polygons[1..][i - 1] == polygons[i];
      DrawnAt(polygons[1..], i - 1);
    }
  }

  lemma {:induction false} UndrawnIsEmpty(polygons: seq<Polygon>, fill: Color, stroke: Color, v: Viewport)
    requires !Drawn(polygons)
    ensures PolygonShapes(polygons, fill, stroke, v) == []
    decreases |polygons|
  {
    if polygons != [] {
      UndrawnIsEmpty(polygons[1..], fill, stroke, v);
    }
  }

  lemma {:induction false} PolygonColors(polygons: seq<Polygon>, fill: Color, stroke: Color, v: Viewport)
    ensures forall s :: s in PolygonShapes(polygons, fill, stroke, v) ==> s.fill == fill && s.stroke == stroke
    ensures |PolygonShapes(polygons, fill, stroke, v)| <= |polygons|
    decreases |polygons|
  {
    if polygons != [] {
      PolygonColors(polygons[1..], fill, stroke, v);
    }
  }

  /**
   * Every shape drawn for a country is filled with the colour `get_fill_color`
   * gives its style (which is then defined) and stroked with `get_stroke_style`.
   */
  lemma CountryColors(item: Item, outlines: Outlines, v: Viewport)
    requires ItemPaintable(item, outlines)
    ensures forall s :: s in CountryShapes(item, outlines, v) ==>
              FillDefined(item.style, item.country) && s.fill == FillColor(item.style, item.country) &&
              s.stroke == StrokeColor(item.style)
  {
    if item.country.iso2 in outlines {
      var polygons := outlines[item.country.iso2];
      var fill, stroke := CountryFill(item), StrokeColor(item.style);
      PolygonColors(polygons, fill, stroke, v);
      if !Drawn(polygons) {
        UndrawnIsEmpty(polygons, fill, stroke, v);
      }
    }
  }

  lemma {:induction false} RenderItemsAppend(a: seq<Item>, b: seq<Item>, outlines: Outlines, v: Viewport)
    ensures RenderItems(a + b, outlines, v) == RenderItems(a, outlines, v) + RenderItems(b, outlines, v)
    decreases |a|
  {
    if a != [] {
      assert (a + b)[0] == a[0] && (a + b)[1..] == a[1..] + b;
      RenderItemsAppend(a[1..], b, outlines, v);
    } else {
      assert a + b == b;
    }
  }

  /** The path of every shape stays inside the frame when the registry's outlines lie in the unit square. */
  lemma {:induction false} RenderInsideFrame(items: seq<Item>, outlines: Outlines, w: real, h: real)
    requires w > 0.0 && h > 0.0
    requires UnitOutlines(outlines)
    ensures forall s, m :: s in RenderItems(items, outlines, Fit(w, h)) && 0 <= m < |s.path| && !s.path[m].ClosePath? ==>
              0.0 <= s.path[m].to.x < w && 0.0 <= s.path[m].to.y < h
    decreases |items|
  {
    if items != [] {
      RenderInsideFrame(items[1..], outlines, w, h);
      var item := items[0];
      if item.country.iso2 in outlines {
        PolygonsInsideFrame(outlines[item.country.iso2], CountryFill(item), StrokeColor(item.style), w, h);
      }
    }
  }

  lemma {:induction false} PolygonsInsideFrame(polygons: seq<Polygon>, fill: Color, stroke: Color, w: real, h: real)
    requires w > 0.0 && h > 0.0
    requires forall k, n :: 0 <= k < |polygons| && 0 <= n < |polygons[k]| ==> InUnitSquare(polygons[k][n])
    ensures forall s, m :: s in PolygonShapes(polygons, fill, stroke, Fit(w, h)) && 0 <= m < |s.path| && !s.path[m].ClosePath? ==>
              0.0 <= s.path[m].to.x < w && 0.0 <= s.path[m].to.y < h
    decreases |polygons|
  {
    if polygons != [] {
      var v := Fit(w, h);
      assert forall k :: 0 <= k < |polygons| - 1 ==> polygons[1..][k] == polygons[k + 1];
      PolygonsInsideFrame(polygons[1..], fill, stroke, w, h);
      var p := polygons[0];
      if p != [] {
        OutlineShape(p, v);
        forall m | 0 <= m < |p| ensures 0.0 <= Project(p[m], v).x < w && 0.0 <= Project(p[m], v).y < h {
          ProjectInside(p[m], w, h);
        }
      }
    }
  }

  /** `draw_polygon`, with the path built by the loop of `TracePolygon`; the colour is looked up only for a non-empty polygon. */
  method DrawPolygon(polygon: Polygon, item: Item, v: Viewport) returns (shapes: seq<Shape>)
    requires polygon != [] ==> FillDefined(item.style, item.country)
    ensures polygon == [] ==> shapes == []
    ensures polygon != [] ==>
              shapes == PolygonShape(polygon, FillColor(item.style, item.country), StrokeColor(item.style), v)
  {
    if polygon == [] {
      return [];
    }
    var path := TracePolygon(polygon, v);
    shapes := [Shape(path, FillColor(item.style, item.country), StrokeColor(item.style))];
  }

  /** `draw_country`: a loop over the country's polygons. */
  method DrawCountry(item: Item, outlines: Outlines, v: Viewport) returns (shapes: seq<Shape>)
    requires ItemPaintable(item, outlines)
    ensures shapes == CountryShapes(item, outlines, v)
  {
    shapes := [];
    if item.country.iso2 !in outlines {
      return;
    }
    var polygons := outlines[item.country.iso2];
    ghost var fill, stroke := CountryFill(item), StrokeColor(item.style);
    var i := 0;
    while i < |polygons|
      invariant 0 <= i <= |polygons|
      invariant shapes + PolygonShapes(polygons[i..], fill, stroke, v) == PolygonShapes(polygons, fill, stroke, v)
    {
      if polygons[i] != [] {
        DrawnAt(polygons, i);
      }
      var more := DrawPolygon(polygons[i], item, v);
      PolygonShapesStep(polygons, i, fill, stroke, v);
      ConcatAssoc(shapes, more, PolygonShapes(polygons[i + 1..], fill, stroke, v));
      shapes := shapes + more;
      i := i + 1;
    }
  }

  lemma PolygonShapesStep(polygons: seq<Polygon>, i: nat, fill: Color, stroke: Color, v: Viewport)
    requires i < |polygons|
    ensures PolygonShapes(polygons[i..], fill, stroke, v) ==
            PolygonShape(polygons[i], fill, stroke, v) + PolygonShapes(polygons[i + 1..], fill, stroke, v)
  {
    assert polygons[i..][0] == polygons[i] && polygons[i..][1..] == polygons[i + 1..];
  }

  /** One `for` loop of `draw` calling `draw_country` for each item. */
  method DrawItems(items: seq<Item>, outlines: Outlines, v: Viewport) returns (shapes: seq<Shape>)
    requires Paintable(items, outlines)
    ensures shapes == RenderItems(items, outlines, v)
  {
    shapes := [];
    var i := 0;
    while i < |items|
      invariant 0 <= i <= |items|
      invariant shapes + RenderItems(items[i..], outlines, v) == RenderItems(items, outlines, v)
    {
      var more := DrawCountry(items[i], outlines, v);
      RenderItemsStep(items, i, outlines, v);
      ConcatAssoc(shapes, more, RenderItems(items[i + 1..], outlines, v));
      shapes := shapes + more;
      i := i + 1;
    }
  }

  lemma RenderItemsStep(items: seq<Item>, i: nat, outlines: Outlines, v: Viewport)
    requires i < |items|
    ensures RenderItems(items[i..], outlines, v) == CountryShapes(items[i], outlines, v) + RenderItems(items[i + 1..], outlines, v)
  {
    assert items[i..][0] == items[i] && items[i..][1..] == items[i + 1..];
  }

  lemma PaintableSplit(a: seq<Item>, b: seq<Item>, outlines: Outlines)
    requires Paintable(a + b, outlines)
    ensures Paintable(a, outlines) && Paintable(b, outlines)
  {
    assert forall i :: 0 <= i < |a| ==> a[i] == (a + b)[i];
    assert forall i :: 0 <= i < |b| ==> b[i] == (a + b)[|a| + i];
  }

  class WorldMap {
    var countryFilter: Option<CountryFilter>
    var countries: seq<(Country, bool)>
    /** `canvas::Cache`: the last drawing, with the frame size it was drawn for. */
    var cache: Option<(real, real, seq<Shape>)>
    /** `COUNTRY_POLYGONS`, fixed once loaded. */
    const outlines: Outlines

    /** The cache, when filled, holds exactly what drawing the current state would give. */
    ghost predicate Valid()
      reads this
    {
      cache.Some? ==>
        var (w, h, shapes) := cache.value;
        w > 0.0 && h > 0.0 &&
        shapes == Render(countryFilter, countries, outlines, Fit(w, h))
    }

    /** `WorldMap::new`: no filter, the rows of the visit query, an empty cache. */
    constructor(outlines: Outlines, rows: seq<(Country, bool)>)
      ensures Valid()
      ensures this.outlines == outlines && countries == rows && countryFilter.None? && cache.None?
    {
      this.outlines := outlines;
      countries := rows;
      countryFilter := None;
      cache := None;
    }

    /** `update`: reload the rows, clear the cache, then set or drop the filter. */
    method Update(msg: Message, rows: seq<(Country, bool)>)
      modifies this
      ensures Valid()
      ensures countries == rows && cache.None?
      ensures countryFilter == (match msg case FilterChanged(f) => Some(f) case FilterRemoved => None)
    {
      countries := rows;
      cache := None;
      match msg {
        case FilterChanged(f) => countryFilter := Some(f);
        case FilterRemoved => countryFilter := None;
      }
    }

    /**
     * `draw`: reuse the cached drawing for a frame of the same size, otherwise
     * draw the groups in order and keep the result.
     */
    method Draw(w: real, h: real) returns (shapes: seq<Shape>)
      requires Valid() && w > 0.0 && h > 0.0
      requires Paintable(DrawOrder(countryFilter, countries), outlines)
      modifies this
      ensures countryFilter == old(countryFilter) && countries == old(countries)
      ensures Valid()
      ensures shapes == Render(countryFilter, countries, outlines, Fit(w, h))
      ensures cache == Some((w, h, shapes))
    {
      if cache.Some? && cache.value.0 == w && cache.value.1 == h {
        return cache.value.2;
      }
      var v := Fit(w, h);
      match countryFilter {
        case Some(f) =>
          var parts := Partition(Accepts(f), CountriesOf(countries));
          var order := DrawOrder(countryFilter, countries);
          var unselected, selected := Styled(parts.1, Unselected), Styled(parts.0, Selected);
          assert order == unselected + selected;
          PaintableSplit(unselected, selected, outlines);
          var first := DrawItems(unselected, outlines, v);
          var second := DrawItems(selected, outlines, v);
          RenderItemsAppend(unselected, selected, outlines, v);
          shapes := first + second;
        case None =>
          shapes := DrawItems(DrawOrder(None, countries), outlines, v);
      }
      cache := Some((w, h, shapes));
    }
  }
}
