/**
 * The earlier widget file (src/widgets.rs): a country list without the
 * visited switch, and a world map whose filter can also exclude, whose
 * selection is drawn first, and whose outlines are always stroked in black.
 * Database queries are parameters.
 */
module LegacyWidgets {
  import opened Wrappers
  import opened Geometry
  import opened Text
  import opened Models
  import opened Registry
  import opened MapStyle
  import opened StableSort
  import opened Partitions

  // ---------------------------------------------------------------------------
  // Country list
  // ---------------------------------------------------------------------------

  datatype ListMessage = Search(text: string) | Select(country: Option<Country>)

  function NameOf(c: Country): string {
    c.name
  }

  /** The countries matching `filter`, in input order. */
  function Matching(countries: seq<Country>, filter: string): (r: seq<Country>)
    ensures |r| <= |countries|
    ensures forall c :: c in r <==> c in countries && MatchesFilter(c, filter)
    decreases |countries|
  {
    if countries == [] then []
    else
      var rest := Matching(countries[1..], filter);
      assert countries == [countries[0]] + countries[1..];
      if MatchesFilter(countries[0], filter) then [countries[0]] + rest else rest
  }

  /** Nothing is added or dropped: each matching country is kept as often as it occurs, the others never. */
  lemma {:induction false} MatchingCounts(countries: seq<Country>, filter: string)
    ensures forall c :: multiset(Matching(countries, filter))[c] == if MatchesFilter(c, filter) then multiset(countries)[c] else 0
    decreases |countries|
  {
    if countries != [] {
      var c0, rest := countries[0], countries[1..];
      MatchingCounts(rest, filter);
      assert multiset(countries) == multiset{c0} + multiset(rest) by {
        assert countries == [c0] + rest;
      }
      var r, r' := Matching(countries, filter), Matching(rest, filter);
      assert multiset(r) == (if MatchesFilter(c0, filter) then multiset{c0} else multiset{}) + multiset(r');
    }
  }

  /**
   * `get_filtered_countries`: exactly the matching countries, sorted by name,
   * equal names in input order.
   */
  function GetFilteredCountries(filter: string, all: seq<Country>): (r: seq<Country>)
    ensures multiset(r) == multiset(Matching(all, filter))
    ensures Sorted(r, NameOf)
    ensures forall k :: WithKey(r, NameOf, k) == WithKey(Matching(all, filter), NameOf, k)
    ensures forall i :: 0 <= i < |r| ==> MatchesFilter(r[i], filter)
  {
    var matching := Matching(all, filter);
    var r := SortBy(matching, NameOf);
    SortFacts(matching, NameOf, "");
    assert forall k :: WithKey(r, NameOf, k) == WithKey(matching, NameOf, k) by {
      forall k ensures WithKey(r, NameOf, k) == WithKey(matching, NameOf, k) {
        SortFacts(matching, NameOf, k);
      }
    }
    assert forall i :: 0 <= i < |r| ==> MatchesFilter(r[i], filter) by {
      forall i | 0 <= i < |r| ensures MatchesFilter(r[i], filter) {
        assert r[i] in multiset(r);
        assert r[i] in matching;
      }
    }
    r
  }

  class CountryList {
    var filter: string

    constructor()
      ensures filter == ""
    {
      filter := "";
    }

    /** `update`: a search sets the filter, a selection changes nothing; no follow-up messages. */
    method Update(msg: ListMessage) returns (follow: seq<ListMessage>)
      modifies this
      ensures follow == []
      ensures filter == (if msg.Search? then msg.text else old(filter))
    {
      match msg {
        case Search(text) => filter := text;
        case Select(_) =>
      }
      follow := [];
    }
  }

  // ---------------------------------------------------------------------------
  // World map
  // ---------------------------------------------------------------------------

  datatype CountryFilter = Exclude(exclusions: seq<string>) | Include(inclusions: seq<string>)

  /** `accept`: outside the exclusion list, or inside the inclusion list. */
  predicate Accept(f: CountryFilter, c: Country) {
    match f
    case Exclude(exclusions) => c.iso2 !in exclusions
    case Include(inclusions) => c.iso2 in inclusions
  }

  /** Excluding a list accepts exactly the countries that including it rejects. */
  lemma ExcludeIsComplement(list: seq<string>, c: Country)
    ensures Accept(Exclude(list), c) <==> !Accept(Include(list), c)
  {
  }

  datatype MapMessage = FilterChanged(filter: CountryFilter) | FilterRemoved

  datatype RenderStyle = Normal | Selected | Unselected

  predicate FillDefined(style: RenderStyle, country: Country) {
    style == Unselected || AsciiColorDefined(Utf8(country.iso3))
  }

  /** `get_fill_color`: the ISO-3 colour for `Normal` and `Selected`, gray for `Unselected`. */
  function FillColor(style: RenderStyle, country: Country): Color
    requires FillDefined(style, country)
  {
    match style
    case Normal => ColorFromAscii(Utf8(country.iso3))
    case Selected => ColorFromAscii(Utf8(country.iso3))
    case Unselected => Gray
  }

  /** Here selection does not change the colour, and an unselected country is gray. */
  lemma FillRule(country: Country)
    ensures FillDefined(Normal, country) <==> FillDefined(Selected, country)
    ensures FillDefined(Selected, country) ==> FillColor(Selected, country) == FillColor(Normal, country)
    ensures FillDefined(Unselected, country) && FillColor(Unselected, country) == Gray
  {
  }

  /** The filter's `accept` as a predicate on countries, the argument `partition` is given. */
  function Accepts(f: CountryFilter): Country -> bool {
    c => Accept(f, c)
  }

  datatype Item = Item(country: Country, style: RenderStyle)

  function Styled(countries: seq<Country>, style: RenderStyle): seq<Item> {
    seq(|countries|, i requires 0 <= i < |countries| => Item(countries[i], style))
  }

  function ItemCountries(items: seq<Item>): seq<Country> {
    seq(|items|, i requires 0 <= i < |items| => items[i].country)
  }

  /** The order of `draw_country` calls: the selection first, then the rest; without a filter, all `Normal`. */
  function DrawOrder(filter: Option<CountryFilter>, countries: seq<Country>): seq<Item> {
    match filter
    case None => Styled(countries, Normal)
    case Some(f) =>
      var parts := Partition(Accepts(f), countries);
      Styled(parts.0, Selected) + Styled(parts.1, Unselected)
  }

  /**
   * Every country is drawn exactly once; with a filter the accepted ones are
   * `Selected` and come before every `Unselected` one; without a filter the
   * countries are drawn in order as `Normal`.
   */
  lemma DrawOrderFacts(filter: Option<CountryFilter>, countries: seq<Country>)
    ensures multiset(ItemCountries(DrawOrder(filter, countries))) == multiset(countries)
    ensures filter.Some? ==>
            forall i :: 0 <= i < |DrawOrder(filter, countries)| ==>
              DrawOrder(filter, countries)[i].style == (if Accept(filter.value, DrawOrder(filter, countries)[i].country) then Selected else Unselected)
    ensures filter.Some? ==>
            forall i, j :: 0 <= i < j < |DrawOrder(filter, countries)| && DrawOrder(filter, countries)[i].style == Unselected ==>
              DrawOrder(filter, countries)[j].style == Unselected
    ensures filter.Some? ==>
            ItemCountries(DrawOrder(filter, countries)) ==
            Keep(Accepts(filter.value), true, countries) + Keep(Accepts(filter.value), false, countries)
    ensures filter.None? ==>
            ItemCountries(DrawOrder(filter, countries)) == countries &&
            forall i :: 0 <= i < |countries| ==> DrawOrder(filter, countries)[i].style == Normal
  {
    match filter
    case None =>
      assert ItemCountries(DrawOrder(filter, countries)) == countries;
    case Some(f) =>
      FilteredOrder(f, countries);
  }

  lemma ItemCountriesOfStyled(countries: seq<Country>, style: RenderStyle)
    ensures ItemCountries(Styled(countries, style)) == countries
  {
  }

  lemma ItemCountriesAppend(a: seq<Item>, b: seq<Item>)
    ensures ItemCountries(a + b) == ItemCountries(a) + ItemCountries(b)
  {
  }

  /** The filtered case of `DrawOrderFacts`: the accepted countries in input order, then the rejected ones. */
  lemma FilteredOrder(f: CountryFilter, countries: seq<Country>)
    ensures ItemCountries(DrawOrder(Some(f), countries)) ==
            Keep(Accepts(f), true, countries) + Keep(Accepts(f), false, countries)
    ensures multiset(ItemCountries(DrawOrder(Some(f), countries))) == multiset(countries)
    ensures forall i :: 0 <= i < |DrawOrder(Some(f), countries)| ==>
              DrawOrder(Some(f), countries)[i].style == (if Accept(f, DrawOrder(Some(f), countries)[i].country) then Selected else Unselected)
    ensures forall i, j :: 0 <= i < j < |DrawOrder(Some(f), countries)| && DrawOrder(Some(f), countries)[i].style == Unselected ==>
              DrawOrder(Some(f), countries)[j].style == Unselected
  {
    var parts := Partition(Accepts(f), countries);
    var selected, unselected := Styled(parts.0, Selected), Styled(parts.1, Unselected);
    assert DrawOrder(Some(f), countries) == selected + unselected;
    ItemCountriesOfStyled(parts.0, Selected);
    ItemCountriesOfStyled(parts.1, Unselected);
    ItemCountriesAppend(selected, unselected);
    FilteredStyles(f, parts.0, parts.1);
  }

  /** Accepted countries styled `Selected`, then rejected ones styled `Unselected`: each style tells acceptance, and they come in two blocks. */
  lemma FilteredStyles(f: CountryFilter, accepted: seq<Country>, rejected: seq<Country>)
    requires forall c :: c in accepted ==> Accepts(f)(c)
    requires forall c :: c in rejected ==> !Accepts(f)(c)
    ensures forall i :: 0 <= i < |Styled(accepted, Selected) + Styled(rejected, Unselected)| ==>
              var item := (Styled(accepted, Selected) + Styled(rejected, Unselected))[i];
              item.style == (if Accept(f, item.country) then Selected else Unselected)
    ensures forall i :: 0 <= i < |Styled(accepted, Selected) + Styled(rejected, Unselected)| ==>
              ((Styled(accepted, Selected) + Styled(rejected, Unselected))[i].style == Unselected <==> i >= |accepted|)
  {
    var selected, unselected := Styled(accepted, Selected), Styled(rejected, Unselected);
    var order := selected + unselected;
    forall i | 0 <= i < |order|
      ensures order[i].style == (if Accept(f, order[i].country) then Selected else Unselected)
      ensures order[i].style == Unselected <==> i >= |accepted|
    {
      if i < |selected| {
        assert order[i] == selected[i];
        assert selected[i] == Item(accepted[i], Selected);
        assert Accepts(f)(accepted[i]);
      } else {
        var k := i - |selected|;
        assert order[i] == unselected[k];
        assert unselected[k] == Item(rejected[k], Unselected);
        assert !Accepts(f)(rejected[k]);
      }
    }
  }

  /** Here the colour is computed for every polygon of a country in the registry, even an empty one. */
  predicate ItemPaintable(item: Item, outlines: Outlines) {
    item.country.iso2 in outlines && |outlines[item.country.iso2]| > 0 ==> FillDefined(item.style, item.country)
  }

  predicate Paintable(items: seq<Item>, outlines: Outlines) {
    forall i :: 0 <= i < |items| ==> ItemPaintable(items[i], outlines)
  }

  /** `draw_polygon` of this file: the given colour, always a black outline. */
  function PolygonShape(polygon: Polygon, color: Color, v: Viewport): seq<Shape> {
    if polygon == [] then [] else [Shape(Outline(polygon, v), color, Black)]
  }

  function PolygonShapes(polygons: seq<Polygon>, color: Color, v: Viewport): seq<Shape>
    decreases |polygons|
  {
    if polygons == [] then [] else PolygonShape(polygons[0], color, v) + PolygonShapes(polygons[1..], color, v)
  }

  /**
   * The fill of a country's polygons. Black stands in where `get_fill_color`
   * would panic; no drawing of a paintable item uses it.
   */
  function CountryFill(item: Item): Color {
    if FillDefined(item.style, item.country) then FillColor(item.style, item.country) else Black
  }

  function CountryShapes(item: Item, outlines: Outlines, v: Viewport): seq<Shape> {
    if item.country.iso2 in outlines then PolygonShapes(outlines[item.country.iso2], CountryFill(item), v) else []
  }

  function RenderItems(items: seq<Item>, outlines: Outlines, v: Viewport): seq<Shape>
    decreases |items|
  {
    if items == [] then [] else CountryShapes(items[0], outlines, v) + RenderItems(items[1..], outlines, v)
  }

  function Render(filter: Option<CountryFilter>, countries: seq<Country>, outlines: Outlines, v: Viewport): seq<Shape> {
    RenderItems(DrawOrder(filter, countries), outlines, v)
  }

  /** Every shape this widget draws is stroked in black, whatever the style. */
  lemma {:induction false} BlackStrokes(items: seq<Item>, outlines: Outlines, v: Viewport)
    ensures forall s :: s in RenderItems(items, outlines, v) ==> s.stroke == Black
    decreases |items|
  {
    if items != [] {
      BlackStrokes(items[1..], outlines, v);
      var item := items[0];
      if item.country.iso2 in outlines {
        PolygonStrokes(outlines[item.country.iso2], CountryFill(item), v);
      }
    }
  }

  lemma {:induction false} PolygonStrokes(polygons: seq<Polygon>, color: Color, v: Viewport)
    ensures forall s :: s in PolygonShapes(polygons, color, v) ==> s.stroke == Black && s.fill == color
    ensures |PolygonShapes(polygons, color, v)| <= |polygons|
    decreases |polygons|
  {
    if polygons != [] {
      PolygonStrokes(polygons[1..], color, v);
    }
  }

  lemma {:induction false} RenderItemsAppend(a: seq<Item>, b: seq<Item>, outlines: Outlines, v: Viewport)
    ensures RenderItems(a + b, outlines, v) == RenderItems(a, outlines, v) + RenderItems(b, outlines, v)
    decreases |a|
  {
    if a != [] {
      assert (a + b)[0] == a[0] && (a + b)[1..] == a[1..] + b;
      RenderItemsAppend(a[1..], b, outlines, v);
    } else {
      assert a + b == b;
    }
  }

  /** `draw_polygon`, with the path built by the loop of `TracePolygon`. */
  method DrawPolygon(polygon: Polygon, color: Color, v: Viewport) returns (shapes: seq<Shape>)
    ensures shapes == PolygonShape(polygon, color, v)
  {
    if polygon == [] {
      return [];
    }
    var path := TracePolygon(polygon, v);
    shapes := [Shape(path, color, Black)];
  }

  /** `draw_country`: the colour is computed inside the loop, once per polygon. */
  method DrawCountry(item: Item, outlines: Outlines, v: Viewport) returns (shapes: seq<Shape>)
    requires ItemPaintable(item, outlines)
    ensures shapes == CountryShapes(item, outlines, v)
  {
    shapes := [];
    if item.country.iso2 !in outlines {
      return;
    }
    var polygons := outlines[item.country.iso2];
    ghost var fill := CountryFill(item);
    var i := 0;
    while i < |polygons|
      invariant 0 <= i <= |polygons|
      invariant shapes + PolygonShapes(polygons[i..], fill, v) == PolygonShapes(polygons, fill, v)
    {
      var color := FillColor(item.style, item.country);
      var more := DrawPolygon(polygons[i], color, v);
      PolygonShapesStep(polygons, i, color, v);
      ConcatAssoc(shapes, more, PolygonShapes(polygons[i + 1..], color, v));
      shapes := shapes + more;
      i := i + 1;
    }
  }

  lemma PolygonShapesStep(polygons: seq<Polygon>, i: int, color: Color, v: Viewport)
    requires 0 <= i < |polygons|
    ensures PolygonShapes(polygons[i..], color, v) ==
            PolygonShape(polygons[i], color, v) + PolygonShapes(polygons[i + 1..], color, v)
  {
    assert polygons[i..][0] == polygons[i] && polygons[i..][1..] == polygons[i + 1..];
  }

  method DrawItems(items: seq<Item>, outlines: Outlines, v: Viewport) returns (shapes: seq<Shape>)
    requires Paintable(items, outlines)
    ensures shapes == RenderItems(items, outlines, v)
  {
    shapes := [];
    var i := 0;
    while i < |items|
      invariant 0 <= i <= |items|
      invariant shapes + RenderItems(items[i..], outlines, v) == RenderItems(items, outlines, v)
    {
      var more := DrawCountry(items[i], outlines, v);
      RenderItemsStep(items, i, outlines, v);
      ConcatAssoc(shapes, more, RenderItems(items[i + 1..], outlines, v));
      shapes := shapes + more;
      i := i + 1;
    }
  }

  lemma RenderItemsStep(items: seq<Item>, i: nat, outlines: Outlines, v: Viewport)
    requires i < |items|
    ensures RenderItems(items[i..], outlines, v) == CountryShapes(items[i], outlines, v) + RenderItems(items[i + 1..], outlines, v)
  {
    assert items[i..][0] == items[i] && items[i..][1..] == items[i + 1..];
  }

  lemma PaintableSplit(a: seq<Item>, b: seq<Item>, outlines: Outlines)
    requires Paintable(a + b, outlines)
    ensures Paintable(a, outlines) && Paintable(b, outlines)
  {
    assert forall i :: 0 <= i < |a| ==> a[i] == (a + b)[i];
    assert forall i :: 0 <= i < |b| ==> b[i] == (a + b)[|a| + i];
  }

  class WorldMap {
    var countryFilter: Option<CountryFilter>
    var countries: seq<Country>
    var cache: Option<(real, real, seq<Shape>)>
    const outlines: Outlines

    ghost predicate Valid()
      reads this
    {
      cache.Some? ==>
        var (w, h, shapes) := cache.value;
        w > 0.0 && h > 0.0 &&
        shapes == Render(countryFilter, countries, outlines, Fit(w, h))
    }

    constructor(outlines: Outlines, all: seq<Country>)
      ensures Valid()
      ensures this.outlines == outlines && countries == all && countryFilter.None? && cache.None?
    {
      this.outlines := outlines;
      countries := all;
      countryFilter := None;
      cache := None;
    }

    /** `update`: clear the cache and set or drop the filter; the country list is not reloaded. */
    method Update(msg: MapMessage)
      modifies this
      ensures Valid()
      ensures countries == old(countries) && cache.None?
      ensures countryFilter == (match msg case FilterChanged(f) => Some(f) case FilterRemoved => None)
    {
      cache := None;
      match msg {
        case FilterChanged(f) => countryFilter := Some(f);
        case FilterRemoved => countryFilter := None;
      }
    }

    /** `draw`: the cached drawing for a frame of the same size, or the selection then the rest. */
    method Draw(w: real, h: real) returns (shapes: seq<Shape>)
      requires Valid() && w > 0.0 && h > 0.0
      requires Paintable(DrawOrder(countryFilter, countries), outlines)
      modifies this
      ensures countryFilter == old(countryFilter) && countries == old(countries)
      ensures Valid()
      ensures shapes == Render(countryFilter, countries, outlines, Fit(w, h))
      ensures cache == Some((w, h, shapes))
    {
      if cache.Some? && cache.value.0 == w && cache.value.1 == h {
        return cache.value.2;
      }
      var v := Fit(w, h);
      match countryFilter {
        case Some(f) =>
          var parts := Partition(Accepts(f), countries);
          var order := DrawOrder(countryFilter, countries);
          var selected, unselected := Styled(parts.0, Selected), Styled(parts.1, Unselected);
          assert order == selected + unselected;
          PaintableSplit(selected, unselected, outlines);
          var first := DrawItems(selected, outlines, v);
          var second := DrawItems(unselected, outlines, v);
          RenderItemsAppend(selected, unselected, outlines, v);
          shapes := first + second;
        case None =>
          shapes := DrawItems(DrawOrder(None, countries), outlines, v);
      }
      cache := Some((w, h, shapes));
    }
  }
}
