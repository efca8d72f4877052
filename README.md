# country-logger core, modelled in Dafny

country-logger is a desktop application that records the countries a user has visited and shows them on a world map. This project models the logic behind that map, the country list and the import/export files:

- **Path decoder** (`PathDecoder`). It turns the `<path>` elements of a country's SVG outline into polygons. It supports the M/m, L/l and Z/z commands of section 8.3 of SVG 1.1, with the source's two deviations from that standard:
  - extra coordinate pairs after a moveto are dropped;
  - a closepath does not move the cursor back.

  `PolygonsFromSvg` is the imperative decoder loop, proved equal to the step-by-step specification `Decode`.
- **Outline registry** (`Registry`). Every catalogue file is decoded and scaled by the 2000×857 canvas into the unit square. The result is stored under a key: the first two bytes of the file name.
- **Geometry** (`Geometry`): points, their operators and the normalisation.
- **Map styles and projector** (`MapStyle`):
  - the fill colour derived from the bytes of the ISO-3 code, including the "lightening" of unvisited countries in u8 arithmetic;
  - the stroke colour;
  - the letterbox fit of the map into a frame;
  - the path traced for each polygon.
- **World map widgets**:
  - `WorldMapWidget` (src/widgets/world_map.rs) and its earlier variant `LegacyWidgets` (src/widgets.rs).
  - Each covers the Include/Exclude filter, the draw order, the style of every country and what a draw hands to the canvas.
  - Each has a `WorldMap` class with the filter, the country rows and the drawing cache as fields.
- **Country list** (`CountryListWidget`): the search filter, the only-visited filter and the stable sort by name.
- **Records and search** (`Models`, `BaseData`, `Search`): case-insensitive substring matching over name and ISO codes, and the catalogue keyed by lower-cased name.
- **Import/export** (`Importer`):
  - the versioned `1;` header and its parse errors;
  - the export/import round trip;
  - the `simple_import` loops over an in-memory visit table (class `Database`).
- **Supporting modules**:
  - `Text`: the Rust string operations used, i.e. ASCII `to_lowercase`, `contains`, `split`, `lines`, UTF-8 bytes and i32 parsing.
  - `StableSort`: a stable sort by a string key.
  - `Partitions`: `Iterator::partition`, shared by both map widgets.
  - `Wrappers`: `Option`, `Result` and the `u8` newtype.

**Panics.**
- Where the data decides whether the Rust code panics, the panic is a `Failure` value:
  - an `unwrap` of a missing coordinate or a missing current point in the decoder;
  - a file name whose byte 2 is not a character boundary in the registry.
- Where the caller must rule a panic out, it is a `requires`, through `FillDefined` and `Paintable`:
  - the index panic of `color_from_ascii` on an ISO-3 code of fewer than three bytes, which happens in every build;
  - the u8 subtractions `b'Z' - c` and `ascii - b'A'`, which panic on underflow only when overflow checks are on (a debug build); a release build wraps them instead.

**Numbers.**
- Coordinates, sizes and colour channels are `real`, so every geometric statement holds in exact arithmetic.
- Bytes are a `u8` newtype, so a u8 subtraction that would underflow is a verification obligation: the model follows the debug build, where it panics.

**Decoder and registry details the model keeps from the code:**
- An absolute moveto does not flush the accumulated points. Only a closepath or a relative moveto does.
- A closepath emits the accumulator even when it is empty.
- The registry key is the first two bytes of the file name, without upper-casing.
- `PathDecoder.RelativeMoveExample` shows that `M 0,0 L 1,0 m 1,1 l 1,0 Z` yields `[(0,0),(1,0)]` and `[(2,1),(3,1)]`.

**A behaviour worth knowing (not a defect claim).**
- `simple_import` splits the whole file on `,` without trimming.
- A file ending in a newline therefore leaves `"\n"` on its last code, and that code matches no country.
- `Importer.Database.SimpleImport` states this literally: it takes `Split(contents, ',')` as the codes.

## Model

| member | source | states |
|---|---|---|
| Geometry.PointAlgebra | src/svg_helper.rs:30-44 | Point addition and multiplication act per axis: addition is commutative and associative with unit (0,0); multiplication is commutative with unit (1,1) and distributes over addition |
| Geometry.ScalePolygon | src/svg_helper.rs:118-122 | scaling keeps the number and order of the points, and each result point times (2000, 857) gives back the original point |
| Geometry.ScaleBounds | src/svg_helper.rs:118-122 | a point lies inside the 2000×857 canvas exactly when its scaled point lies in the unit square |
| PathDecoder.NextPoint | src/svg_helper.rs:124-131 | reading a point succeeds exactly when two numbers remain and, for a relative point, a current point exists; a missing current point is its own failure; an absolute point is the pair, a relative one the pair plus the cursor |
| PathDecoder.PolygonsFromSvg | src/svg_helper.rs:54-116 | the imperative decoder (nested loops over events, commands and line parameters, mutating paths, accumulator and cursor) returns exactly the specification `Decode`, including its panics |
| PathDecoder.LineToAppends | src/svg_helper.rs:83-105 | a lineto succeeds iff its parameter list is non-empty and even (and a relative one has a cursor); it then appends one point per pair (absolute pairs, or a cumulative walk for `l`), leaves finished polygons alone and moves the cursor to the last point |
| PathDecoder.RunAppendsPolygons | src/svg_helper.rs:66-112 | emitted polygons are never changed, and each closepath or relative moveto emits exactly one polygon (possibly empty) while no other command emits any |
| PathDecoder.UnsupportedIgnored | src/svg_helper.rs:110 | unsupported commands change nothing: decoding with them equals decoding with them removed |
| PathDecoder.TrailingPointsDropped | src/svg_helper.rs:64-115 | points accumulated after the last flushing command of an element are dropped: appending commands that do not flush leaves the element's output unchanged |
| PathDecoder.DecodeIsConcatenation | src/svg_helper.rs:57-65 | the output is the concatenation, in document order, of what each `<path>` element yields on its own from an empty accumulator and no cursor; elements without `d` and other events contribute nothing |
| PathDecoder.PolygonCount | src/svg_helper.rs:66-112 | a successful decode yields exactly as many polygons as there are closepaths plus relative movetos in the document |
| PathDecoder.MoveIgnoresExtraPairs | src/svg_helper.rs:68-82 | a moveto reads only its first coordinate pair: its effect equals that of the moveto with the other pairs removed |
| PathDecoder.MoveIsNotImplicitLineto | src/svg_helper.rs:71-74 | `M 0,0 1,1 Z` yields the single polygon [(0,0)], where SVG 1.1 would draw a line to (1,1) |
| PathDecoder.CloseKeepsCursor | src/svg_helper.rs:106-109 | `M 0,0 L 5,0 Z m 1,1 Z` yields [(0,0),(5,0)], then an empty polygon, then [(6,1)]: a closepath keeps the cursor and a relative moveto flushes an empty accumulator |
| PathDecoder.SegmentationExample | src/svg_helper.rs:66-111 | `M 0,0 L 1,0 L 1,1 Z M 2,2 L 3,2 Z` yields [(0,0),(1,0),(1,1)] and [(2,2),(3,2)] |
| PathDecoder.RelativeMoveExample | src/svg_helper.rs:75-103 | `M 0,0 L 1,0 m 1,1 l 1,0 Z` yields [(0,0),(1,0)] (flushed by the relative move) and [(2,1),(3,1)] (relative offsets built on the cursor) |
| PathDecoder.RelativeNeedsCursor | src/svg_helper.rs:75-103 | an element that starts with a relative moveto or lineto panics on the missing current point |
| Registry.FileKey | src/svg_helper.rs:18 | the key is the prefix of the name whose UTF-8 encoding is exactly the first two bytes, unchanged in case; there is none (the slice panics) exactly when no prefix encodes to two bytes |
| Registry.Scaled | src/svg_helper.rs:21 | every polygon of a file is scaled, count and order kept |
| Registry.CountryPolygons | src/svg_helper.rs:14-25 | the initialiser loop, inserting into a mutable map, returns exactly the fold `Build` over the files, failing on the first bad name or panicking path |
| Registry.LoadContents | src/svg_helper.rs:17-22 | loading succeeds iff every file has a key and decodes; the keys are the files' keys plus the initial ones; each key holds the scaled outlines of the last file with that key, and untouched initial keys keep their values |
| Registry.RegistryContents | src/svg_helper.rs:14-25 | the registry has a key exactly when some file yields it, and holds the scaled outlines of the last such file |
| Registry.LoadInUnitSquare | src/svg_helper.rs:14-25 | inserting files whose decoded points lie on the 2000×857 canvas into outlines in the unit square keeps every outline in the unit square |
| Registry.RegistryInUnitSquare | src/svg_helper.rs:14-25 | when every decoded point lies on the 2000×857 canvas, every outline of the registry lies in the unit square |
| MapStyle.ComponentOrder | src/widgets/world_map.rs:116-120 | for bytes 'A'..'Z' the channel lies in [0, 25/26], is 0 only for 'A' and 25/26 only for 'Z', and increases strictly with the byte |
| MapStyle.Lighten | src/widgets/world_map.rs:74-80 | lightening a byte up to 'Z' gives a byte between it and 'Z', never below 'O'; it is 'Z' exactly for bytes from 'S' on |
| MapStyle.LightenExamples | src/widgets/world_map.rs:74-80 | 'A' lightens to 'W' and 'Z' is a fixed point |
| MapStyle.Fit | src/widgets/world_map.rs:163-173 | for a positive frame the rendered size keeps the 2000:857 aspect, fits in the frame and fills its width or its height, and the non-negative offsets centre it on both axes |
| MapStyle.ProjectInside | src/widgets/world_map.rs:177-180 | every unit-square point is projected strictly inside the frame |
| MapStyle.OutlineShape | src/widgets/world_map.rs:181-189 | an empty polygon has no path; otherwise the path moves to the first projected point, draws a line to each further one in order, and closes |
| MapStyle.TracePolygon | src/widgets/world_map.rs:181-189 | the path-building loop yields exactly the outline path of the polygon |
| Partitions.Partition | src/widgets/world_map.rs:135-137 | the first group is exactly the accepted elements and the second exactly the rejected ones, each in input order (the filter `Keep`); together they hold every element once (as a multiset) |
| WorldMapWidget.SelectedAndUnselectedFill | src/widgets/world_map.rs:67-91 | `Selected` is filled like `Normal(true)` and is defined for the same codes; `Unselected` is gray 0.7 for every country |
| WorldMapWidget.StrokeRule | src/widgets/world_map.rs:93-105 | the stroke is green exactly for `Selected` and black otherwise |
| WorldMapWidget.UnvisitedIsLighter | src/widgets/world_map.rs:69-81 | for a three-letter upper-case ISO-3 code both fills are defined, and the unvisited fill is at least as bright as the visited one in every channel |
| WorldMapWidget.FillExamples | src/widgets/world_map.rs:108-120 | "AAA" is filled (0,0,0) and "ZZZ" is filled 25/26 in every channel |
| WorldMapWidget.DrawOrderFacts | src/widgets/world_map.rs:133-149 | every country is drawn exactly once; with a filter, the rejected countries are drawn in input order and then the accepted ones in input order, a country is `Selected` iff the filter accepts it, and no unselected country comes after a selected one; without one, each row is drawn in place as `Normal` with its own visited flag |
| WorldMapWidget.CountryColors | src/widgets/world_map.rs:154-197 | every shape drawn for a paintable country is filled with its style's colour, which is then defined, and stroked with its style's stroke colour |
| WorldMapWidget.RenderInsideFrame | src/widgets/world_map.rs:162-189 | when the registry's outlines lie in the unit square (`UnitOutlines`, which `Registry.RegistryInUnitSquare` provides), every point of every drawn path lies inside the frame |
| WorldMapWidget.DrawPolygon | src/widgets/world_map.rs:162-197 | one polygon draws nothing if empty, else its outline filled in the style's colour and stroked in the style's stroke colour |
| WorldMapWidget.DrawCountry | src/widgets/world_map.rs:154-160 | the polygon loop draws each outline of the country's ISO-2 key in order, or nothing when the registry has no such key |
| WorldMapWidget.DrawItems | src/widgets/world_map.rs:138-147 | the country loops draw the items in order, concatenating their shapes |
| WorldMapWidget.WorldMap.constructor | src/widgets/world_map.rs:35-41 | a new map has no filter, the queried rows and an empty cache |
| WorldMapWidget.WorldMap.Update | src/widgets/world_map.rs:50-57 | update reloads the rows, clears the cache, and sets the filter to `Some(f)` on `FilterChanged(f)` or `None` on `FilterRemoved` |
| WorldMapWidget.WorldMap.Draw | src/widgets/world_map.rs:125-151 | a draw, cached or not, returns exactly the rendering of the current filter and rows at the fitted viewport, leaves filter and rows alone, and caches that drawing with the frame size |
| LegacyWidgets.Matching | src/widgets.rs:70-72 | the countries kept by the search are exactly those of the input that match the filter |
| LegacyWidgets.MatchingCounts | src/widgets.rs:70-72 | nothing is added or dropped: each matching country is kept as many times as it occurs in the input, the others never |
| LegacyWidgets.GetFilteredCountries | src/widgets.rs:70-75 | the result is a permutation of the matching countries, sorted by name, and stable: countries with the same name keep their input order |
| LegacyWidgets.CountryList.constructor | src/widgets.rs:22-26 | a new list has an empty search |
| LegacyWidgets.CountryList.Update | src/widgets.rs:60-68 | `Search(s)` sets the filter to `s`, `Select` changes nothing, and no follow-up message is returned |
| LegacyWidgets.ExcludeIsComplement | src/widgets.rs:108-115 | for the same list, the exclusion filter accepts exactly the countries the inclusion filter rejects |
| LegacyWidgets.FillRule | src/widgets.rs:161-175 | `Normal` and `Selected` share the ISO-3 colour and are defined for the same codes; `Unselected` is gray 0.7 |
| LegacyWidgets.DrawOrderFacts | src/widgets.rs:203-217 | every country is drawn exactly once; with a filter, the accepted countries are drawn in input order as `Selected` and then the rejected ones in input order as `Unselected`, so every selected one comes before every unselected one; without one, all are `Normal` in list order |
| LegacyWidgets.BlackStrokes | src/widgets.rs:260-265 | every shape this widget draws has a black stroke, whatever the style |
| LegacyWidgets.PolygonStrokes | src/widgets.rs:231-265 | each polygon yields at most one shape, filled in the given colour and stroked black |
| LegacyWidgets.DrawPolygon | src/widgets.rs:231-265 | one polygon draws nothing if empty, else its outline filled in the given colour with a black stroke |
| LegacyWidgets.DrawCountry | src/widgets.rs:222-229 | the polygon loop computes the colour for each polygon and draws every outline of the country's key in order |
| LegacyWidgets.DrawItems | src/widgets.rs:206-215 | the country loops draw the items in order, concatenating their shapes |
| LegacyWidgets.WorldMap.constructor | src/widgets.rs:130-136 | a new map has no filter, the given countries and an empty cache |
| LegacyWidgets.WorldMap.Update | src/widgets.rs:145-151 | update clears the cache and sets or drops the filter, but keeps the country list |
| LegacyWidgets.WorldMap.Draw | src/widgets.rs:195-219 | a draw returns exactly the rendering of the current filter and countries at the fitted viewport and caches it with the frame size |
| CountryListWidget.Passing | src/widgets/country_list.rs:75-79 | a country is kept iff some row of it matches the search and, when only visited countries are wanted, is visited |
| CountryListWidget.PassingCounts | src/widgets/country_list.rs:75-79 | nothing is added or dropped: a country is listed exactly as many times as it has rows that pass both filters |
| CountryListWidget.StableByName | src/widgets/country_list.rs:80 | sorting by name keeps, for every name, the countries with that name in their original order |
| CountryListWidget.PassingRowsShown | src/widgets/country_list.rs:75-82 | any arrangement of the passing countries shows only countries matching the search and, when asked, only visited ones |
| CountryListWidget.CountryList.constructor | src/widgets/country_list.rs:21-26 | a new list has an empty search and shows visited and unvisited countries |
| CountryListWidget.CountryList.Update | src/widgets/country_list.rs:63-73 | `Search` sets only the search text, `FilterOnlyVisited` sets only the visited flag, `Select` changes nothing |
| CountryListWidget.CountryList.GetFilteredCountries | src/widgets/country_list.rs:75-82 | the result is a permutation of the countries passing both filters, sorted by name and stable; each matches the search, and each is visited when only visited countries are wanted |
| StableSort.SortFacts | src/widgets/country_list.rs:80 | the sort yields a sorted permutation of its input in which the elements of each key keep their order |
| Models.FromBaseData | src/models.rs:32-41 | the new row copies the name, takes alpha-2 as ISO-2 and alpha-3 as ISO-3, and has no description |
| Models.FilterBasics | src/models.rs:15-20 | the empty filter matches every country, and a filter matches exactly when its lower-cased form does |
| Models.FilterSubstring | src/models.rs:15-20 | any substring of a matching filter matches too |
| Models.FilterFindsOwnFields | src/models.rs:15-20 | a filter equal, ignoring case, to the country's name, ISO-2 or ISO-3 code finds it |
| Models.FromBaseDataKeepsSearch | src/models.rs:32-41 | a row created from a catalogue entry is found by exactly the searches that find the entry |
| Search.EmptyFilterMatches | src/models.rs:15-20 | the empty filter matches any record with a field |
| Search.MatchIgnoresCase | src/models.rs:15-20 | lower-casing the filter first does not change whether it matches |
| Search.MatchSubstring | src/models.rs:15-20 | a record matches every substring of a filter it matches |
| Search.MatchOwnField | src/models.rs:15-20 | searching for a field's own text, in any case, finds the record |
| BaseData.IndexContents | src/base_data.rs:5-10 | the catalogue's keys are exactly the lower-cased names, and each holds the last entry with that lower-cased name |
| BaseData.ByNameFinds | src/base_data.rs:25-27 | a lookup finds an entry iff some entry's name equals the query ignoring case, and then the last such entry |
| BaseData.ByNameIgnoresCase | src/base_data.rs:25-27 | looking up a name and its lower-cased form give the same result |
| BaseData.FilterBasics | src/base_data.rs:29-34 | the empty filter matches every entry, and matching ignores the filter's case |
| BaseData.CodeSufficient | src/base_data.rs:29-34 | a filter equal, ignoring case, to the alpha-2 or alpha-3 code finds the entry |
| Importer.ToCountry | src/importer.rs:82-92 | the database country takes every field of the import record |
| Importer.FromCountry | src/importer.rs:94-104 | the import record takes every field of the database country |
| Importer.ConversionsInverse | src/importer.rs:82-104 | the two conversions compose to the identity in both directions |
| Importer.MetaLineText | src/importer.rs:148-150 | the meta line is exactly "1;" |
| Importer.HeaderErrors | src/importer.rs:175-195 | empty text fails with `MissingMetaLine`; a version that is not an i32 fails with `MetaLineFormat`; a version other than 1 fails with `WrongVersion{expected: 1, actual}`; the "Missing version" error is never returned |
| Importer.LinesNonEmpty | src/importer.rs:176-180 | non-empty text has a first line, so `MissingMetaLine` means empty text |
| Importer.MetaVersion | src/importer.rs:176-182 | the version field of a meta line is exactly the text before its first ';', whatever follows it and whether or not the line ended in "\r\n" |
| Importer.MetaTailIgnored | src/importer.rs:181-183 | anything after the first ';' of the meta line, a carriage return before its line ending included, does not influence the result |
| Importer.ExportImportRoundTrip | src/importer.rs:214-248 | when the JSON body round-trips, the export succeeds and importing it gives back the same file value |
| Importer.FullExportRestoresCountries | src/importer.rs:131-141 | importing a full export yields the exported countries, in order and unchanged, and no visits |
| Importer.CountryByIso2 | src/importer.rs:61 | the lookup returns a table country with exactly that ISO-2 code, and returns nothing exactly when no country has it |
| Importer.Resolve | src/importer.rs:59-64 | every collected country is in the table and named by some code, and every code that names a country has it collected |
| Importer.NewVisitsFacts | src/importer.rs:65-69 | the inserted ids are new and distinct, belong to found countries, and afterwards every found country is visited |
| Importer.LookUpCodes | src/importer.rs:59-64 | the first loop collects exactly the resolved countries, in code order |
| Importer.Database.VisitAll | src/importer.rs:65-69 | the second loop appends exactly the ids of found countries not yet visited, each once, and leaves the country table alone |
| Importer.Database.SimpleImport | src/importer.rs:55-71 | a simple import appends exactly the new visits of the countries named by the comma-separated codes |
| Importer.SimpleImportEffect | src/importer.rs:55-71 | after a simple import every code that names a country has it visited; each inserted visit is new and names a listed country; no country gains two visits, even for repeated codes |
| Text.Contains | src/models.rs:17-19 | `contains` holds iff the needle occurs at some index of the text |
| Text.Split | src/importer.rs:181-182 | splitting always yields at least one piece |
| Text.SplitJoin | src/importer.rs:57 | joining the pieces with the separator gives the text back |
| Text.SplitAtFirst | src/importer.rs:181-182 | the first piece of a split is the text before the first separator |
| Text.LinesJoin | src/importer.rs:196 | text without carriage returns or a final newline survives `lines` followed by `join("\n")` |
| Text.ParseShowsI32 | src/importer.rs:183 | parsing the decimal text of any i32 gives it back |
| Text.Utf8Char | src/svg_helper.rs:18 | a character encodes to 1 to 4 bytes, one exactly for ASCII, and only bytes ≥ 0x80 otherwise |
| Text.Utf8Ascii | src/widgets/world_map.rs:70 | an ASCII string encodes to one byte per character, equal to its code |

## Left out

- XML reading and path-data tokenising (`svg::read`, `Data::parse`) are not part of this model. The decoder takes already tokenised events and commands. A tokeniser error is not modelled.
- The embedded directory (`include_dir`), file reading, `fs::read_to_string` and `fs::write`: file names and contents are parameters, and the directory listing order is the sequence order.
- `println!` diagnostics for unsupported commands.
- `lazy_static` one-time initialisation and thread safety. The registry is a value built once and handed to the map.
- f32 rounding. Coordinates, aspect ratios and colour channels are exact reals, so the letterbox lemmas hold only in exact arithmetic.
- Full Unicode `to_lowercase`. Only ASCII letters are lower-cased.
- serde_json and serde_yaml. The JSON body is a pair of functions given as a parameter. Its round trip is a hypothesis (`Importer.SerdeRoundTrip`), not a fact proved here.
- The database (diesel, SQLite, the connection pool):
  - `all_countries`, `all_countries_with_visit_status` and `country_by_iso2` become sequences passed in, or a search of one.
  - The visit table is a sequence of country ids.
  - Database and I/O errors of `simple_import`, `full_export` and `full_import` are not modelled.
- `full_import`'s insertion loops and the conversion `CountryVisit::from(ImportVisit)` (src/importer.rs:112-119) they use: they only copy each decoded record's fields and pass it to the database.
- Every `view()` method, and the iced `Frame`, `Path` and `canvas::Cache` APIs.
  - A drawing is the sequence of filled and stroked paths it produces.
  - The cache is a field holding the last drawing and its frame size.
- MapStyle.Fit: requires a frame of positive width and height, because the source divides by the frame height and a zero-sized frame is never drawn meaningfully.
- WorldMapWidget.WorldMap.Draw: requires that each drawn country's colour is defined (`Paintable`), because the source panics otherwise: always for an ISO-3 code shorter than three bytes, and in a debug build for a byte that makes `b'Z' - c` or `ascii - b'A'` underflow. The rendering functions themselves are total: where the colour would be undefined they use black, which no paintable drawing reaches.
- WorldMapWidget.FillDefined: a release build wraps the u8 subtractions instead of panicking (an ISO-3 byte '0' gives the component (48 - 65) mod 256 / 26 = 239/26); the model excludes that wrapping behaviour through `FillDefined` and `Paintable` rather than computing it.
- LegacyWidgets.WorldMap.Draw: requires that each drawn country's colour is defined (`Paintable`), because the source panics otherwise (always for a short ISO-3 code, and in a debug build on u8 underflow).
- LegacyWidgets.FillDefined: the wrapping of the u8 subtractions in a release build is excluded in the same way.
