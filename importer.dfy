/**
 * Export and import of the country data (src/importer.rs): the versioned
 * file format (a "1;" meta line, then a JSON body) and the simple import of a
 * comma-separated list of ISO-2 codes. The JSON (de)serialiser is a pair of
 * functions supplied by the caller; the database is an in-memory table.
 */
module Importer {
  import opened Wrappers
  import opened Text
  import opened Models

  const ImportFileVersion: int := 1

  datatype FormatError =
    | MissingMetaLine
    | MetaLineFormat(message: string)
    | WrongVersion(expected: int, actual: int)
    | SerdeJson

  /** The error kinds the functions modelled here can return; database and I/O errors are not modelled. */
  datatype ImportError = Format(error: FormatError)

  datatype ImportCountry = ImportCountry(id: int, name: string, iso2: string, iso3: string, description: Option<string>)

  datatype ImportVisit = ImportVisit(id: int, countryId: int)

  datatype ImportNotes = ImportNotes

  datatype FullImportFile = FullImportFile(countries: seq<ImportCountry>, visits: seq<ImportVisit>, notes: map<int, seq<ImportNotes>>)

  /** `serde_json::to_string_pretty` and `serde_json::from_str` for `FullImportFile`; `None` is a serde error. */
  datatype JsonCodec = JsonCodec(ser: FullImportFile -> Option<string>, de: string -> Option<FullImportFile>)

  /**
   * What the format relies on for one value: the pretty JSON text parses back
   * to the value, holds no raw carriage return, and does not end in a newline.
   */
  predicate SerdeRoundTrip(json: JsonCodec, f: FullImportFile) {
    json.ser(f).Some? &&
    var body := json.ser(f).value;
    json.de(body) == Some(f) && '\r' !in body && (body == "" || body[|body| - 1] != '\n')
  }

  // ---------------------------------------------------------------------------
  // Conversions
  // ---------------------------------------------------------------------------

  /** `Country::from(ImportCountry)`. */
  function ToCountry(c: ImportCountry): (r: Country)
    ensures r.id == c.id && r.name == c.name && r.iso2 == c.iso2 && r.iso3 == c.iso3 && r.description == c.description
  {
    Country(c.id, c.name, c.iso2, c.iso3, c.description)
  }

  /** `ImportCountry::from(Country)`. */
  function FromCountry(c: Country): (r: ImportCountry)
    ensures r.id == c.id && r.name == c.name && r.iso2 == c.iso2 && r.iso3 == c.iso3 && r.description == c.description
  {
    ImportCountry(c.id, c.name, c.iso2, c.iso3, c.description)
  }

  /** The two conversions are inverse to each other. */
  lemma ConversionsInverse(c: Country, i: ImportCountry)
    ensures ToCountry(FromCountry(c)) == c
    ensures FromCountry(ToCountry(i)) == i
  {
  }

  // ---------------------------------------------------------------------------
  // File format
  // ---------------------------------------------------------------------------

  /** `format_meta_line`: the version in decimal, then ';'. */
  function FormatMetaLine(): string {
    IntToString(ImportFileVersion) + ";"
  }

  lemma MetaLineText()
    ensures FormatMetaLine() == "1;"
  {
  }

  /** `format_full_export_file`: the meta line, a newline, the pretty JSON. */
  function FormatFullExportFile(json: JsonCodec, f: FullImportFile): Result<string, ImportError> {
    match json.ser(f)
    case None => Failure(Format(SerdeJson))
    case Some(body) => Success(FormatMetaLine() + "\n" + body)
  }

  /**
   * `full_import_file_from_string`: the first line must exist and its text
   * before the first ';' must be the i32 1; the remaining lines, joined by
   * '\n', are the JSON body.
   */
  function FullImportFileFromString(json: JsonCodec, contents: string): Result<FullImportFile, ImportError> {
    var lines := Lines(contents);
    if lines == [] then
      Failure(Format(MissingMetaLine))
    else
      var meta := Split(lines[0], ';');
      if |meta| == 0 then
        Failure(Format(MetaLineFormat("Missing version")))
      else
        match ParseI32(meta[0])
        case None => Failure(Format(MetaLineFormat("Version is not a number (i32)")))
        case Some(version) =>
          if version != ImportFileVersion then
            Failure(Format(WrongVersion(ImportFileVersion, version)))
          else
            match json.de(Join(lines[1..], '\n'))
            case None => Failure(Format(SerdeJson))
            case Some(f) => Success(f)
  }

  /** The header checks: each failure has its own error, and "Missing version" is never returned. */
  lemma HeaderErrors(json: JsonCodec, contents: string)
    ensures contents == "" ==> FullImportFileFromString(json, contents) == Failure(Format(MissingMetaLine))
    ensures FullImportFileFromString(json, contents) != Failure(Format(MetaLineFormat("Missing version")))
    ensures contents != "" ==>
            var version := Split(Lines(contents)[0], ';')[0];
            (ParseI32(version).None? ==>
               FullImportFileFromString(json, contents) == Failure(Format(MetaLineFormat("Version is not a number (i32)")))) &&
            (ParseI32(version).Some? && ParseI32(version).value != 1 ==>
               FullImportFileFromString(json, contents) == Failure(Format(WrongVersion(1, ParseI32(version).value))))
  {
    if contents != "" {
      assert Split(contents, '\n') != [] && Split(contents, '\n')[0] != "" ==> Lines(contents) != [];
      LinesNonEmpty(contents);
    }
  }

  /** Non-empty text has at least one line. */
  lemma LinesNonEmpty(s: string)
    requires s != ""
    ensures |Lines(s)| >= 1
  {
    var p := Split(s, '\n');
    SplitLastEmpty(s, '\n');
    if |p| == 1 {
      SplitJoin(s, '\n');
      assert p[0] == s;
    }
  }

  /** Anything after the first ';' of the meta line is ignored, a '\r' before its line ending included. */
  lemma MetaTailIgnored(json: JsonCodec, version: string, tail: string, rest: string)
    requires ';' !in version && '\n' !in version && '\n' !in tail
    ensures FullImportFileFromString(json, version + ";" + tail + "\n" + rest) ==
            FullImportFileFromString(json, version + ";\n" + rest)
  {
    var a, b := version + ";" + tail, version + ";";
    assert version + ";" + tail + "\n" + rest == a + "\n" + rest;
    assert version + ";\n" + rest == b + "\n" + rest;
    assert '\n' !in a && '\n' !in b;
    LinesCons(a, rest);
    LinesCons(b, rest);
    MetaVersion(version, tail);
    MetaVersion(version, "");
    assert b == version + ";" + "";
    var la, lb := Lines(a + "\n" + rest), Lines(b + "\n" + rest);
    assert la == [StripCR(a)] + Lines(rest) && lb == [StripCR(b)] + Lines(rest);
    assert Split(la[0], ';')[0] == version == Split(lb[0], ';')[0];
    assert la[1..] == Lines(rest) == lb[1..];
    SameHeaderSameResult(json, a + "\n" + rest, b + "\n" + rest);
  }

  /** The version field of a meta line is the text before its ';', whatever follows and whether or not a '\r' ends it. */
  lemma MetaVersion(version: string, tail: string)
    requires ';' !in version
    ensures Split(StripCR(version + ";" + tail), ';')[0] == version
  {
    var t := if |tail| > 0 && tail[|tail| - 1] == '\r' then tail[..|tail| - 1] else tail;
    assert StripCR(version + ";" + tail) == version + [';'] + t;
    SplitAtFirst(version, ';', t);
  }

  /** Only the text before the first ';' of the first line and the lines after it matter. */
  lemma SameHeaderSameResult(json: JsonCodec, c: string, d: string)
    requires Lines(c) != [] && Lines(d) != []
    requires Split(Lines(c)[0], ';')[0] == Split(Lines(d)[0], ';')[0]
    requires Lines(c)[1..] == Lines(d)[1..]
    ensures FullImportFileFromString(json, c) == FullImportFileFromString(json, d)
  {
  }

  /** Importing an exported file gives back the exported value, whenever the JSON body round-trips. */
  lemma ExportImportRoundTrip(json: JsonCodec, f: FullImportFile)
    requires SerdeRoundTrip(json, f)
    ensures FormatFullExportFile(json, f).Success?
    ensures FullImportFileFromString(json, FormatFullExportFile(json, f).value) == Success(f)
  {
    var body := json.ser(f).value;
    MetaLineText();
    LinesCons("1;", body);
    assert StripCR("1;") == "1;";
    var lines := Lines("1;" + "\n" + body);
    assert lines[1..] == Lines(body);
    LinesJoin(body);
    SplitAtFirst("1", ';', "");
    assert "1" + [';'] + "" == "1;";
    assert Split("", ';') == [""];
    ParseShowsI32(1);
  }

  /** `full_export`: every country of the table, no visits and no notes. */
  function FullExport(json: JsonCodec, countries: seq<Country>): Result<string, ImportError> {
    FormatFullExportFile(json, FullImportFile(seq(|countries|, i requires 0 <= i < |countries| => FromCountry(countries[i])), [], map[]))
  }

  /** Importing a full export gives the exported countries back, unchanged and in order. */
  lemma FullExportRestoresCountries(json: JsonCodec, countries: seq<Country>)
    requires SerdeRoundTrip(json, FullImportFile(seq(|countries|, i requires 0 <= i < |countries| => FromCountry(countries[i])), [], map[]))
    ensures FullExport(json, countries).Success?
    ensures var back := FullImportFileFromString(json, FullExport(json, countries).value);
            back.Success? && |back.value.countries| == |countries| &&
            (forall i :: 0 <= i < |countries| ==> ToCountry(back.value.countries[i]) == countries[i]) &&
            back.value.visits == []
  {
    var f := FullImportFile(seq(|countries|, i requires 0 <= i < |countries| => FromCountry(countries[i])), [], map[]);
    ExportImportRoundTrip(json, f);
  }

  // ---------------------------------------------------------------------------
  // Simple import
  // ---------------------------------------------------------------------------

  /** `country_by_iso2`: the first country of the table with this exact ISO-2 code. */
  function CountryByIso2(countries: seq<Country>, iso2: string): (r: Option<Country>)
    ensures r.Some? ==> r.value in countries && r.value.iso2 == iso2
    ensures r.None? <==> forall i :: 0 <= i < |countries| ==> countries[i].iso2 != iso2
    decreases |countries|
  {
    if countries == [] then None
    else if countries[0].iso2 == iso2 then Some(countries[0])
    else
      assert forall i :: 1 <= i < |countries| ==> countries[i] == countries[1..][i - 1];
      CountryByIso2(countries[1..], iso2)
  }

  /** The countries the codes resolve to, in code order; unknown codes are skipped. */
  function Resolve(countries: seq<Country>, codes: seq<string>): (r: seq<Country>)
    ensures forall c :: c in r ==> c in countries && exists k :: 0 <= k < |codes| && codes[k] == c.iso2
    ensures forall k :: 0 <= k < |codes| && CountryByIso2(countries, codes[k]).Some? ==>
              CountryByIso2(countries, codes[k]).value in r
    decreases |codes|
  {
    if codes == [] then []
    else
      var rest := Resolve(countries, codes[1..]);
      assert forall k :: 1 <= k < |codes| ==> codes[k] == codes[1..][k - 1];
      match CountryByIso2(countries, codes[0])
      case None => rest
      case Some(c) => [c] + rest
  }

  /** The ids the second loop inserts: each country whose id is not yet in the visit table, at most once. */
  function NewVisits(visited: seq<int>, found: seq<Country>): seq<int>
    decreases |found|
  {
    if found == [] then []
    else if found[0].id in visited then NewVisits(visited, found[1..])
    else [found[0].id] + NewVisits(visited + [found[0].id], found[1..])
  }

  /** The inserted ids are new, distinct, and cover every found country. */
  lemma {:induction false} NewVisitsFacts(visited: seq<int>, found: seq<Country>)
    ensures forall id :: id in NewVisits(visited, found) ==> id !in visited && exists c :: c in found && c.id == id
    ensures forall i, j :: 0 <= i < j < |NewVisits(visited, found)| ==> NewVisits(visited, found)[i] != NewVisits(visited, found)[j]
    ensures forall c :: c in found ==> c.id in visited + NewVisits(visited, found)
    decreases |found|
  {
    if found != [] {
      var c := found[0];
      if c.id in visited {
        NewVisitsFacts(visited, found[1..]);
        assert forall d :: d in found ==> d == c || d in found[1..];
      } else {
        var more := visited + [c.id];
        var rest := NewVisits(more, found[1..]);
        NewVisitsFacts(more, found[1..]);
        var r := [c.id] + rest;
        assert forall x :: x in rest ==> x != c.id;
        assert forall i :: 1 <= i < |r| ==> r[i] == rest[i - 1] && r[i] in rest;
        assert forall d :: d in found ==> d == c || d in found[1..];
        assert visited + r == more + rest;
      }
    }
  }

  /** One code resolved: its country, if any, in front of the rest. */
  lemma ResolveStep(countries: seq<Country>, codes: seq<string>)
    requires codes != []
    ensures Resolve(countries, codes) ==
              (match CountryByIso2(countries, codes[0]) case None => [] case Some(c) => [c]) + Resolve(countries, codes[1..])
  {
  }

  /** The first loop of `simple_import`: collect the country of every code that has one. */
  method LookUpCodes(countries: seq<Country>, codes: seq<string>) returns (found: seq<Country>)
    ensures found == Resolve(countries, codes)
  {
    found := [];
    var i := 0;
    while i < |codes|
      invariant 0 <= i <= |codes|
      invariant found + Resolve(countries, codes[i..]) == Resolve(countries, codes)
    {
      ResolveStep(countries, codes[i..]);
      assert codes[i..][0] == codes[i] && codes[i..][1..] == codes[i + 1..];
      var country := CountryByIso2(countries, codes[i]);
      if country.Some? {
        assert found + Resolve(countries, codes[i..]) == (found + [country.value]) + Resolve(countries, codes[i + 1..]);
        found := found + [country.value];
      }
      i := i + 1;
    }
    assert codes[i..] == [];
  }

  /** The database tables `simple_import` touches. */
  class Database {
    /** The `countries` table. */
    var countries: seq<Country>
    /** The `country_id` column of `country_visits`, in insertion order. */
    var visited: seq<int>

    constructor(countries: seq<Country>, visited: seq<int>)
      ensures this.countries == countries && this.visited == visited
    {
      this.countries := countries;
      this.visited := visited;
    }

    /**
     * `simple_import` on the file contents: split at ',', look each code up,
     * then visit every found country not visited yet.
     */
    method SimpleImport(contents: string)
      modifies this
      ensures countries == old(countries)
      ensures visited == old(visited) + NewVisits(old(visited), Resolve(old(countries), Split(contents, ',')))
    {
      var found := LookUpCodes(countries, Split(contents, ','));
      VisitAll(found);
    }

    /** The second loop of `simple_import`: visit each found country unless it already is. */
    method VisitAll(found: seq<Country>)
      modifies this
      ensures countries == old(countries)
      ensures visited == old(visited) + NewVisits(old(visited), found)
    {
      var j := 0;
      while j < |found|
        invariant 0 <= j <= |found|
        invariant countries == old(countries)
        invariant visited + NewVisits(visited, found[j..]) == old(visited) + NewVisits(old(visited), found)
      {
        ghost var before := visited;
        var id := found[j].id;
        assert found[j..][0] == found[j] && found[j..][1..] == found[j + 1..];
        if id !in visited {
          assert NewVisits(before, found[j..]) == [id] + NewVisits(before + [id], found[j + 1..]);
          visited := visited + [id];
          assert before + ([id] + NewVisits(visited, found[j + 1..])) == visited + NewVisits(visited, found[j + 1..]);
        } else {
          assert NewVisits(before, found[j..]) == NewVisits(before, found[j + 1..]);
        }
        j := j + 1;
      }
      assert found[j..] == [];
    }
  }

  /**
   * After a simple import, every code that names a country has that country
   * visited, each visit inserted names a country listed in the file and was
   * not there before, and no country gains two visits.
   */
  lemma SimpleImportEffect(countries: seq<Country>, visited: seq<int>, contents: string)
    ensures var codes := Split(contents, ',');
            var added := NewVisits(visited, Resolve(countries, codes));
            (forall k :: 0 <= k < |codes| && CountryByIso2(countries, codes[k]).Some? ==>
               CountryByIso2(countries, codes[k]).value.id in visited + added) &&
            (forall id :: id in added ==>
               id !in visited && exists c, k :: c in countries && 0 <= k < |codes| && codes[k] == c.iso2 && c.id == id) &&
            (forall i, j :: 0 <= i < j < |added| ==> added[i] != added[j])
  {
    var codes := Split(contents, ',');
    NewVisitsFacts(visited, Resolve(countries, codes));
  }
}
