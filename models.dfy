/** The database records (src/models.rs) and their search predicate. */
module Models {
  import opened Wrappers
  import opened Text
  import opened Search
  import opened BaseData

  /** A row of the `countries` table. */
  datatype Country = Country(id: int, name: string, iso2: string, iso3: string, description: Option<string>)

  /** A row to insert into the `countries` table; the database assigns the id. */
  datatype NewCountry = NewCountry(name: string, iso2: string, iso3: string, description: Option<string>)

  /** A row of the `country_visits` table. */
  datatype CountryVisit = CountryVisit(id: int, countryId: int)

  /** `NewCountry::from(BaseDataCountry)`: the catalogue entry as a fresh row without a description. */
  function FromBaseData(b: BaseDataCountry): (r: NewCountry)
    ensures r.name == b.name && r.iso2 == b.isoCode.alpha2 && r.iso3 == b.isoCode.alpha3
    ensures r.description.None?
  {
    NewCountry(b.name, b.isoCode.alpha2, b.isoCode.alpha3, None)
  }

  /** `matches_filter`: the name, ISO-2 or ISO-3 code contains the filter, ignoring case. */
  predicate MatchesFilter(country: Country, filter: string) {
    FieldsMatch([country.name, country.iso2, country.iso3], filter)
  }

  /** The empty filter matches every country, and matching ignores the filter's case. */
  lemma FilterBasics(country: Country, filter: string)
    ensures MatchesFilter(country, "")
    ensures MatchesFilter(country, filter) <==> MatchesFilter(country, Lower(filter))
  {
    EmptyFilterMatches([country.name, country.iso2, country.iso3]);
    MatchIgnoresCase([country.name, country.iso2, country.iso3], filter);
  }

  /** Shortening a filter never loses a country: any substring of a matching filter matches too. */
  lemma FilterSubstring(country: Country, filter: string, piece: string)
    requires MatchesFilter(country, filter) && Contains(filter, piece)
    ensures MatchesFilter(country, piece)
  {
    MatchSubstring([country.name, country.iso2, country.iso3], filter, piece);
  }

  /** Typing a country's name or either code, in any letter case, finds it. */
  lemma FilterFindsOwnFields(country: Country, filter: string)
    requires Lower(filter) in {Lower(country.name), Lower(country.iso2), Lower(country.iso3)}
    ensures MatchesFilter(country, filter)
  {
    var fields := [country.name, country.iso2, country.iso3];
    if Lower(filter) == Lower(country.name) {
      MatchOwnField(fields, 0, filter);
    } else if Lower(filter) == Lower(country.iso2) {
      MatchOwnField(fields, 1, filter);
    } else {
      MatchOwnField(fields, 2, filter);
    }
  }

  /** A country row created from a catalogue entry is found by exactly the searches that find the entry. */
  lemma FromBaseDataKeepsSearch(b: BaseDataCountry, id: int, filter: string)
    ensures var n := FromBaseData(b);
            MatchesFilter(Country(id, n.name, n.iso2, n.iso3, n.description), filter) <==> BaseData.MatchesFilter(b, filter)
  {
    var n := FromBaseData(b);
    assert [n.name, n.iso2, n.iso3] == [b.name, b.isoCode.alpha2, b.isoCode.alpha3];
  }
}
