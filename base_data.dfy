/**
 * The built-in catalogue of countries (src/base_data.rs): records read from
 * the bundled YAML file, indexed by lower-cased name. The parsed YAML list is
 * a parameter; parsing it is not part of this model.
 */
module BaseData {
  import opened Wrappers
  import opened Text
  import opened Search

  datatype IsoCode = IsoCode(alpha2: string, alpha3: string)

  datatype BaseDataCountry = BaseDataCountry(name: string, isoCode: IsoCode)

  /**
   * `COUNTRIES`: the list collected into a map keyed by lower-cased name. As in
   * a `HashMap` built by `collect`, a later entry replaces an earlier one with the same key.
   */
  function Index(list: seq<BaseDataCountry>): map<string, BaseDataCountry>
    decreases |list|
  {
    if list == [] then map[]
    else
      var last := list[|list| - 1];
      Index(list[..|list| - 1])[Lower(last.name) := last]
  }

  /** The key set is the set of lower-cased names, and each key holds the last entry with that name. */
  lemma {:induction false} IndexContents(list: seq<BaseDataCountry>, key: string)
    ensures key in Index(list) <==> exists i :: 0 <= i < |list| && Lower(list[i].name) == key
    ensures key in Index(list) ==>
            exists i :: 0 <= i < |list| && Index(list)[key] == list[i] && Lower(list[i].name) == key &&
                        forall j :: i < j < |list| ==> Lower(list[j].name) != key
    decreases |list|
  {
    if list != [] {
      var front := list[..|list| - 1];
      IndexContents(front, key);
      assert forall i :: 0 <= i < |front| ==> front[i] == list[i];
      if key != Lower(list[|list| - 1].name) && key in Index(list) {
        var i :| 0 <= i < |front| && Index(front)[key] == front[i] && Lower(front[i].name) == key &&
                 forall j :: i < j < |front| ==> Lower(front[j].name) != key;
        assert Index(list)[key] == list[i];
      }
    }
  }

  /** `by_name`: look the lower-cased name up in the index. */
  function ByName(list: seq<BaseDataCountry>, name: string): Option<BaseDataCountry> {
    var key := Lower(name);
    if key in Index(list) then Some(Index(list)[key]) else None
  }

  /**
   * A lookup finds a country exactly when some entry has the same name up to
   * letter case; what it returns is such an entry, the last one in the list.
   */
  lemma ByNameFinds(list: seq<BaseDataCountry>, name: string)
    ensures ByName(list, name).Some? <==> exists i :: 0 <= i < |list| && Lower(list[i].name) == Lower(name)
    ensures ByName(list, name).Some? ==>
            exists i :: 0 <= i < |list| && ByName(list, name).value == list[i] && Lower(list[i].name) == Lower(name) &&
                        forall j :: i < j < |list| ==> Lower(list[j].name) != Lower(name)
  {
    IndexContents(list, Lower(name));
  }

  /** Lookup ignores letter case. */
  lemma ByNameIgnoresCase(list: seq<BaseDataCountry>, name: string)
    ensures ByName(list, name) == ByName(list, Lower(name))
  {
    LowerIdempotent(name);
  }

  /** `matches_filter`: the name, alpha-2 or alpha-3 code contains the filter, ignoring case. */
  predicate MatchesFilter(country: BaseDataCountry, filter: string) {
    FieldsMatch([country.name, country.isoCode.alpha2, country.isoCode.alpha3], filter)
  }

  /** The empty filter matches every catalogue entry, and matching ignores the filter's case. */
  lemma FilterBasics(country: BaseDataCountry, filter: string)
    ensures MatchesFilter(country, "")
    ensures MatchesFilter(country, filter) <==> MatchesFilter(country, Lower(filter))
  {
    EmptyFilterMatches([country.name, country.isoCode.alpha2, country.isoCode.alpha3]);
    MatchIgnoresCase([country.name, country.isoCode.alpha2, country.isoCode.alpha3], filter);
  }

  /** Either ISO code, in any letter case, is enough to find the entry. */
  lemma CodeSufficient(country: BaseDataCountry, filter: string)
    requires Lower(filter) == Lower(country.isoCode.alpha2) || Lower(filter) == Lower(country.isoCode.alpha3)
    ensures MatchesFilter(country, filter)
  {
    var fields := [country.name, country.isoCode.alpha2, country.isoCode.alpha3];
    if Lower(filter) == Lower(country.isoCode.alpha2) {
      MatchOwnField(fields, 1, filter);
    } else {
      MatchOwnField(fields, 2, filter);
    }
  }
}
