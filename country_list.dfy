/**
 * The country list side panel (src/widgets/country_list.rs): a search field
 * and an "only visited" switch, and the list of countries they let through,
 * sorted by name. The database query is a parameter: the rows of
 * `all_countries_with_visit_status`, each a country with its visited flag.
 */
module CountryListWidget {
  import opened Wrappers
  import opened Text
  import opened Models
  import opened StableSort

  datatype Message = Search(text: string) | FilterOnlyVisited(onlyVisited: bool) | Select(country: Option<Country>)

  function NameOf(c: Country): string {
    c.name
  }

  /** Both filters of the pipeline: the search text, and the visited flag when only visited countries are wanted. */
  predicate Passes(row: (Country, bool), filter: string, onlyVisited: bool) {
    MatchesFilter(row.0, Lower(filter)) && (!onlyVisited || row.1)
  }

  /** The countries of the rows that pass both filters, in row order. */
  function Passing(rows: seq<(Country, bool)>, filter: string, onlyVisited: bool): (r: seq<Country>)
    ensures |r| <= |rows|
    ensures forall c :: c in r <==> exists j :: 0 <= j < |rows| && rows[j].0 == c && Passes(rows[j], filter, onlyVisited)
    decreases |rows|
  {
    if rows == [] then
      []
    else
      var rest := Passing(rows[1..], filter, onlyVisited);
      assert forall j :: 0 < j < |rows| ==> rows[j] == rows[1..][j - 1];
      if Passes(rows[0], filter, onlyVisited) then [rows[0].0] + rest else rest
  }

  /** Nothing is added or dropped: a country is listed once for each of its rows that passes. */
  lemma {:induction false} PassingCounts(rows: seq<(Country, bool)>, filter: string, onlyVisited: bool)
    ensures forall c :: multiset(Passing(rows, filter, onlyVisited))[c] ==
              (if Passes((c, true), filter, onlyVisited) then multiset(rows)[(c, true)] else 0) +
              (if Passes((c, false), filter, onlyVisited) then multiset(rows)[(c, false)] else 0)
    decreases |rows|
  {
    if rows != [] {
      var row, rest := rows[0], rows[1..];
      PassingCounts(rest, filter, onlyVisited);
      assert multiset(rows) == multiset{row} + multiset(rest) by {
        assert rows == [row] + rest;
      }
      var r, r' := Passing(rows, filter, onlyVisited), Passing(rest, filter, onlyVisited);
      assert multiset(r) == (if Passes(row, filter, onlyVisited) then multiset{row.0} else multiset{}) + multiset(r');
      forall c
        ensures multiset(r)[c] ==
                (if Passes((c, true), filter, onlyVisited) then multiset(rows)[(c, true)] else 0) +
                (if Passes((c, false), filter, onlyVisited) then multiset(rows)[(c, false)] else 0)
      {
        var t, u := (c, true), (c, false);
        assert multiset(rows)[t] == (if row == t then 1 else 0) + multiset(rest)[t];
        assert multiset(rows)[u] == (if row == u then 1 else 0) + multiset(rest)[u];
        assert multiset(r)[c] == (if Passes(row, filter, onlyVisited) && row.0 == c then 1 else 0) + multiset(r')[c];
        var (c0, visited) := row;
        if c0 == c && visited {
          assert row == t;
        } else if c0 == c {
          assert row == u;
        } else {
          assert row != t && row != u;
        }
      }
    }
  }

  lemma StableByName(s: seq<Country>)
    ensures forall k :: WithKey(SortBy(s, NameOf), NameOf, k) == WithKey(s, NameOf, k)
  {
    forall k ensures WithKey(SortBy(s, NameOf), NameOf, k) == WithKey(s, NameOf, k) {
      SortFacts(s, NameOf, k);
    }
  }

  /** Any arrangement of the passing countries shows only matching, and when asked, visited countries. */
  lemma PassingRowsShown(rows: seq<(Country, bool)>, filter: string, onlyVisited: bool, r: seq<Country>)
    requires multiset(r) == multiset(Passing(rows, filter, onlyVisited))
    ensures forall i :: 0 <= i < |r| ==> MatchesFilter(r[i], filter)
    ensures onlyVisited ==> forall i :: 0 <= i < |r| ==> (r[i], true) in rows
  {
    var passing := Passing(rows, filter, onlyVisited);
    forall i | 0 <= i < |r| ensures MatchesFilter(r[i], filter) && (onlyVisited ==> (r[i], true) in rows) {
      assert r[i] in multiset(r);
      assert r[i] in passing;
      var j :| 0 <= j < |rows| && rows[j].0 == r[i] && Passes(rows[j], filter, onlyVisited);
      FilterBasics(r[i], filter);
      assert onlyVisited ==> rows[j] == (r[i], true);
    }
  }

  class CountryList {
    var filter: string
    var filterOnlyVisited: bool

    /** `CountryList::new`: empty search, all countries shown. */
    constructor()
      ensures filter == "" && !filterOnlyVisited
    {
      filter := "";
      filterOnlyVisited := false;
    }

    /** `update`: each message sets its own field and nothing else; `Select` is handled elsewhere. */
    method Update(msg: Message)
      modifies this
      ensures msg.Search? ==> filter == msg.text && filterOnlyVisited == old(filterOnlyVisited)
      ensures msg.FilterOnlyVisited? ==> filter == old(filter) && filterOnlyVisited == msg.onlyVisited
      ensures msg.Select? ==> filter == old(filter) && filterOnlyVisited == old(filterOnlyVisited)
    {
      match msg {
        case Search(text) => filter := text;
        case Select(_) =>
        case FilterOnlyVisited(onlyVisited) => filterOnlyVisited := onlyVisited;
      }
    }

    /**
     * `get_filtered_countries`: every country shown matches the search, and is
     * visited when only visited ones are wanted; the list holds exactly the
     * passing rows' countries, sorted by name, equal names in row order.
     */
    function GetFilteredCountries(rows: seq<(Country, bool)>): (r: seq<Country>)
      reads this
      ensures multiset(r) == multiset(Passing(rows, filter, filterOnlyVisited))
      ensures Sorted(r, NameOf)
      ensures forall k :: WithKey(r, NameOf, k) == WithKey(Passing(rows, filter, filterOnlyVisited), NameOf, k)
      ensures forall i :: 0 <= i < |r| ==> MatchesFilter(r[i], filter)
      ensures filterOnlyVisited ==> forall i :: 0 <= i < |r| ==> (r[i], true) in rows
    {
      var passing := Passing(rows, filter, filterOnlyVisited);
      var r := SortBy(passing, NameOf);
      SortFacts(passing, NameOf, "");
      StableByName(passing);
      PassingRowsShown(rows, filter, filterOnlyVisited, r);
      r
    }
  }
}
