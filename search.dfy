/**
 * The search rule shared by `Country::matches_filter` (src/models.rs) and
 * `BaseDataCountry::matches_filter` (src/base_data.rs): a record matches a
 * filter when one of its text fields, lower-cased, contains the lower-cased
 * filter.
 */
module Search {
  import opened Text

  predicate FieldsMatch(fields: seq<string>, filter: string) {
    exists i :: 0 <= i < |fields| && Contains(Lower(fields[i]), Lower(filter))
  }

  /** The empty filter occurs in every field, so it matches any record with a field. */
  lemma EmptyFilterMatches(fields: seq<string>)
    requires |fields| > 0
    ensures FieldsMatch(fields, "")
  {
    assert Lower("") == "";
    assert OccursAt(Lower(fields[0]), "", 0);
  }

  /** Lower-casing the filter first does not change the outcome. */
  lemma MatchIgnoresCase(fields: seq<string>, filter: string)
    ensures FieldsMatch(fields, filter) <==> FieldsMatch(fields, Lower(filter))
  {
    LowerIdempotent(filter);
  }

  /** A record matches every piece of a filter it matches. */
  lemma MatchSubstring(fields: seq<string>, filter: string, piece: string)
    requires FieldsMatch(fields, filter) && Contains(filter, piece)
    ensures FieldsMatch(fields, piece)
  {
    var i :| 0 <= i < |fields| && Contains(Lower(fields[i]), Lower(filter));
    ContainsLower(filter, piece);
    ContainsTransitive(Lower(fields[i]), Lower(filter), Lower(piece));
  }

  /** Searching for a field's own text, in any letter case, finds the record. */
  lemma MatchOwnField(fields: seq<string>, i: int, filter: string)
    requires 0 <= i < |fields| && Lower(filter) == Lower(fields[i])
    ensures FieldsMatch(fields, filter)
  {
    assert Lower(fields[i])[0..|Lower(filter)|] == Lower(filter);
    assert OccursAt(Lower(fields[i]), Lower(filter), 0);
  }
}
