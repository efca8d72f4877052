/**
 * `Iterator::partition`, as both map widgets use it to split the countries
 * into those their filter accepts and the others.
 */
module Partitions {
  /** The elements of `s` on which `p` gives `keep`, in their order in `s`. */
  function Keep<T>(p: T -> bool, keep: bool, s: seq<T>): seq<T>
    decreases |s|
  {
    if s == [] then [] else (if p(s[0]) == keep then [s[0]] else []) + Keep(p, keep, s[1..])
  }

  /**
   * `partition`: one pass that sends each element to the first group when `p`
   * holds of it and to the second otherwise. Each group keeps the input order,
   * and together they hold every element once.
   */
  function Partition<T>(p: T -> bool, s: seq<T>): (r: (seq<T>, seq<T>))
    ensures r.0 == Keep(p, true, s) && r.1 == Keep(p, false, s)
    ensures multiset(r.0) + multiset(r.1) == multiset(s)
    ensures forall x :: x in r.0 ==> p(x)
    ensures forall x :: x in r.1 ==> !p(x)
    decreases |s|
  {
    if s == [] then
      ([], [])
    else
      var x := s[0];
      var rest := Partition(p, s[1..]);
      assert multiset(s) == multiset{x} + multiset(s[1..]) by {
        assert s == [x] + s[1..];
      }
      if p(x) then
        var accepted := [x] + rest.0;
        (accepted, rest.1)
      else
        var others := [x] + rest.1;
        (rest.0, others)
  }
}
