/**
 * Merging two documents that share a name (`merge` in cmd/package.go): the
 * first document keeps its description and path unless they are empty, in
 * which case it takes the second's, and it gains the second's types and
 * functions after its own, in order, with no deduplication.
 */
module Merging {
  import opened Docs

  /** Keeps `mine` unless it is empty, else takes `theirs`. */
  function FillEmpty(mine: string, theirs: string): (r: string)
    ensures mine != "" ==> r == mine
    ensures mine == "" ==> r == theirs
  {
    if mine == "" then theirs else mine
  }

  /** The value `a` holds after `merge(a, b)`. */
  function MergeValue(a: DocValue, b: DocValue): (r: DocValue)
    ensures r.name == a.name
    ensures r.description == FillEmpty(a.description, b.description)
    ensures r.path == FillEmpty(a.path, b.path)
    ensures |r.types| == |a.types| + |b.types|
    ensures r.types[..|a.types|] == a.types && r.types[|a.types|..] == b.types
    ensures |r.functions| == |a.functions| + |b.functions|
    ensures r.functions[..|a.functions|] == a.functions && r.functions[|a.functions|..] == b.functions
  {
    DocValue(
      a.name,
      FillEmpty(a.path, b.path),
      FillEmpty(a.description, b.description),
      a.types + b.types,
      a.functions + b.functions)
  }

  /**
   * `merge(a, b)`: updates `a` in place from `b`. When `a` and `b` are the
   * same object the lists are doubled, as Go's append would do.
   */
  method Merge(a: Doc, b: Doc)
    modifies a
    ensures a.Value() == MergeValue(old(a.Value()), old(b.Value()))
    ensures a.name == old(a.name)
    ensures old(a.description) == "" ==> a.description == old(b.description)
    ensures old(a.description) != "" ==> a.description == old(a.description)
    ensures old(a.path) == "" ==> a.path == old(b.path)
    ensures old(a.path) != "" ==> a.path == old(a.path)
    ensures a.types == old(a.types) + old(b.types)
    ensures a.functions == old(a.functions) + old(b.functions)
    ensures a != b ==> unchanged(b)
  {
    if a.description == "" {
      a.description := b.description;
    }
    if a.path == "" {
      a.path := b.path;
    }
    a.types := a.types + b.types;
    a.functions := a.functions + b.functions;
  }

  /** A document with nothing to contribute to a merge. */
  function Blank(name: string): (e: DocValue)
    ensures e.name == name && e.description == "" && e.path == ""
    ensures e.types == [] && e.functions == []
  {
    DocValue(name, "", "", [], [])
  }

  /** Merging a blank document into `a` leaves `a` as it was. */
  lemma MergeBlankRight(a: DocValue, name: string)
    ensures MergeValue(a, Blank(name)) == a
  {
    assert a.types + [] == a.types;
    assert a.functions + [] == a.functions;
  }

  /**
   * Merging is associative: folding three same-named documents gives the
   * same result whether the last two are merged first or not, so the value a
   * run of same-named documents merges to does not depend on how the run is
   * grouped.
   */
  lemma MergeAssociative(a: DocValue, b: DocValue, c: DocValue)
    ensures MergeValue(MergeValue(a, b), c) == MergeValue(a, MergeValue(b, c))
  {
    assert (a.types + b.types) + c.types == a.types + (b.types + c.types);
    assert (a.functions + b.functions) + c.functions == a.functions + (b.functions + c.functions);
  }
}
