/**
 * The aggregation loop of the `package` command: every document parsed from
 * every comment is folded into a map from name to document object, inserting
 * a new name and merging a repeated one into the stored object in place.
 */
module Collect {
  import opened Docs
  import opened Merging
  import opened Gather

  /** The documents at positions `i` and `j` of `ds` are different objects. */
  predicate Apart(ds: seq<Doc>, i: int, j: int)
  {
    0 <= i < |ds| && 0 <= j < |ds| && ds[i] != ds[j]
  }

  /** No object occurs twice in `ds`. */
  predicate Distinct(ds: seq<Doc>)
  {
    forall i, j {:trigger Apart(ds, i, j)} :: 0 <= i < j < |ds| ==> Apart(ds, i, j)
  }

  /** Every document is stored under its own name, so no object is stored twice. */
  predicate Keyed(docs: map<string, Doc>)
    reads Stored(docs)
  {
    forall k :: k in docs ==> docs[k].name == k
  }

  /** The objects of `docs` hold the values of `m`, name by name. */
  predicate Holds(docs: map<string, Doc>, m: map<string, DocValue>)
    reads Stored(docs)
  {
    docs.Keys == m.Keys && forall k :: k in docs ==> docs[k].Value() == m[k]
  }

  /** Objects that hold the values of `m` make up the value map `m`. */
  lemma HoldsValues(docs: map<string, Doc>, m: map<string, DocValue>)
    requires Holds(docs, m)
    ensures Values(docs) == m
  {
  }

  /** Storing an object under a name, and its value under the same name, keeps `Holds`. */
  lemma HoldsUpdate(docs: map<string, Doc>, m: map<string, DocValue>, n: string, d: Doc, v: DocValue)
    requires Holds(docs, m) && d.Value() == v
    ensures Holds(docs[n := d], m[n := v])
  {
    forall k | k == n || k in docs ensures docs[n := d][k].Value() == m[n := v][k] {
      if k != n { assert docs[k].Value() == m[k]; }
    }
  }

  /**
   * Which object the loop has stored under each name after `i` steps over
   * `read`, whose names are those of `vals`: names of `docs` keep their
   * object; any other name is stored with the object at the position `first`
   * records for it, which lies before `i`; and every name met so far is
   * stored, either from `docs` or with a recorded position at or before its
   * own.
   */
  ghost predicate Tracked(docs: map<string, Doc>, read: seq<Doc>, vals: seq<DocValue>,
                          out: map<string, Doc>, first: map<string, nat>, i: nat)
  {
    i <= |read| == |vals| &&
    (forall k :: k in docs ==> k in out && out[k] == docs[k]) &&
    (forall k :: k in out && k !in docs ==>
      k in first && first[k] < i && out[k] == read[first[k]] && vals[first[k]].name == k) &&
    (forall j :: 0 <= j < i ==>
      vals[j].name in out && (vals[j].name in docs || (vals[j].name in first && first[vals[j].name] <= j)))
  }

  /**
   * One step of the bookkeeping: the object at position `i` is not stored
   * yet; when its name is stored, the stored object is none of the later
   * ones; and the step keeps `Tracked`.
   */
  lemma TrackStep(docs: map<string, Doc>, read: seq<Doc>, vals: seq<DocValue>,
                  out: map<string, Doc>, first: map<string, nat>, i: nat)
    requires Distinct(read)
    requires forall k, j :: k in docs && 0 <= j < |read| ==> docs[k] != read[j]
    requires Tracked(docs, read, vals, out, first, i) && i < |read|
    ensures read[i] !in Stored(out)
    ensures vals[i].name in out ==>
      (forall j :: i < j < |read| ==> out[vals[i].name] != read[j]) &&
      Tracked(docs, read, vals, out, first, i + 1)
    ensures vals[i].name !in out ==>
      Tracked(docs, read, vals, out[vals[i].name := read[i]], first[vals[i].name := i], i + 1)
  {
    forall k | k in out ensures out[k] != read[i] {
      if k !in docs { assert Apart(read, first[k], i); }
    }
    var name := vals[i].name;
    if name in out {
      forall j | i < j < |read| ensures out[name] != read[j] {
        if name !in docs { assert Apart(read, first[name], j); }
      }
    } else {
      var out', first' := out[name := read[i]], first[name := i];
      forall j | 0 <= j <= i
        ensures vals[j].name in out'
        ensures vals[j].name in docs || (vals[j].name in first' && first'[vals[j].name] <= j)
      {
        if j < i {
          assert vals[j].name in out;
          assert vals[j].name in docs || (vals[j].name in first && first[vals[j].name] <= j);
        }
      }
    }
  }

  /**
   * When every position of `ds` either carries a name in `known` or records
   * in `first` a position at or before it for its name, the position recorded
   * for a name outside `known` is that name's first occurrence.
   */
  lemma FirstRecorded(ds: seq<DocValue>, first: map<string, nat>, known: set<string>, k: string)
    requires forall j :: 0 <= j < |ds| ==>
      ds[j].name in known || (ds[j].name in first && first[ds[j].name] <= j)
    requires k !in known && k in first && first[k] < |ds| && ds[first[k]].name == k
    ensures k in Names(ds) && FirstIndex(ds, k) == first[k]
  {
    forall j | 0 <= j < first[k] ensures ds[j].name != k {
    }
    FirstIndexIs(ds, k, first[k]);
  }

  /**
   * What holds after the first `i` documents of `read`, which held the values
   * `vals`, have been folded into `docs`, which held `acc`: the objects are
   * `Tracked`, each is stored under its own name, the documents still to come
   * are untouched, so are the documents already read that were merged away
   * rather than stored, and the stored objects hold the fold of the first `i`
   * values.
   */
  ghost predicate Progress(docs: map<string, Doc>, read: seq<Doc>, acc: map<string, DocValue>, vals: seq<DocValue>,
                           out: map<string, Doc>, first: map<string, nat>, i: nat)
    reads Stored(out), set d | d in read
  {
    Tracked(docs, read, vals, out, first, i) &&
    Keyed(out) &&
    (forall j :: i <= j < |read| ==> read[j].Value() == vals[j]) &&
    Unstored(read, vals, out, i) &&
    Holds(out, GatherPrefix(acc, vals, i))
  }

  /** The documents among the first `i` of `read` that are not stored still hold their values `vals`. */
  predicate Unstored(read: seq<Doc>, vals: seq<DocValue>, out: map<string, Doc>, i: nat)
    requires i <= |read| == |vals|
    reads set d | d in read
  {
    forall j :: 0 <= j < i && read[j] !in Stored(out) ==> read[j].Value() == vals[j]
  }

  /** Storing under a new name keeps every object stored so far. */
  lemma StoredGrows(out: map<string, Doc>, n: string, d: Doc)
    requires n !in out
    ensures Stored(out) <= Stored(out[n := d])
  {
    forall x | x in Stored(out) ensures x in Stored(out[n := d]) {
      var k :| k in out && out[k] == x;
      assert out[n := d][k] == x;
    }
  }

  /** Storing a new name adds an object and removes none, so fewer documents are left unstored. */
  lemma UnstoredStore(read: seq<Doc>, vals: seq<DocValue>, out: map<string, Doc>, n: string, i: nat)
    requires i < |read| == |vals| && n !in out
    requires Unstored(read, vals, out, i)
    ensures Unstored(read, vals, out[n := read[i]], i + 1)
  {
    assert out[n := read[i]][n] == read[i];
    forall j | 0 <= j < i + 1 && read[j] !in Stored(out[n := read[i]])
      ensures read[j].Value() == vals[j]
    {
      StoredGrows(out, n, read[i]);
    }
  }

  /** Before the loop, nothing of `read` has been folded in. */
  lemma ProgressStart(docs: map<string, Doc>, read: seq<Doc>, acc: map<string, DocValue>, vals: seq<DocValue>)
    requires Keyed(docs) && Holds(docs, acc)
    requires |vals| == |read| && forall j :: 0 <= j < |read| ==> read[j].Value() == vals[j]
    ensures Progress(docs, read, acc, vals, docs, map[], 0)
  {
  }

  /**
   * The branch of the loop body taken for a name already stored: the
   * document at position `i` is merged into the object stored under its
   * name, the map itself is not changed, and the documents after position
   * `i` are not touched.
   */
  method MergeStep(read: seq<Doc>, ghost vals: seq<DocValue>, out: map<string, Doc>, ghost g: map<string, DocValue>, i: nat)
    requires i < |read| == |vals|
    requires Keyed(out) && Holds(out, g)
    requires forall j :: i <= j < |read| ==> read[j].Value() == vals[j]
    requires vals[i].name in out && read[i] !in Stored(out)
    requires forall j :: i < j < |read| ==> out[vals[i].name] != read[j]
    requires Unstored(read, vals, out, i)
    modifies out[vals[i].name]
    ensures Keyed(out) && Holds(out, InsertValue(g, vals[i]))
    ensures forall j :: i < j < |read| ==> read[j].Value() == vals[j]
    ensures Unstored(read, vals, out, i + 1)
  {
    var doc := read[i];
    var found := out[doc.name];
    ghost var next := g[doc.name := MergeValue(g[doc.name], vals[i])];
    Merge(found, doc);
    assert found.Value() == next[doc.name];
    forall k | k in out && k != doc.name ensures out[k].Value() == next[k] {
      assert out[k].name != found.name;
    }
    assert found in Stored(out);
    forall j | 0 <= j < i + 1 && read[j] !in Stored(out) ensures read[j].Value() == vals[j] {
      assert read[j] != found;
    }
  }

  /**
   * The branch of the loop body taken for a new name: the document at
   * position `i` is stored under its name as it is.
   */
  lemma StoreStep(docs: map<string, Doc>, read: seq<Doc>, acc: map<string, DocValue>, vals: seq<DocValue>,
                  out: map<string, Doc>, first: map<string, nat>, i: nat)
    requires i < |read| && Progress(docs, read, acc, vals, out, first, i)
    requires vals[i].name !in out
    requires Tracked(docs, read, vals, out[vals[i].name := read[i]], first[vals[i].name := i], i + 1)
    ensures Progress(docs, read, acc, vals, out[vals[i].name := read[i]], first[vals[i].name := i], i + 1)
  {
    var n := vals[i].name;
    var g := GatherPrefix(acc, vals, i);
    assert GatherPrefix(acc, vals, i + 1) == g[n := vals[i]];
    assert read[i].Value() == vals[i];
    HoldsUpdate(out, g, n, read[i], vals[i]);
    UnstoredStore(read, vals, out, n, i);
  }

  /**
   * One pass of the loop body: the document at position `i` is merged into
   * the object stored under its name, or stored under its name when there is
   * none.
   */
  method Step(docs: map<string, Doc>, read: seq<Doc>, ghost acc: map<string, DocValue>, ghost vals: seq<DocValue>,
              out: map<string, Doc>, ghost first: map<string, nat>, i: nat)
    returns (out': map<string, Doc>, ghost first': map<string, nat>)
    requires Distinct(read)
    requires forall k, j :: k in docs && 0 <= j < |read| ==> docs[k] != read[j]
    requires i < |read| && Progress(docs, read, acc, vals, out, first, i)
    modifies Stored(docs), set d | d in read
    ensures vals[i].name in out ==> out' == out
    ensures vals[i].name !in out ==> out' == out[vals[i].name := read[i]]
    ensures Progress(docs, read, acc, vals, out', first', i + 1)
  {
    var doc := read[i];
    TrackStep(docs, read, vals, out, first, i);
    if doc.name in out {
      MergeStep(read, vals, out, GatherPrefix(acc, vals, i), i);
      out', first' := out, first;
    } else {
      StoreStep(docs, read, acc, vals, out, first, i);
      out' := out[doc.name := doc];
      first' := first[doc.name := i];
    }
  }

  /** Once every document is folded in, the tracked objects are the ones `Collect` promises. */
  lemma TrackedDone(docs: map<string, Doc>, read: seq<Doc>, vals: seq<DocValue>,
                    out: map<string, Doc>, first: map<string, nat>)
    requires Tracked(docs, read, vals, out, first, |read|)
    ensures forall k :: k in docs ==> k in out && out[k] == docs[k]
    ensures forall k :: k in out && k !in docs ==> k in Names(vals) && out[k] == read[FirstIndex(vals, k)]
  {
    forall k | k in out && k !in docs
      ensures k in Names(vals) && out[k] == read[FirstIndex(vals, k)]
    {
      FirstRecorded(vals, first, docs.Keys, k);
    }
  }

  /** What the loop state gives once every document is folded in. */
  lemma Finish(docs: map<string, Doc>, read: seq<Doc>, acc: map<string, DocValue>, vals: seq<DocValue>,
               out: map<string, Doc>, first: map<string, nat>)
    requires Tracked(docs, read, vals, out, first, |read|) && Holds(out, GatherPrefix(acc, vals, |read|))
    ensures Values(out) == GatherInto(acc, vals)
    ensures forall k :: k in docs ==> k in out && out[k] == docs[k]
    ensures forall k :: k in out && k !in docs ==> k in Names(vals) && out[k] == read[FirstIndex(vals, k)]
  {
    GatherPrefixIsWhole(acc, vals);
    HoldsValues(out, GatherPrefix(acc, vals, |read|));
    TrackedDone(docs, read, vals, out, first);
  }

  /**
   * Folds one batch `read` of parsed documents into `docs`. Afterwards the
   * map holds, as values, the fold of the batch into the old values; a name
   * that was already stored keeps its object, and a new name holds the first
   * object of the batch that carries it.
   */
  method Collect(docs: map<string, Doc>, read: seq<Doc>) returns (out: map<string, Doc>)
    requires Distinct(read) && Keyed(docs)
    requires forall k, i :: k in docs && 0 <= i < |read| ==> docs[k] != read[i]
    modifies Stored(docs), set d | d in read
    ensures Keyed(out)
    ensures Values(out) == GatherInto(old(Values(docs)), old(SeqValues(read)))
    ensures forall k :: k in docs ==> k in out && out[k] == docs[k]
    ensures forall k :: k in out && k !in docs ==>
      k in Names(old(SeqValues(read))) && out[k] == read[FirstIndex(old(SeqValues(read)), k)]
    ensures forall j :: 0 <= j < |read| && read[j] !in Stored(out) ==> read[j].Value() == old(SeqValues(read))[j]
  {
    ghost var acc := Values(docs);
    ghost var vals := SeqValues(read);
    ghost var first: map<string, nat> := map[];
    out := docs;
    ProgressStart(docs, read, acc, vals);
    var i := 0;
    while i < |read|
      invariant Progress(docs, read, acc, vals, out, first, i)
    {
      out, first := Step(docs, read, acc, vals, out, first, i);
      i := i + 1;
    }
    Finish(docs, read, acc, vals, out, first);
    assert Unstored(read, vals, out, |read|);
  }

  /**
   * The whole aggregation, starting from the empty map: the keys are the
   * names met, each stored under its own name; the object stored under a name
   * is the first parsed document carrying it; and the stored values are the
   * fold of all parsed documents (see `Gather.GatheredAt` for what that fold
   * holds under each name).
   */
  method Aggregate(read: seq<Doc>) returns (docs: map<string, Doc>)
    requires Distinct(read)
    modifies set d | d in read
    ensures docs.Keys == Names(old(SeqValues(read)))
    ensures Keyed(docs)
    ensures forall k :: k in docs ==> docs[k] == read[FirstIndex(old(SeqValues(read)), k)]
    ensures Values(docs) == Gathered(old(SeqValues(read)))
    ensures forall j :: 0 <= j < |read| && read[j] !in Stored(docs) ==> read[j].Value() == old(SeqValues(read))[j]
  {
    docs := map[];
    assert Values(docs) == map[];
    docs := Collect(docs, read);
  }
}
