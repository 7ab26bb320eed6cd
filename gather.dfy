/**
 * The name-keyed fold of parsed documents, as values. Each document is looked
 * up by name: a new name is inserted, a repeated one is merged into the
 * document already stored under it. The lemmas here say what the map holds
 * once a whole sequence of documents has gone through.
 */
module Gather {
  import opened Docs
  import opened Merging

  /** The names occurring in a sequence of documents. */
  function Names(ds: seq<DocValue>): (ns: set<string>)
    ensures forall i :: 0 <= i < |ds| ==> ds[i].name in ns
    ensures forall n :: n in ns ==> exists i :: 0 <= i < |ds| && ds[i].name == n
  {
    set i | 0 <= i < |ds| :: ds[i].name
  }

  /** One step of the fold: insert a new name, merge into a known one. */
  function InsertValue(acc: map<string, DocValue>, d: DocValue): (r: map<string, DocValue>)
    ensures r.Keys == acc.Keys + {d.name}
    ensures forall k :: k in acc && k != d.name ==> r[k] == acc[k]
    ensures d.name in acc ==> r[d.name] == MergeValue(acc[d.name], d)
    ensures d.name !in acc ==> r[d.name] == d
  {
    if d.name in acc then acc[d.name := MergeValue(acc[d.name], d)] else acc[d.name := d]
  }

  /** Folds `ds`, left to right, into `acc`. */
  function GatherInto(acc: map<string, DocValue>, ds: seq<DocValue>): (r: map<string, DocValue>)
    ensures r.Keys == acc.Keys + Names(ds)
    decreases |ds|
  {
    if ds == [] then acc
    else
      assert Names(ds) == {ds[0].name} + Names(ds[1..]) by {
        forall n | n in Names(ds) ensures n in {ds[0].name} + Names(ds[1..]) {
          var i :| 0 <= i < |ds| && ds[i].name == n;
          if i > 0 { assert ds[1..][i - 1] == ds[i]; }
        }
      }
      GatherInto(InsertValue(acc, ds[0]), ds[1..])
  }

  /** The first `n` steps of the fold of `ds` into `acc`, counted by position. */
  function GatherPrefix(acc: map<string, DocValue>, ds: seq<DocValue>, n: nat): (r: map<string, DocValue>)
    requires n <= |ds|
  {
    if n == 0 then acc else InsertValue(GatherPrefix(acc, ds, n - 1), ds[n - 1])
  }

  /** The map built from an empty one. */
  function Gathered(ds: seq<DocValue>): (r: map<string, DocValue>)
    ensures r.Keys == Names(ds)
  {
    GatherInto(map[], ds)
  }

  /** The documents of `ds` named `k`, in order. */
  function Named(ds: seq<DocValue>, k: string): (r: seq<DocValue>)
    ensures |r| <= |ds|
    ensures forall i :: 0 <= i < |r| ==> r[i].name == k
    decreases |ds|
  {
    if ds == [] then []
    else if ds[0].name == k then [ds[0]] + Named(ds[1..], k)
    else Named(ds[1..], k)
  }

  /** Merges each document of `ds` into `a`, left to right. */
  function MergeInto(a: DocValue, ds: seq<DocValue>): (r: DocValue)
    decreases |ds|
  {
    if ds == [] then a else MergeInto(MergeValue(a, ds[0]), ds[1..])
  }

  /** The first non-empty string of `ss`, or "" when there is none. */
  function FirstNonEmpty(ss: seq<string>): (r: string)
    ensures r == "" <==> forall i :: 0 <= i < |ss| ==> ss[i] == ""
    ensures r != "" ==> exists i :: 0 <= i < |ss| && ss[i] == r && forall j :: 0 <= j < i ==> ss[j] == ""
    decreases |ss|
  {
    if ss == [] then ""
    else if ss[0] != "" then ss[0]
    else
      var r := FirstNonEmpty(ss[1..]);
      assert r != "" ==> exists i :: 0 <= i < |ss| && ss[i] == r && forall j :: 0 <= j < i ==> ss[j] == "" by {
        if r != "" {
          var i :| 0 <= i < |ss[1..]| && ss[1..][i] == r && forall j :: 0 <= j < i ==> ss[1..][j] == "";
          assert ss[i + 1] == r;
          assert forall j :: 0 <= j < i + 1 ==> ss[j] == "" by {
            forall j | 0 <= j < i + 1 ensures ss[j] == "" {
              if j > 0 { assert ss[j] == ss[1..][j - 1]; }
            }
          }
        }
      }
      r
  }

  /** The descriptions of `ds`, in order. */
  function Descriptions(ds: seq<DocValue>): (r: seq<string>)
    decreases |ds|
  {
    if ds == [] then [] else [ds[0].description] + Descriptions(ds[1..])
  }

  /** The paths of `ds`, in order. */
  function Paths(ds: seq<DocValue>): (r: seq<string>)
    decreases |ds|
  {
    if ds == [] then [] else [ds[0].path] + Paths(ds[1..])
  }

  /** The types of all documents of `ds`, concatenated in order. */
  function AllTypes(ds: seq<DocValue>): (r: seq<TypeDoc>)
    decreases |ds|
  {
    if ds == [] then [] else ds[0].types + AllTypes(ds[1..])
  }

  /** The functions of all documents of `ds`, concatenated in order. */
  function AllFunctions(ds: seq<DocValue>): (r: seq<Function>)
    decreases |ds|
  {
    if ds == [] then [] else ds[0].functions + AllFunctions(ds[1..])
  }

  /** The index of the first document of `ds` named `k`. */
  function FirstIndex(ds: seq<DocValue>, k: string): (r: nat)
    requires k in Names(ds)
    ensures r < |ds| && ds[r].name == k
    ensures forall j :: 0 <= j < r ==> ds[j].name != k
    decreases |ds|
  {
    if ds[0].name == k then 0
    else
      NamesTail(ds, k);
      var r := FirstIndex(ds[1..], k);
      AbsentShift(ds, k, r);
      r + 1
  }

  /** A name of `ds` other than the first document's is a name of the rest. */
  lemma NamesTail(ds: seq<DocValue>, k: string)
    requires k in Names(ds) && ds[0].name != k
    ensures k in Names(ds[1..])
  {
    var i :| 0 <= i < |ds| && ds[i].name == k;
    assert ds[1..][i - 1] == ds[i];
  }

  /** A name of the rest of `ds` is a name of `ds`. */
  lemma NamesFromTail(ds: seq<DocValue>, k: string)
    requires ds != [] && k in Names(ds[1..])
    ensures k in Names(ds)
  {
    var i :| 0 <= i < |ds[1..]| && ds[1..][i].name == k;
    assert ds[i + 1] == ds[1..][i];
  }

  /** A name absent from the first `r` documents of the rest, and from the first document, is absent from the first `r + 1`. */
  lemma AbsentShift(ds: seq<DocValue>, k: string, r: nat)
    requires r < |ds| - 1 && ds[0].name != k && ds[1..][r].name == k
    requires forall j :: 0 <= j < r ==> ds[1..][j].name != k
    ensures ds[r + 1].name == k
    ensures forall j :: 0 <= j < r + 1 ==> ds[j].name != k
  {
    forall j | 0 <= j < r + 1 ensures ds[j].name != k {
      if j > 0 { assert ds[j] == ds[1..][j - 1]; }
    }
  }

  /** The first position carrying a name is the one `FirstIndex` finds. */
  lemma FirstIndexIs(ds: seq<DocValue>, k: string, f: nat)
    requires f < |ds| && ds[f].name == k
    requires forall j :: 0 <= j < f ==> ds[j].name != k
    ensures k in Names(ds) && FirstIndex(ds, k) == f
  {
  }

  /** A name occurs in `ds` exactly when some document of `ds` carries it. */
  lemma {:induction false} NamedNonEmpty(ds: seq<DocValue>, k: string)
    ensures Named(ds, k) != [] <==> k in Names(ds)
    ensures k in Names(ds) ==> Named(ds, k)[0] == ds[FirstIndex(ds, k)]
    decreases |ds|
  {
    if ds != [] {
      NamedNonEmpty(ds[1..], k);
      if ds[0].name != k {
        if k in Names(ds) {
          NamesTail(ds, k);
        }
        if k in Names(ds[1..]) {
          NamesFromTail(ds, k);
        }
      }
    }
  }

  /**
   * What the fold stores under one name: a name already in `acc` has every
   * same-named document of `ds` merged into it in order; a name first met in
   * `ds` holds its first document with the later ones merged in order.
   */
  lemma {:induction false} GatherIntoAt(acc: map<string, DocValue>, ds: seq<DocValue>, k: string)
    ensures k in acc ==> GatherInto(acc, ds)[k] == MergeInto(acc[k], Named(ds, k))
    ensures k !in acc && k in Names(ds) ==>
      Named(ds, k) != [] && GatherInto(acc, ds)[k] == MergeInto(Named(ds, k)[0], Named(ds, k)[1..])
    decreases |ds|
  {
    if ds != [] {
      var d := ds[0];
      var next := InsertValue(acc, d);
      GatherIntoAt(next, ds[1..], k);
      NamedNonEmpty(ds, k);
      NamedNonEmpty(ds[1..], k);
      if d.name == k {
        assert Named(ds, k) == [d] + Named(ds[1..], k);
        assert ([d] + Named(ds[1..], k))[1..] == Named(ds[1..], k);
      }
    }
  }

  /** The first non-empty string of a sequence with one more string in front. */
  lemma FirstNonEmptyCons(s: string, ss: seq<string>)
    ensures FirstNonEmpty([s] + ss) == FillEmpty(s, FirstNonEmpty(ss))
  {
    assert ([s] + ss)[1..] == ss;
  }

  /** The name and types of a fold of merges: the first name, the types concatenated in order. */
  lemma {:induction false} MergeIntoTypes(a: DocValue, ds: seq<DocValue>)
    ensures MergeInto(a, ds).name == a.name
    ensures MergeInto(a, ds).types == a.types + AllTypes(ds)
    decreases |ds|
  {
    if ds != [] {
      var m := MergeValue(a, ds[0]);
      MergeIntoTypes(m, ds[1..]);
      assert m.types == a.types + ds[0].types;
    }
  }

  /** The functions of a fold of merges: concatenated in order. */
  lemma {:induction false} MergeIntoFunctions(a: DocValue, ds: seq<DocValue>)
    ensures MergeInto(a, ds).functions == a.functions + AllFunctions(ds)
    decreases |ds|
  {
    if ds != [] {
      var m := MergeValue(a, ds[0]);
      MergeIntoFunctions(m, ds[1..]);
      assert m.functions == a.functions + ds[0].functions;
    }
  }

  /** The description and path of a fold of merges: the first non-empty ones, in order. */
  lemma {:induction false} MergeIntoText(a: DocValue, ds: seq<DocValue>)
    ensures MergeInto(a, ds).description == FirstNonEmpty([a.description] + Descriptions(ds))
    ensures MergeInto(a, ds).path == FirstNonEmpty([a.path] + Paths(ds))
    decreases |ds|
  {
    FirstNonEmptyCons(a.description, Descriptions(ds));
    FirstNonEmptyCons(a.path, Paths(ds));
    if ds != [] {
      var m := MergeValue(a, ds[0]);
      MergeIntoText(m, ds[1..]);
      FirstNonEmptyCons(m.description, Descriptions(ds[1..]));
      FirstNonEmptyCons(m.path, Paths(ds[1..]));
      FirstNonEmptyCons(ds[0].description, Descriptions(ds[1..]));
      FirstNonEmptyCons(ds[0].path, Paths(ds[1..]));
    }
  }

  /** Every key of the gathered map is the name of the document stored under it. */
  lemma {:induction false} GatheredKeys(ds: seq<DocValue>)
    ensures Gathered(ds).Keys == Names(ds)
    ensures forall k :: k in Gathered(ds) ==> Gathered(ds)[k].name == k
  {
    forall k | k in Gathered(ds) ensures Gathered(ds)[k].name == k {
      NamedNonEmpty(ds, k);
      GatherIntoAt(map[], ds, k);
      var f := Named(ds, k);
      MergeIntoTypes(f[0], f[1..]);
    }
  }

  /**
   * What the gathered map holds under a name: the first document with that
   * name, whose description and path are the first non-empty ones among the
   * same-named documents in order ("" when all are empty), and whose types and
   * functions are the in-order concatenation over all of them.
   */
  lemma {:induction false} GatheredAt(ds: seq<DocValue>, k: string)
    requires k in Names(ds)
    ensures k in Gathered(ds)
    ensures Gathered(ds)[k].name == ds[FirstIndex(ds, k)].name
    ensures Gathered(ds)[k].description == FirstNonEmpty(Descriptions(Named(ds, k)))
    ensures Gathered(ds)[k].path == FirstNonEmpty(Paths(Named(ds, k)))
    ensures Gathered(ds)[k].types == AllTypes(Named(ds, k))
    ensures Gathered(ds)[k].functions == AllFunctions(Named(ds, k))
  {
    NamedNonEmpty(ds, k);
    GatherIntoAt(map[], ds, k);
    MergeIntoFirst(Named(ds, k));
  }

  /** Merging the rest of a non-empty sequence into its first document. */
  lemma MergeIntoFirst(f: seq<DocValue>)
    requires f != []
    ensures MergeInto(f[0], f[1..]).name == f[0].name
    ensures MergeInto(f[0], f[1..]).description == FirstNonEmpty(Descriptions(f))
    ensures MergeInto(f[0], f[1..]).path == FirstNonEmpty(Paths(f))
    ensures MergeInto(f[0], f[1..]).types == AllTypes(f)
    ensures MergeInto(f[0], f[1..]).functions == AllFunctions(f)
  {
    MergeIntoTypes(f[0], f[1..]);
    MergeIntoFunctions(f[0], f[1..]);
    MergeIntoText(f[0], f[1..]);
  }

  /** The first document with a name decides that name's description when it has one. */
  lemma FirstDescriptionWins(ds: seq<DocValue>, k: string)
    requires k in Names(ds)
    requires ds[FirstIndex(ds, k)].description != ""
    ensures Gathered(ds)[k].description == ds[FirstIndex(ds, k)].description
  {
    GatheredAt(ds, k);
    NamedNonEmpty(ds, k);
    assert Descriptions(Named(ds, k))[0] == ds[FirstIndex(ds, k)].description;
  }

  /** Folding a sequence in two parts is folding it whole (one `lib.Parse` batch after another). */
  lemma {:induction false} GatherIntoAppend(acc: map<string, DocValue>, xs: seq<DocValue>, ys: seq<DocValue>)
    ensures GatherInto(acc, xs + ys) == GatherInto(GatherInto(acc, xs), ys)
    decreases |xs|
  {
    if xs != [] {
      assert (xs + ys)[0] == xs[0];
      assert (xs + ys)[1..] == xs[1..] + ys;
      GatherIntoAppend(InsertValue(acc, xs[0]), xs[1..], ys);
    } else {
      assert xs + ys == ys;
    }
  }

  /** Counting steps by position folds the same prefix. */
  lemma {:induction false} GatherPrefixIsPrefix(acc: map<string, DocValue>, ds: seq<DocValue>, n: nat)
    requires n <= |ds|
    ensures GatherPrefix(acc, ds, n) == GatherInto(acc, ds[..n])
  {
    if n == 0 {
      assert ds[..n] == [];
    } else {
      var prefix := ds[..n - 1];
      assert ds[..n] == prefix + [ds[n - 1]];
      calc {
        GatherPrefix(acc, ds, n);
        InsertValue(GatherPrefix(acc, ds, n - 1), ds[n - 1]);
        { GatherPrefixIsPrefix(acc, ds, n - 1); }
        InsertValue(GatherInto(acc, prefix), ds[n - 1]);
        { GatherIntoSnoc(acc, prefix, ds[n - 1]); }
        GatherInto(acc, prefix + [ds[n - 1]]);
      }
    }
  }

  /** Counting steps by position over the whole sequence folds all of it. */
  lemma GatherPrefixIsWhole(acc: map<string, DocValue>, ds: seq<DocValue>)
    ensures GatherPrefix(acc, ds, |ds|) == GatherInto(acc, ds)
  {
    GatherPrefixIsPrefix(acc, ds, |ds|);
    assert ds[..|ds|] == ds;
  }

  /** Folding one more document is one more step. */
  lemma GatherIntoSnoc(acc: map<string, DocValue>, ds: seq<DocValue>, d: DocValue)
    ensures GatherInto(acc, ds + [d]) == InsertValue(GatherInto(acc, ds), d)
  {
    GatherIntoAppend(acc, ds, [d]);
    assert [d][1..] == [];
  }
}
