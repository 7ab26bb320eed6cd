/**
 * The outline document record (`lib.Doc`) as the `package` command sees it:
 * a name that keys the merge, an optional path, a free-text description and
 * two ordered entity lists. The entities themselves are carried along by the
 * merge step without being looked into, so they are kept to their headline
 * fields here.
 */
module Docs {

  /** A documented function: its raw signature line and its description. */
  datatype Function = Function(signature: string, description: string)

  /** A documented type: its name and its description. */
  datatype TypeDoc = TypeDoc(name: string, description: string)

  /** The value held by a `Doc` at one moment. */
  datatype DocValue = DocValue(
    name: string,
    path: string,
    description: string,
    types: seq<TypeDoc>,
    functions: seq<Function>)

  /** A document that the merge step updates in place (`*lib.Doc`). */
  class Doc {
    var name: string
    var path: string
    var description: string
    var types: seq<TypeDoc>
    var functions: seq<Function>

    constructor (v: DocValue)
      ensures Value() == v
    {
      name := v.name;
      path := v.path;
      description := v.description;
      types := v.types;
      functions := v.functions;
    }

    /** The document's current contents as a value. */
    function Value(): (v: DocValue)
      reads this
      ensures v.name == name && v.path == path && v.description == description
      ensures v.types == types && v.functions == functions
    {
      DocValue(name, path, description, types, functions)
    }
  }

  /** The set of objects stored in a name-keyed document map. */
  function Stored(docs: map<string, Doc>): set<Doc>
  {
    set k | k in docs :: docs[k]
  }

  /** The values currently held by the documents of a name-keyed map. */
  function Values(docs: map<string, Doc>): (m: map<string, DocValue>)
    reads Stored(docs)
    ensures m.Keys == docs.Keys
    ensures forall k :: k in docs ==> m[k] == docs[k].Value()
  {
    map k | k in docs :: docs[k].Value()
  }

  /** The values currently held by a sequence of documents. */
  function SeqValues(ds: seq<Doc>): (vs: seq<DocValue>)
    reads set d | d in ds
    ensures |vs| == |ds|
    ensures forall i :: 0 <= i < |ds| ==> vs[i] == ds[i].Value()
  {
    seq(|ds|, i requires 0 <= i < |ds| reads ds => ds[i].Value())
  }
}
