# outline `package` command: merge, aggregation and anchors

This project models the sequential core of the `package` command of
outline (cmd/package.go). The outline parser turns each source comment into
a list of documents. The command then folds those documents into a map from
name to document: it inserts a new name and merges a repeated name into the
stored document in place. The templates it renders use `sanitizeAnchor` to
turn a name into a link anchor.

Modules:

- `Docs` (docs.dfy): the document record. `Doc` is a class, because `merge`
  updates it in place. `DocValue` is the value a `Doc` holds at one moment.
- `Merging` (merge.dfy): `merge` as a method on `Doc` objects.
  `MergeValue` is its specification on values.
- `Gather` (gather.dfy): the name-keyed fold over values. It holds the
  lemmas that say what the finished map stores under each name.
- `Collect` (collect.dfy): the aggregation loop as a method over a
  `map<string, Doc>`. It is proved against the `Gather` fold, and it also
  tracks which object ends up stored under each name.
- `Anchor` (anchor.dfy): `sanitizeAnchor` as a loop that consumes its input
  from the front and writes to a buffer. It is proved equal to the
  per-character filter `Sanitized`.

`merge(a, b)` is one-sided. It fills only `a`'s empty description and path
from `b`, keeps `a`'s when they are non-empty, and never writes to `b`.

## Model

| member | source | states |
|---|---|---|
| Merging.Merge | cmd/package.go:115-126 | `a` ends up holding `MergeValue` of the old values. Its name is unchanged. An empty description or path is filled from `b`, and a non-empty one is kept. Types and functions are the old lists of `a` followed by those of `b`. `b` is unchanged when it is a different object. |
| Merging.MergeValue | cmd/package.go:115-126 | The merged value keeps the first name and fills empty text fields from the second value. Its lists have the summed lengths, with the first value's entries first and the second's after them, all kept. |
| Merging.FillEmpty | cmd/package.go:116-122 | A non-empty string is kept; an empty one is replaced by the other. |
| Merging.MergeBlankRight | cmd/package.go:115-126 | Merging a document with empty fields and no entries changes nothing. |
| Merging.MergeAssociative | cmd/package.go:115-126 | Merging is associative, so a run of same-named merges can be grouped in any way. |
| Gather.InsertValue | cmd/package.go:77-84 | One step of the fold adds the document's name to the keys and leaves every other name's value alone. Under that name it stores the merge of the stored value with the document when the name was present (lines 78-80), and the document itself otherwise (line 83). |
| Gather.GatherInto | cmd/package.go:77-84 | The keys of the fold are the starting keys plus every name met. |
| Gather.FirstNonEmpty | cmd/package.go:116-122 | The result is "" exactly when every string is empty. Otherwise it is a string of the sequence preceded only by empty strings. |
| Gather.FirstIndex | cmd/package.go:77-84 | The position found carries the name, and no earlier position does. |
| Gather.NamedNonEmpty | cmd/package.go:77-84 | The documents with a name form a non-empty list exactly when some document carries that name. The first of them is the document at the first position with the name. |
| Gather.GatherIntoAt | cmd/package.go:77-84 | Under a name already in the map, the fold holds that value with every same-named document merged in order. Under a new name, it holds the first same-named document with the later ones merged in order. |
| Gather.MergeIntoTypes | cmd/package.go:124 | A run of merges keeps the first name, and its types are all types concatenated in order. |
| Gather.MergeIntoFunctions | cmd/package.go:125 | After a run of merges, the functions are all functions concatenated in order. |
| Gather.MergeIntoText | cmd/package.go:116-122 | After a run of merges, the description and the path are the first non-empty ones in order. |
| Gather.GatheredKeys | cmd/package.go:77-84 | The keys of the aggregated map are the names met. Each key is the name of the value stored under it. |
| Gather.GatheredAt | cmd/package.go:77-84 | Under each name the aggregated map holds the first document's name. Its description and path are the first non-empty ones among the same-named documents, in order ("" when all are empty). Its types and functions are their in-order concatenation. |
| Gather.FirstDescriptionWins | cmd/package.go:77-84 | When the first document with a name has a description, that description is the one stored. |
| Gather.GatherIntoAppend | cmd/package.go:77-84 | Folding two batches one after the other is folding their concatenation. |
| Gather.GatherPrefixIsPrefix | cmd/package.go:77-84 | The fold counted by loop position equals the fold of the prefix read so far. |
| Collect.TrackStep | cmd/package.go:77-84 | The object being read is not stored yet. When its name is stored, the stored object is none of the objects still to be read. The step keeps the record of which object is stored under which name. |
| Collect.Step | cmd/package.go:77-84 | A name already stored leaves the map as it was, and the document is merged into the stored object. A new name stores the document object itself. Either way the loop's state is kept one position further. |
| Collect.MergeStep | cmd/package.go:78-80 | Merging into the stored object keeps every object under its own name. The stored objects then hold the fold one step further, and the documents still to come are untouched. |
| Collect.StoreStep | cmd/package.go:83 | Storing a new name's document keeps the loop state one position further. |
| Collect.Finish | cmd/package.go:77-84 | At the end of the loop the objects hold the whole fold, and each name is stored with the right object. |
| Collect.Collect | cmd/package.go:77-84 | After one batch the stored values are the fold of the batch into the old values. Names stored before keep their objects. A new name holds the first object of the batch that carries it. A document of the batch that was merged away, not stored, keeps its old value. |
| Collect.Aggregate | cmd/package.go:60-84 | Starting from the empty map, the keys are the names met, and each entry is keyed by its own name. The stored object is the first document with that name. The stored values are the aggregated values of `Gather.GatheredAt`. A document that was merged away keeps its old value. |
| Anchor.IsAlphaNumeric | cmd/package.go:159-161 | An underscore, or a letter or digit of the given classes. `Anchor.AsciiAlphaNumeric` states what this means under the ASCII classes. |
| Anchor.AsciiClasses | cmd/package.go:159-161 | For every character, under the ASCII classes: the ASCII letters are letters and the ASCII digits are digits, and digits are only '0'..'9' and never letters. Lower-casing moves 'A'..'Z' up by 32, sends every letter into 'a'..'z', and leaves every other character alone. |
| Anchor.AsciiAlphaNumeric | cmd/package.go:159-161 | Under the ASCII classes, a character is alphanumeric exactly when it is '_', an ASCII letter or an ASCII digit. Its lower-case form is then '_', 'a'..'z' or '0'..'9'. |
| Anchor.AnchorChar | cmd/package.go:140-146 | A character writes at most one character, and exactly one when it is '-', ' ', a letter, a digit or '_'. |
| Anchor.Sanitized | cmd/package.go:138-149 | The anchor is no longer than the input. |
| Anchor.SanitizeAnchor | cmd/package.go:134-157 | The loop returns exactly the per-character anchor of its whole input. |
| Anchor.SanitizedSingle | cmd/package.go:140-146 | '-' and ' ' give "-". A letter, digit or '_' gives its lower-case form. Anything else gives nothing. |
| Anchor.SanitizedAppend | cmd/package.go:138-149 | The anchor of a concatenation is the concatenation of the anchors, because the input is consumed left to right. |
| Anchor.SanitizedEmpty | cmd/package.go:138-149 | The anchor is empty exactly when no input character is kept, so the empty input gives the empty anchor. |
| Anchor.SanitizedLength | cmd/package.go:138-149 | The anchor has one character per kept input character. |
| Anchor.SanitizedChars | cmd/package.go:140-146 | Every anchor character is '-' or the lower-case form of an input letter, digit or underscore. |
| Anchor.AsciiSanitizedSafe | cmd/package.go:140-146 | With ASCII classes an anchor holds only '-', '_', lower-case letters and digits: no spaces and no upper case. |
| Anchor.AsciiSanitizedIdempotent | cmd/package.go:134-161 | With ASCII classes, sanitizing an anchor again leaves it unchanged. |

## Left out

- The outline parser (`lib.Parse`) is not part of this model. Each batch of parsed documents is an input sequence.
- Collect.Collect: requires the parsed objects to be pairwise distinct, and distinct from the objects already stored. Both hold for freshly parsed documents, and the source does not state them.
- Collect.Aggregate: models one batch starting from the empty map. The loops over packages, files and comments (lines 61-70 and 85-87) are not modelled. `Gather.GatherIntoAppend` shows that folding batches one after another equals folding their concatenation, at the level of values. For stored objects it is shown only within one batch.
- Command-line flags, template loading and execution, `os.Chdir`, printing and `os.Exit` (lines 19-58, 89-112, 128-132) are I/O and are not modelled.
- Reading comments through `parseutil.PackageAST` and `c.Text()` (lines 62-70) calls a foreign AST library and is left out.
- The map-to-list conversion and `Sort` (lines 95-102) are not modelled: Go map iteration order is unspecified, and `Sort` is outside the shown code. Properties are stated on the map.
- Buffer pooling (`bp.GetBuffer`/`PutBuffer`, lines 136 and 154) is resource reuse. The buffer is a local sequence here.
- UTF-8 decoding (`utf8.DecodeRune`, line 139) is not modelled. The input is a sequence of decoded characters, so invalid bytes are not covered; Go decodes them to U+FFFD, which is then dropped.
- `unicode.IsLetter`, `unicode.IsDigit` and `unicode.ToLower` are parameters (`Anchor.Classes`). Only the ASCII instance `Anchor.Ascii` is given, not the Unicode tables.
- Anchor.Ascii: agrees with Go's `unicode` tables only on ASCII input. A non-ASCII letter or digit such as 'é' is dropped under this instance, but Go's `isAlphaNumeric` (line 160) keeps it and lower-cases it. The lemmas that hold for every `Classes` value (`SanitizeAnchor`, `SanitizedAppend`, `SanitizedChars` and the others) cover the Unicode case. Only the `Ascii*` lemmas are limited to ASCII.
- Entries of the `Types` and `Functions` lists keep only their headline fields. Their nested lists (parameters, fields, methods, examples) are carried along by `merge` without being read.
- Merging.Merge: when `a` and `b` are the same object, the Go `append` may share backing arrays with other slices. The model has value sequences and does not capture slice aliasing.
