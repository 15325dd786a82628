# tsdiskdb collection engine, modelled in Dafny

tsdiskdb stores each collection as a JSON file holding an array of
documents. Every operation reads the whole array, works on it in memory and
writes it back. This project models that engine:

- `values.dfy` (module `Values`): parsed JSON values and documents. It also
  has the JavaScript object operations the engine relies on: property lookup,
  property assignment, the `merge` package, for-in enumeration, and `==`/`===`
  on parsed values.
- `util.dfy` (module `Util`): the shallow matchers `finder`,
  `removeFiltered` and `updateFiltered`. They are imperative methods, each
  proved against a specification function. Lemmas give what those functions
  mean. The inner `for (var p in query)` loop of each is a method of its own
  (`PushKeys`, `SpliceKeys`, `MergeKeys`); it returns `stopped` where the
  source runs `break loop`, and the outer walk then ends.
- `searcher.dfy` (module `Searcher`): the deep matcher `ObjectSearcher` as a
  class. Its fields are `results`, the `objects` stack and the `_id` set
  `resultIds`. Each loop of `findAllInObject` and the criterion loop of
  `performSearch` is a method of its own (`SearchDocuments`, `DrainStack`,
  `SearchCriteria`).
- `collection.dfy` (module `Collections`): the `Collection` class. Its
  `store` field stands for the file: `Absent`, `Corrupt` (the file does not
  parse) or `Present(docs)`. It also holds an injected id supply `ids` and a
  counter `next` of ids drawn.

Behaviour the model keeps as the code has it:

- A shallow hit is a document where some query key `p` is present with a
  loosely equal (`==`) value, so the string `"1"` matches the number `1`.
  Any one key is enough. Each hit is acted on once per matching key.
- `finder` therefore returns a document once per key it matches, and
  `update` reports that inflated count.
- `removeFiltered` splices index `i` again for every further matching key.
  That deletes neighbours which had already been visited
  (`Util.RemovedAllTakesNeighbour` exhibits this).
- The deep search is a depth-first walk over an explicit stack. Every nested
  non-leaf value, `null` included, is pushed once per query criterion. Its
  leaf test is loose (`==`). A root is reported once per `_id`. After each
  step, a correction pass removes a root whose top-level field is present
  and not strictly equal (`!==`) to the query value. A top-level `"1"`
  found by the query value `1` is therefore reported and then removed, while
  a nested one survives.

A multi-field `find` is not a conjunction. A document with a leaf matching
one query field, at top level or nested, and no top-level field of another
query name survives the correction at src/util.ts:128-133
(`Searcher.NotConjunction`). `merge(c, data)` (src/util.ts:41) assigns only
the top-level properties of `data` onto `c`; a nested object in `data`
replaces the one in `c` rather than being merged into it
(`Values.MergeReplacesNested`).

Termination of the deep search uses a weight. A value weighs 1 plus `m`
times the weight of its nested values, where `m` is the number of query
criteria. Each pop lowers the total weight of the stack by exactly one
(`Searcher.VisitWeight`).

## Model

| member | source | states |
|---|---|---|
| Values.Same | src/util.ts:129-130 | strict equality `===`: `null`s and scalars of one kind by value; an array or object, a distinct reference, is equal to nothing |
| Values.Loose | src/util.ts:40 | loose equality `==` (the IsLooselyEqual algorithm of ECMA-262, section 7.2.14), used by the tests at src/util.ts:40, 61, 82 and 141: one type compares strictly, `null` equals only `null`, number against string compares numbers, a boolean becomes 1 or 0 and an array or object its string form before comparing again |
| Values.LooseSymmetric | src/util.ts:40 | `a == b` exactly when `b == a`, so the order of the operands in the four tests does not matter |
| Values.LooseExtendsSame | src/util.ts:40 | whatever is strictly equal is loosely equal, the two agree on values of one type, and an array or object is strictly equal to nothing |
| Values.LooseNotStrict | src/util.ts:40 | `"1" == 1` and `true == 1` hold loosely but not strictly |
| Values.CompositeLooseNotStrict | src/util.ts:40 | `[1] == 1`, `[] == 0` and `{} == "[object Object]"` hold loosely but not strictly |
| Values.NumberRoundTrip | src/util.ts:40 | reading the decimal spelling of any integer as a number gives the integer back, so `n == String(n)` for every integer `n` |
| Values.NumberWithSpaces | src/util.ts:40 | a string is read as a number with its surrounding white space ignored: `" 12\n" == 12` |
| Values.NumberWithExponent | src/util.ts:40 | a string with a fraction and an exponent that denotes an integer equals it: `"1.5e1" == 15` |
| Values.SignedHexIsNaN | src/util.ts:40 | a sign before a hexadecimal literal makes the string `NaN`, equal to no number |
| Values.Lookup | src/util.ts:40 | `p in c` and `c[p]`: the value of the property named `p`, or none when `c` has no such property |
| Values.Entries | src/util.ts:139 | what for-in over a value yields with each key's value: an object's properties in order, an array's decimal indices with its elements, nothing for a boolean, a number or `null` (a string is never enumerated, since only documents and non-leaf values are visited); every value yielded is nested in the one enumerated |
| Values.IndexKey | src/util.ts:139 | the key for-in gives an array index: its decimal spelling, never empty |
| Values.IndexKeyInjective | src/util.ts:139 | distinct indices have distinct keys, so a query key names at most one element of an array |
| Values.Set | src/collection.ts:88-91 | assigning `key` makes it read back as the new value, leaves every other key's value unchanged, and adds at most one property |
| Values.LookupNone | src/util.ts:40 | `p in c` fails exactly when no property of `c` is named `p` |
| Values.MergeMember | src/util.ts:41 | after `merge(c, data)` a key reads as `data`'s value when `data` has it, and as `c`'s otherwise |
| Values.MergeReplacesNested | src/util.ts:41 | `merge` is not recursive: merging `{a: {y: 2}}` into `{a: {x: 1}}` gives `{a: {y: 2}}` |
| Values.MergeKeepsId | src/util.ts:41 | merging data without `_id` keeps the document's `_id` |
| Values.MergeIdempotent | src/util.ts:39-41 | merging the same data twice equals merging it once, so re-merging once per matching key changes nothing |
| Util.KeyMatches | src/util.ts:40 | `p in c && c[p] == query[p]`, the per-key test of `updateFiltered`, `removeFiltered` (src/util.ts:61) and `finder` (src/util.ts:82): the key is present and its value loosely equals the query value |
| Util.LooseKeyMatch | src/util.ts:61 | the test is loose: `remove({num: 1})` deletes `{_id: "a", num: "1"}` |
| Util.MatchCount | src/util.ts:81-82 | the number of times the inner loop fires on a document is at most the number of query keys |
| Util.MatchCountSpec | src/util.ts:81-82 | that number is positive exactly when some key matches |
| Util.MatchCountIsKeys | src/util.ts:81-82 | that number is the number of matching query keys |
| Util.LastMatchSpec | src/util.ts:79-86 | the index the single-mode walk stops at matches and no higher index does; there is none exactly when no document matches |
| Util.Finder | src/util.ts:72-92 | the descending double loop with its labelled break returns the multi-mode result, or the single-mode result |
| Util.PushKeys | src/util.ts:81-88 | the key loop on one document appends it once per matching key; in single mode it stops exactly when some key matches, having appended it once |
| Util.FinderAllLength | src/util.ts:79-89 | the multi-mode result has one entry per matching (document, key) pair |
| Util.FinderAllMembers | src/util.ts:83 | every returned entry is a stored document with a matching key |
| Util.FinderAllEmpty | src/util.ts:79-89 | nothing is returned in multi mode exactly when no document matches |
| Util.FinderOneIsFirst | src/util.ts:79-86 | the single-mode result is the first entry of the multi-mode result: `[]`, or the highest-index match alone |
| Util.RemoveFiltered | src/util.ts:52-70 | the in-place splicing loop leaves, in multi mode, each index's document and everything after it with one leading element dropped per matching key; in single mode, the array without its highest-index match |
| Util.SpliceKeys | src/util.ts:60-67 | the key loop on index `i` splices `i` once per matching key, dropping that many elements from `i` on; in single mode it stops exactly when some key matches, having removed only the element at `i` |
| Util.RemovedLastAt | src/util.ts:58-67 | single-mode removal with a match deletes exactly one element, the highest-index match, and keeps the rest in order |
| Util.RemovedLastNoHit | src/util.ts:58-67 | single-mode removal with no match leaves the array unchanged |
| Util.RemovedAllKeepsOrder | src/util.ts:58-68 | in multi mode what is left is a subsequence of the non-matching documents, in their original order |
| Util.RemovedAllSingleKey | src/util.ts:58-68 | when no document matches more than one key (a one-key query, for instance), multi-mode removal leaves exactly the non-matching documents, in order |
| Util.RemovedAllTakesNeighbour | src/util.ts:60-62 | a document matching two keys takes its non-matching successor with it: `[{x:1,y:1},{z:0}]` with `{x:1,y:1}` leaves `[]` |
| Util.UpdateFiltered | src/util.ts:29-50 | the in-place loop over the array leaves the multi-mode or the single-mode update of the old contents |
| Util.MergeKeys | src/util.ts:39-46 | the key loop on index `i` replaces the document there by its merge with `data` when some key matches and changes nothing else; in single mode it stops exactly when some key matches |
| Util.UpdatedAllAt | src/util.ts:36-47 | multi-mode update keeps the length, merges `data` into every matching document and no other |
| Util.UpdatedLastAt | src/util.ts:36-44 | single-mode update keeps the length and changes only the highest-index match, which it merges with `data` |
| Util.EmptyQueryIsInert | src/util.ts:31-89 | with an empty query nothing is found, removed or updated |
| Searcher.ConsistentAt | src/util.ts:129-130 | a root passes the correction for one criterion when it has no top-level field of that name, or one strictly equal to the criterion's value |
| Searcher.Consistent | src/util.ts:128-133 | a root passes the correction when it passes it for every query criterion |
| Searcher.LooseHitStrictDrop | src/util.ts:141 | a top-level `num: "1"` is a leaf hit for the query `{num: 1}` (loose) and fails the correction (strict) |
| Searcher.NestedLooseHit | src/util.ts:141 | `{_id: "a", n: {num: "1"}}` has a hit for `{num: 1}` and, lacking a top-level `num`, passes the correction |
| Searcher.NotConjunction | src/util.ts:128-133 | `{_id: "x", a: 1}` has a hit for `{a: 1, b: 2}` and passes the correction, lacking a top-level `b` |
| Searcher.ObjectSearcher.SearchObject | src/util.ts:138-167 | pushes every nested non-leaf value with its root, in key order; reports the root, and records its `_id`, when a leaf matches the one query entry and the `_id` is new |
| Searcher.ObjectSearcher.PerformSearch | src/util.ts:119-136 | pushes every nested value once per criterion; records the root's `_id` when some criterion matches a leaf; appends at most the root, at the end, and only when it passes the correction; every result still passes the correction |
| Searcher.ObjectSearcher.SearchCriteria | src/util.ts:120-124 | one `searchObject` per criterion pushes the nested values once per criterion and records the root once when its leaves hit some criterion |
| Searcher.ObjectSearcher.DropInconsistent | src/util.ts:126-135 | with only the newly appended root possibly inconsistent, the forward splice removes that root exactly when it fails the correction, and nothing else |
| Searcher.ObjectSearcher.FindAllInObject | src/util.ts:100-117 | returns only top-level documents, each with a matching leaf and passing the correction, never two with the same `_id`, at most one in single mode; with distinct `_id`s, multi mode (or an empty single-mode result) misses no such document |
| Searcher.ObjectSearcher.SearchDocuments | src/util.ts:101-106 | after performing the search on each document in order, results are sound and no hit is lost; in single mode it stops exactly at the first result |
| Searcher.ObjectSearcher.DrainStack | src/util.ts:108-114 | popping until the stack is empty keeps the results sound and leaves no unrecorded hit; in single mode it stops at the first result |
| Searcher.HitNeedsQuery | src/util.ts:120-124 | with no criterion nothing can match |
| Searcher.VisitWeight | src/util.ts:108-114 | popping an entry and pushing what its search pushes lowers the stack's weight by one, so the drain loop ends |
| Searcher.StepSound | src/util.ts:119-136 | one search step keeps every result a sound, correction-passing document with a distinct, recorded `_id`, and keeps every stack entry tied to a root of the collection |
| Searcher.VisitDoc | src/util.ts:101-106 | searching document `j` either records the `_id` of a document with a hit or leaves a stack entry holding that hit |
| Searcher.VisitTop | src/util.ts:108-114 | searching a popped entry either records its root or pushes a nested entry holding the hit |
| Searcher.Drained | src/util.ts:116 | once every document is searched and the stack is empty, every consistent document with a hit is among the results |
| Collections.Loaded | src/collection.ts:28-31 | a missing or unparseable file reads as an empty array |
| Collections.NoHitWithoutQuery | src/collection.ts:42-45 | the deep search with `{}` finds nothing, so `findOne({})` is undefined |
| Collections.StampedFields | src/collection.ts:88-91 | a saved document carries the fresh `_id`, and every other field is as in the input |
| Collections.RemoveOneLowersCount | src/collection.ts:171 | single-mode removal with a match lowers the count by one, removing the highest-index match |
| Collections.Collection.Find | src/collection.ts:17-32 | a missing or empty query returns the stored array verbatim; otherwise the result of a multi-mode deep search; `[]` when the file is missing or unparseable |
| Collections.Collection.FindOne | src/collection.ts:34-53 | without a query, the first stored document or none; with one, a single-mode hit that passes the correction, or none when no document qualifies (given distinct `_id`s); none for `{}` |
| Collections.Collection.Save | src/collection.ts:77-98 | appends the list in reverse order, each element with a fresh `_id`; the old contents stay an untouched prefix; returns exactly the appended suffix; the ids are distinct when the supply never repeats |
| Collections.Collection.SaveOne | src/collection.ts:99-110 | appends the document with a fresh `_id`, so the count grows by exactly one |
| Collections.Collection.Update | src/collection.ts:113-162 | with a shallow match, merges in place, keeps the length and reports `inserted` 0 with `updated` equal to the multi-mode finder's length (multi) or 1; without one, `upsert` appends `data` with a fresh `_id` and reports `{0, 1}`, else `{0, 0}`; the store is written in every case |
| Collections.Collection.Remove | src/collection.ts:164-180 | an absent file stays absent; no query deletes the file; a query filters by `removeFiltered` in the given mode; an unparseable file with a query fails |
| Collections.Collection.Count | src/collection.ts:182-193 | the number of stored documents, 0 for a missing or unparseable file |

## Left out

- File I/O (`readFromFile`, `writeToFile`, `removeFile`, `isValidPath`) is replaced by the `store` field. Non-atomic writes and crashes are not modelled.
- `JSON.parse`/`JSON.stringify`: documents are parsed value trees, and a parse failure is the `Corrupt` store.
- `uuid.v4` randomness: ids come from the injected supply `ids`. Neither probability nor the 32-hex format is modelled. Distinctness is the predicate `FreshSupply()`, a hypothesis about the supply that `save` uses to conclude that the ids it hands out differ; no method needs it.
- Loose `==` is Values.Loose. Numbers are exact integers, so it leaves out what floating point adds: a string of more than 15 significant digits rounding to a nearby number, an exponent so negative that the string underflows to 0 (`0 == "1e-400"` holds in JavaScript, `Loose` is false there), and numbers of magnitude 10^21 or more printing in exponent form inside an array's string form. An object or array element that carries its own `toString` or `valueOf` property is given its default string form, where JavaScript would call or reject that property.
- The leaf test at src/util.ts:141 compares `valueOBj[objKey]` with every leaf. For a key other than the criterion's that names no `Object.prototype` member, that is `undefined`, which no leaf (a boolean, number or string; `typeof null` is `"object"`) loosely equals, so the model's test `es[i].0 == crit.0` (in `Searcher.LeafHitAt`) is equivalent for such keys. The shallow tests check `p in c` first, so a missing field never reaches `==`.
- Query values are JSON values. A query property set to `undefined` (`{num: undefined}`, which loosely matches a `null` field and makes the correction drop every result that has the field) is not modelled.
- Floating-point numbers: numbers are integers.
- for-in order for integer-like keys (which JavaScript enumerates first): an object's properties are enumerated in their stored order.
- Inherited `Object.prototype` properties are not modelled, whether seen by `in`, by for-in or by a property read: `result[field]` at src/util.ts:129, `valueOBj[objKey]` at src/util.ts:141 and `this.resultIDS[...]` at src/util.ts:143. A document key, query key or `_id` that names such a member (`__proto__`, `constructor`, `toString`, ...) behaves differently in the source. For example a leaf `"__proto__": "[object Object]"` is loosely equal to `valueOBj["__proto__"]` and is reported for any query; a query field `toString` drops every result; a root whose `_id` is `"constructor"` is never reported.
- `resultIDS` keys: JavaScript converts `_id` to a string property name, so `1` and `"1"` (or a missing `_id` and `"undefined"`) share a key. The model keys by the `_id` value itself.
- The `opt_parentObj === undefined` branch of `searchObject` (src/util.ts:147-152, 157-159) is never taken, because every call passes a root. It is not modelled.
- Values.Merge: copies every key of `data`, including one named `__proto__`; the `merge` package skips that key. The package's code is not part of this model.
- Util.UpdateFiltered: `merge` writes into `c` itself, so keys after the first hit are compared with the merged document. The model compares them with the document as read. The final array is the same because merging the same data again changes nothing (`Values.MergeIdempotent`, for data with distinct keys, as a JavaScript object has). The aliasing into the `finder` records returned earlier is not observable and is not modelled.
- Util.RemoveFiltered: the splices are applied to a sequence value that the method returns, not to the caller's array in place. Every caller uses only the returned array.
- Collections.Collection.Update: with `upsert`, the caller's own `data` object gaining `_id` (src/collection.ts:149) is not modelled. A missing `query` behaves as `{}` and is modelled as the empty query.
- Collections.Collection.Remove: `delete this.db[this.collectionName]` (src/collection.ts:177) removes a property of the database object and is not modelled. The thrown exception is the `ParseError` outcome.
- src/index.ts (`connect`, `loadCollections`) is not part of this model: it does setup and I/O.
- TypeScript generic types are type-level only.
- Searcher.ObjectSearcher.FindAllInObject: states which documents are returned but not their order. Completeness is stated only when the documents' `_id`s are distinct, and in single mode only for an empty result. Which document a single-mode search reports first is not stated.
- Collections.Collection.Find: inherits the same weaker statement, through `FoundAll`, for a non-empty query.
- Collections.Collection.FindOne: with a query, states that the document returned qualifies, but not which qualifying document is found first.
