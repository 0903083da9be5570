# any-db, modelled in Dafny

any-db is a small graph-replication library. An application pushes Node
objects (objects with a `type` and an `id`). The library flattens each Node, and
every Node it references, into path/value entries. It writes those entries to a
local store and, under a batch number and a random write hash, to a server store.
To read the data back, it lists the server's history, keeps one canonical write
per key, and rebuilds Node objects from the entries.

The model covers two versions of that core:

- **index.ts, the current version.** It has four modules:
  - `Flatten`: the flattener. `parseObj` walks a property value down to its
    leaves. `collectPairs` is a class whose Map and visited Set are its fields.
  - `Canon`: the canonicalizer, `extractChunks`. It is a loop over the listing's
    pages that updates the table of smallest hashes.
  - `Materialize`: the materializer. `setDeep` and `entriesToNodes` are methods of
    an object store, so the objects they create and link stay shared.
  - `Replicator`: the object that `db(config)` returns. It is a class with the
    batch counter, the two stores, the published messages and the delivered Nodes
    as fields. Its methods are `push`, `resetLocal`, `pull` and `getBatch`. `pull`'s
    local `probe` is the function `Replicator.Probe`, passed to the loop as a
    parameter.
- **src/db.ts, the older flat version.** In `Legacy`, `collectPairs` emits one
  entry `[type, id, pred]` per property and stores the Node object itself.
  `entriesToNodes` sets `node[path[2]]`. The older `extractChunks` is
  `Canon.Extract`, whose `None` stands for that version's `undefined`. `push`
  reads the counter again when it writes to the server.

Supporting modules:

- `Js`: the JavaScript semantics the core relies on. These are `join('/')`,
  string `<`, `String(n)`/`Number(s)`, the batch counter (which can become `NaN`),
  and `split(':')`.
- `Graph`: the object graph. Node objects live in a heap `map<Ref, NodeRecord>`, so
  cycles can exist. Plain objects and arrays are inline values.
- `Entries`: entries and listing pages.

Behaviour the code has and the model keeps as written:

- **The hash filter drops nothing on server-shaped entries.** The canonical-hash
  key is `path.slice(1).join('/')`. That key still ends with the hash. When every
  path has at least two segments and no segment contains '/', equal keys mean equal
  hashes, so every entry of the `done` page comes back (`Canon.NothingDropped`).
  Without that shape two paths can share a key: `["b", "x/y", "h"]` and
  `["b", "x", "y/h"]` both give `x/y/h`, and one of them is dropped.
- **Earlier pages return nothing.** Only the first `done` page contributes
  entries; earlier pages only fill the table.
- **A recorded empty hash is replaced.** Because `!cannonicals[key]` is true for
  `""`, a recorded empty hash is always replaced (`Canon.EmptyHashReplaced`).
- **`probe` is true when a batch is empty.** `probe(n)` holds exactly when the first
  page of `list(String(n))` is `done` and has no entries. `pull` therefore resyncs
  whenever `probe(currentBatchNumber)` is false: when the current batch has data,
  and also when its first page is not `done`. It keeps advancing while the next
  batch is empty, so on a finite history it never stops (`Replicator.RoundsNeverStop`). The loop is run
  with a fuel bound.
- **Paths keep the batch segment.** `resetLocal` and `getBatch` pass the results
  to `entriesToNodes` with the batch segment still at the front of each path.
- **The counter can become `NaN`.** `Number(res.path[0])` may be `NaN`, and then
  `Math.max` makes the counter `NaN`.
- **The older `resetLocal` can throw.** In `src/db.ts`, `extractChunks` yields
  `undefined` when no page is `done`, and `resetLocal` then throws right after
  clearing the local store.

Store calls are sequential effects on maps from paths to values. In `push`, a rejected `set`
is the path's membership in a given set of failing paths. The server listing is a
function from a prefix to the pages its `list(...prefix)` call yields. The write
hash is a parameter.

## Model

| member | source | states |
|---|---|---|
| Js.Join | index.ts:98 | joining a single segment gives that segment |
| Js.JoinInjective | index.ts:98 | for non-empty paths whose segments are free of '/', equal Map keys mean equal paths, so distinct paths never overwrite each other |
| Js.SlashIndex | index.ts:98 | the first '/' lies within the string |
| Js.SplitAtFirstSlash | index.ts:98 | `a/b == c/d` with slash-free heads gives `a == c` and `b == d` |
| Js.Less | index.ts:112 | string `<`: the first differing character decides, and a proper prefix is smaller; the four lemmas below give its order laws |
| Js.LessIrreflexive | index.ts:112 | no string is `<` itself |
| Js.LessTransitive | index.ts:112 | string `<` is transitive |
| Js.LessTotal | index.ts:112 | of two different strings, one is `<` the other |
| Js.LessAsymmetric | index.ts:112 | `a < b` excludes `b < a` |
| Js.DigitChar | index.ts:195 | a digit renders as a decimal digit character |
| Js.NatToString | index.ts:195 | `String(n)` of a batch number is a non-empty digit string |
| Js.NumToString | index.ts:168 | `String(n)` of a counter value: the decimal digits of a number, `"NaN"` for `NaN`; `NumberOfNumToString` reads it back |
| Js.DigitsOfNatToString | index.ts:160 | reading back the digits of `String(n)` gives `n` |
| Js.NumberOf | index.ts:160 | `Number(s)` is finite exactly for digit strings, and `NaN` for undefined |
| Js.NumberOfNumToString | index.ts:160 | `Number(String(x)) == x` for every counter value, `NaN` included |
| Js.Inc | index.ts:182 | `x + 1` stays finite exactly when `x` is, and adds one |
| Js.Max | index.ts:160 | `Math.max` is `NaN` if either argument is, else the larger of the two |
| Js.SplitColon | index.ts:142 | the first field is the prefix before the first ':', and the second field is undefined exactly when there is no ':' |
| Js.UpToColon | index.ts:142 | the field is a ':'-free prefix that stops at a ':' or the end |
| Js.Interpolate | index.ts:139 | the template `${x}` of a string or `undefined`: the string itself, or `"undefined"` |
| Js.Truthy | index.ts:112 | `!x` is false exactly when `x` is a non-empty string; `undefined` and `""` are falsy |
| Graph.Lookup | index.ts:36 | a key is found exactly when some entry of the object has it |
| Graph.IsNode | index.ts:35-37 | `isNode`: true exactly for a Node reference of the heap, never for an inline object, array or primitive |
| Graph.PropText | index.ts:95 | `${node[k]}` of a string property is that string |
| Graph.GetProps | index.ts:79-81 | the properties are exactly the Node's entries other than `id` and `type` |
| Graph.FilterProps | index.ts:80 | the filter keeps exactly the entries whose key is neither `id` nor `type` |
| Graph.ToStr | index.ts:97 | `obj?.toString()` is undefined exactly for null/undefined, and a primitive gives its own text |
| Graph.NodeTag | index.ts:97 | the template `${objValue.type}:${objValue.id}` of a Node, from its `type` and `id` texts |
| Graph.Reach | index.ts:90-99 | the Nodes a walk along Node links reaches from `n` without entering the set `avoid`, the visited Set; the five lemmas below give its laws |
| Graph.ReachSelf | index.ts:91-92 | a Node outside the Set reaches itself |
| Graph.ReachAvoids | index.ts:91 | nothing is reached from a Node already in the Set, and no reached Node is in it |
| Graph.ReachStep | index.ts:99 | what a referenced Node reaches, the referring Node reaches too |
| Graph.ReachMono | index.ts:90-99 | a larger Set reaches less |
| Graph.ReachWithin | index.ts:90-99 | a set holding `n` and closed under the links holds everything `n` reaches |
| Flatten.ParseObj | index.ts:83-88 | every leaf is a Node or a non-object, and its path extends the input path; a Node or scalar gives exactly one leaf at the input path |
| Flatten.ParseFields | index.ts:86 | the leaves of an object's entries are leaf values under extended paths |
| Flatten.ParseElems | index.ts:86 | the leaves of an array's elements are leaf values under extended paths |
| Flatten.ArrayIndexOfNatToString | index.ts:86 | the key `String(i)` for array element `i` reads back as index `i` |
| Flatten.LookupFirst | index.ts:86 | a key that is found is the key of an entry holding the found value |
| Flatten.LookupUnique | index.ts:86 | in an object without repeated keys, each entry is what its key finds |
| Flatten.InParseFields | index.ts:86 | a leaf of an object's walk comes from one of its entries |
| Flatten.InParseElems | index.ts:86 | a leaf of an array's walk comes from one of its elements, under its index |
| Flatten.ParseFieldsHas | index.ts:86 | every leaf of every entry is a leaf of the object |
| Flatten.ParseElemsHas | index.ts:86 | every leaf of every element is a leaf of the array |
| Flatten.ParseObjSound | index.ts:83-88 | in a value whose objects repeat no key, following a leaf's walked keys from the value reaches that leaf's value |
| Flatten.ParseObjComplete | index.ts:83-88 | every Node or scalar reachable by following keys is a leaf, at the path of those keys |
| Flatten.ParseObjOfLeaf | index.ts:84-87 | a Node or scalar at the top yields exactly one leaf, at the given path |
| Flatten.ParseObjRefsIn | index.ts:83-88 | every Node a leaf holds is one the value holds |
| Flatten.LeafEntry | index.ts:95-98 | the entry set for one leaf: path `[type, id, pred, ...objPath]`; for a Node leaf the value `type:id` with `ref` true, otherwise `obj?.toString()` of the whole property value with `ref` false |
| Flatten.Reachable | index.ts:90-99 | the Nodes reachable from `n` through Node leaves of properties; `PairsOf` proves it is exactly what a top-level `collectPairs(n)` visits |
| Flatten.FlattenedFrom | index.ts:190-191 | what `[...collectPairs(n).values()]` holds: entries emitted by Nodes that `n` reaches, covering every leaf of each, no key twice |
| Flatten.EmittedShape | index.ts:93-98 | in a well-formed heap (`HeapOk`), every emitted path is `[type, id, pred, ...objPath]` with `pred` never `id` or `type`, for a property and a leaf of it |
| Flatten.SetByEmitted | index.ts:95-98 | an entry set for a leaf of a property is one its Node emits |
| Flatten.LeafReach | index.ts:99 | a Node leaf reaches, outside the grown Set, only Nodes its referrer reaches outside the earlier Set |
| Flatten.DoneReach | index.ts:90-103 | the Nodes a walk visits afresh, each fully walked, hold everything its start reaches outside the old Set |
| Flatten.Collector.constructor | index.ts:90 | begins with an empty Map and an empty Set |
| Flatten.Collector.Values | index.ts:191 | `values()` lists the Map's values in insertion order |
| Flatten.Collector.CollectPairs | index.ts:90-103 | returns the collection exactly when the Node is new; a visited Node changes nothing; the Nodes visited afresh are exactly those `sub` reaches outside the old Set; each of them is fully walked and what it references is visited; keys are only added, and each value is an old one or one a newly visited Node set |
| Flatten.Collector.Set | index.ts:98 | `collection.set` overwrites the key's value, appends the key only if it is new, and leaves the Set alone |
| Flatten.Collector.CollectLeaf | index.ts:94-99 | the leaf's entry is in the Map, and for a Node leaf the Node is visited and fully walked |
| Flatten.Collector.SetLeaf | index.ts:95-98 | the leaf's entry key is in the Map, and the Set is unchanged |
| Flatten.Collector.CollectProp | index.ts:93-100 | every leaf of the property is handled, and newly visited Nodes are fully walked |
| Flatten.PairsOf | index.ts:190-191 | the visited Nodes are exactly those reachable from `n`; the values are the final Map's entries, each once under its own key, each emitted by a visited Node; every leaf of every visited Node has its key among them |
| Flatten.DoneCovers | index.ts:191 | a fully walked Node has every leaf's key among the values |
| Flatten.CoversGrows | index.ts:189-192 | a Node stays covered when more entries are gathered around |
| Flatten.ValuesOfCollection | index.ts:191 | the value list has every Map key, and each value was set by a visited Node |
| Entries.PathKey | index.ts:98 | the Map key `path.join('/')` of an entry |
| Entries.Concat | index.ts:189-192 | the entries of several blocks, block after block: what `flatMap` returns |
| Materialize.FromJs | index.ts:147 | undefined stays undefined, and a string stays that string |
| Materialize.PathAt | index.ts:138 | `path[i]` is defined exactly below the path's length |
| Materialize.SubjectKey | index.ts:138-139 | the key `${type}:${id}` of the first two path segments, `undefined` past the end |
| Materialize.TargetKey | index.ts:142-143 | the key `${type}:${id}` of the two fields of a reference value's `split(':')` |
| Materialize.AddKey | index.ts:140 | `nodes[k] ??= ...` on the key order: a key is appended the first time it is seen, and never again |
| Materialize.NodeKeyOrder | index.ts:136-150 | the node keys in `Object.values` order: each entry adds its subject key, then a reference's target key, when not yet present |
| Materialize.AddKeysMembers | index.ts:140-144 | `??=` over keys adds exactly the given keys and keeps each key once |
| Materialize.NodeKeyOrderNext | index.ts:137-149 | one entry extends the key order by its subject and then its target |
| Materialize.NodeKeyOrderIsNodeKeys | index.ts:136-150 | the node order lists each subject or reference-target key exactly once |
| Materialize.FollowStep | index.ts:129 | following a path goes through the child under its first key |
| Materialize.AllocF | index.ts:128 | an object literal, stored under the next fresh object id |
| Materialize.PutF | index.ts:131 | `obj[k] = v`: only property `k` of object `obj` changes |
| Materialize.SetDeepF | index.ts:125-133 | `setDeep` on an object heap: throws on an empty path or when a step meets a non-object; otherwise creates `{}` for each missing key but the last, steps down, and writes the value under the last key |
| Materialize.SetDeepOutcome | index.ts:125-133 | `setDeep` completes exactly when the path is walkable, keeps the store well formed, and changes nothing when it throws |
| Materialize.SetDeepKept | index.ts:128-131 | every property that existed keeps its value, except the last key of the object the walk targets |
| Materialize.SetDeepAdded | index.ts:128-131 | a property appears on an existing object only where the walk looked it up |
| Materialize.SetDeepReadBack | index.ts:125-133 | after `setDeep` completes, following the path reaches the value, unless the final write replaced a link the walk went through |
| Materialize.DistinctNoRevisit | index.ts:128-131 | a path without a repeated key never replaces a link its own walk went through |
| Materialize.EnsureNodeF | index.ts:140 | `nodes[key] ??= {type, id}` registers the key, keeps every existing node, and extends the key order by the key |
| Materialize.SetUnderF | index.ts:145-147 | `setDeep(objPath, value, nodes[key])`: its outcome and the store it leaves |
| Materialize.AddRefF | index.ts:141-145 | the reference branch: `split(':')` of the value, `nodes[objKey] ??= {type, id}`, then `setDeep` of that node object under the subject |
| Materialize.AddValueF | index.ts:141-148 | the branch on `en.ref`: a reference whose value is `undefined` throws in `split`; otherwise the reference or the plain `setDeep` branch |
| Materialize.AddEntryF | index.ts:137-148 | one iteration: the destructuring of `en.path`, `nodes[key] ??= {type, id}`, then `AddValueF` |
| Materialize.SetUnderReadBack | index.ts:145-147 | `setDeep` under a node reads back for a path without a repeated key |
| Materialize.AddEntryReadBack | index.ts:137-148 | an entry that does not throw is accepted, registers its subject and any target, and reads back at its path when no key repeats |
| Materialize.NodeValues | index.ts:150 | `Object.values(nodes)` gives the node of each key, in insertion order |
| Materialize.NodeValuesOk | index.ts:136-150 | the node values are objects of the store, new since the run began, one distinct object per key |
| Materialize.NodeObjectsAt | index.ts:150 | the returned Node objects are the node values, each with the objects it links to |
| Materialize.Run | index.ts:137-149 | the loop as a fold over the entries from a given store, where the first throw ends the run and later entries are skipped |
| Materialize.RunOk | index.ts:135-151 | whether `entriesToNodes(es)` returns rather than throws; it depends on the entries alone, since every object it touches is one it creates |
| Materialize.Materialized | index.ts:150 | `Object.values(nodes)` of the finished run, each node with the objects it links to |
| Materialize.NodeObjects | index.ts:150 | `Object.values(nodes)` over the key order: one node object per key, each the node of that key together with the objects |
| Materialize.RunNext | index.ts:137-149 | the run over one more entry is one more iteration, unless an earlier entry threw |
| Materialize.RunFailStays | index.ts:137-149 | once an entry throws, the later entries are never reached |
| Materialize.RunOkEntries | index.ts:138-147 | a run that returns processed only entries with a type, an id and a key, and a string on every reference |
| Materialize.ObjectStore.constructor | index.ts:136 | starts without objects |
| Materialize.ObjectStore.Alloc | index.ts:128 | an object literal is a fresh object with the given properties |
| Materialize.ObjectStore.Put | index.ts:131 | `obj[k] = v` changes only that property |
| Materialize.ObjectStore.SetDeep | index.ts:125-133 | fails exactly on an empty path or a walk through a non-object, and then changes nothing; among existing properties only the last key of the object the walk targets changes; a key appears on an existing object only where the walk looked it up; afterwards the path leads to the value unless the final write replaces a link the walk went through |
| Materialize.ObjectStore.Enter | index.ts:128-129 | an existing key is kept as it is; a missing one becomes a new empty object |
| Materialize.ObjectStore.EnsureNode | index.ts:140 | `nodes[key] ??= {type, id}` creates the node once and keeps an existing one |
| Materialize.ObjectStore.AddEntry | index.ts:137-148 | the run takes one `AddEntryF` step; the entry is one the loop accepts; the subject and any target are registered in key order; when the object path repeats no key, the subject holds the value, or the target node itself, at that path |
| Materialize.ObjectStore.AddRef | index.ts:141-145 | the target node is registered, created if absent, and the subject keeps its node; when the object path repeats no key, it leads from the subject to the target node object |
| Materialize.ObjectStore.AddValue | index.ts:141-148 | the branch on `en.ref`, tied to `AddValueF`: on success the path has a key and a reference value is a string; the key order gains the target key exactly on the reference branch |
| Materialize.ObjectStore.SetUnder | index.ts:145-147 | the node map is unchanged; the path below the node leads to the value afterwards unless the final write replaces a link the walk went through |
| Materialize.ObjectStore.RunStep | index.ts:137-149 | one iteration extends the run by entry `i` and the key order by its keys |
| Materialize.ObjectStore.RunEntries | index.ts:136-149 | the loop follows `Run` from the current store, and when no entry throws it has one new object per key of the node order |
| Materialize.ObjectStore.EntriesToNodes | index.ts:135-151 | returns exactly when the run `Run` of the entries does not throw, and leaves the store that run leaves; it then returns `Object.values(nodes)` of that run, one new, distinct object per key of the node order |
| Materialize.Build | index.ts:135-151 | on a store of its own, `entriesToNodes` returns exactly when `RunOk` holds, and then yields `Materialized(entries)`: one distinct Node object per node key, in `Object.values` order |
| Materialize.TargetKeyOfTag | index.ts:97-143 | when `type` and `id` contain no ':', a reference value `type:id` names the node `type:id` again; otherwise `split(':')` cuts it, and `"t:a:b"` names `t:a` |
| Materialize.UpToColonFree | index.ts:142 | a ':'-free string is its own first field |
| Materialize.ColonSplit | index.ts:142 | `a:b...` splits into `a` and the next field |
| Canon.Hash | index.ts:111 | `path.at(-1)` is undefined exactly for an empty path |
| Canon.Key | index.ts:110 | `c.path.slice(1).join('/')`, `""` for an empty path |
| Canon.Get | index.ts:112 | `cannonicals[key]`: the recorded hash, `undefined` for a key not yet seen |
| Canon.DropLast | index.ts:116 | `slice(0, -1)` plus the last segment gives the path back |
| Canon.Pick | index.ts:112 | the hash replaces an unset or falsy recorded value, or a larger one, and otherwise the recorded value stays |
| Canon.Record | index.ts:110-112 | the table after one entry: its key now maps to `Pick` of the recorded hash and the entry's hash |
| Canon.Fold | index.ts:109-114 | the table after a run of entries, in order; `FoldIsMin` states what it holds |
| Canon.Survivors | index.ts:116 | the survivors are exactly the page entries whose hash is the recorded one, each stripped of its hash |
| Canon.FirstDone | index.ts:115-119 | finds the first page with `done` set, or reports that none is |
| Canon.Extract | src/db.ts:56-73 | the listing walk returns the first `done` page's survivors under the table of every entry up to it, or `undefined` when the pages end without `done` |
| Canon.ExtractSpec | index.ts:105-123 | `extract` stated over the whole listing: nothing when no page is `done`, otherwise the survivors of the first `done` page under the table of every entry up to and including that page |
| Canon.RecordChunk | index.ts:109-114 | the table after a page is the fold of its entries |
| Canon.FoldAppend | index.ts:106-118 | the table carries over from page to page |
| Canon.FirstDoneAt | index.ts:115 | the page the walk stops at is the first `done` one |
| Canon.NoneDone | index.ts:117-120 | with no `done` page there is no first one |
| Canon.ExtractChunks | index.ts:105-123 | the result is the listing walk's result, and `[]` when a page without `done` has no `next` |
| Canon.FoldIsMin | index.ts:110-112 | when every hash is non-empty, each key that occurs maps to the string-smallest of its hashes, and no other key is recorded |
| Canon.MinAfterSmaller | index.ts:112 | a smaller hash takes over as the smallest |
| Canon.MinAfterLarger | index.ts:112 | a hash that is not smaller leaves the smallest as it was |
| Canon.MinAfterFirst | index.ts:112 | the first hash under a key is the smallest so far |
| Canon.MinAfterOther | index.ts:110-112 | an entry under another key changes nothing for this key |
| Canon.MinHashUnique | index.ts:112 | the smallest hash is unique |
| Canon.FoldOrderIndependent | index.ts:110-112 | when every hash is non-empty, the table does not depend on the order the entries arrive in; with an empty hash it can, because `!cannonicals[key]` replaces a recorded `""` |
| Canon.SlashFreeTail | index.ts:110 | the key's segments are still slash-free |
| Canon.SameKeySameHash | index.ts:110-111 | server-shaped entries with equal keys have equal hashes |
| Canon.FoldAbsent | index.ts:112 | a key no entry has stays undefined |
| Canon.FoldRecordsOwnHash | index.ts:110-116 | with server-shaped entries, the table records each entry's own hash |
| Canon.NothingDropped | index.ts:110-116 | with server-shaped entries, every entry of the `done` page is returned, hash removed, in order |
| Canon.StripAll | index.ts:116 | each entry with its last segment removed and its value unchanged |
| Canon.SurvivorsAll | index.ts:116 | entries whose hash is the recorded one all survive |
| Canon.NoDonePageNothing | index.ts:117-120 | without a `done` page nothing is returned |
| Canon.ResultFromDonePage | index.ts:115-116 | every result is a stripped entry of the `done` page |
| Canon.SurvivorFrom | index.ts:116 | a survivor is a page entry whose hash is the recorded one, stripped |
| Canon.EmptyHashReplaced | index.ts:112 | a recorded `""` is replaced by a larger hash, while a recorded `"a"` is not |
| Replicator.Tail | index.ts:161 | `slice(1)` drops exactly the first segment |
| Replicator.ServerPath | index.ts:195 | the server path `[String(batch), ...path, hash]` of a pushed entry |
| Replicator.ServerPathRoundTrip | index.ts:195 | a pushed server path, hash removed, yields the batch number `Number(path[0])` and the local path `slice(1)` |
| Replicator.ServerPathInjective | index.ts:195 | entries with different paths of one push get different server paths |
| Replicator.ApplyOverrides | index.ts:194 | writing a run over a store overrides it with what the run alone leaves |
| Replicator.ApplyIdempotent | index.ts:194-195 | writing the same run twice leaves what writing it once does |
| Replicator.ApplyAppend | index.ts:194-195 | writing two runs one after the other is writing their concatenation |
| Replicator.ApplyLastWrite | index.ts:194-195 | the last write to a path is what the store holds there |
| Replicator.ApplyKeys | index.ts:194-195 | a path is present afterwards exactly when it was before or some entry wrote it |
| Replicator.Apply | index.ts:194-195 | a store after `set(path, value)` of each entry, in order; the five lemmas above give its laws |
| Replicator.Settle | index.ts:193-197 | one job's outcome: rejected when its local or its server `set` rejects, otherwise fulfilled with the entry |
| Replicator.LocalStep | index.ts:194 | the local write one job makes: the entry, when `local.set` exists and does not reject |
| Replicator.ServerStep | index.ts:195 | the server write one job makes: the entry under its server path, when `server.set` exists and neither write rejects |
| Replicator.PublishStep | index.ts:196 | the message one job publishes: the entry, when `publish` exists and the job got past both writes |
| Replicator.LocalWrites | index.ts:193-194 | the local writes of all jobs, in order |
| Replicator.ServerWrites | index.ts:193-195 | the server writes of all jobs, in order |
| Replicator.Published | index.ts:193-196 | the messages of all jobs, in order |
| Replicator.Outcomes | index.ts:193-198 | what `Promise.allSettled` resolves to: one outcome per job, in order |
| Replicator.OutcomesAt | index.ts:193-198 | there is one settled outcome per entry: outcome `i` is job `i`'s |
| Replicator.LocalAfterIsApply | index.ts:193-194 | running the jobs one at a time leaves the local store with the accepted local writes |
| Replicator.ServerAfterIsApply | index.ts:193-195 | running the jobs one at a time leaves the server with the accepted server writes |
| Replicator.ServerWritesSound | index.ts:195 | every server write is a fulfilled entry under `[String(batch), ...path, hash]` |
| Replicator.ServerWritesComplete | index.ts:195 | with a server `set`, every fulfilled entry reaches the server |
| Replicator.Results | index.ts:157 | what `extractChunks(await config.server.list())` resolves to: `ExtractSpec` of the full listing, `[]` without a `done` page |
| Replicator.LocalEntries | index.ts:161 | each result is written locally under `path.slice(1)` with its value |
| Replicator.Synced | index.ts:159-162 | the store after `set(res.path.slice(1), res.value, res.ref)` for each result, in order |
| Replicator.SyncedStep | index.ts:159-162 | one more result adds its local write |
| Replicator.SyncedIsApply | index.ts:159-162 | syncing results one at a time is writing their local entries in order |
| Replicator.BatchOf | index.ts:160 | `Number(res.path[0])`: the batch number of a result, `NaN` unless that segment is digits |
| Replicator.BatchMax | index.ts:159-162 | the counter after `Math.max(currentBatchNumber, Number(res.path[0]))` for each result, in order |
| Replicator.BatchMaxStep | index.ts:160 | one more result takes `Math.max` with its batch number |
| Replicator.BatchMaxBounds | index.ts:160 | a finite counter after `Math.max` is at least the old counter and every result's batch, so `resetLocal` never lowers it |
| Replicator.BatchMaxFinite | index.ts:160 | the counter stays finite exactly when it was finite and every result's batch is a number |
| Replicator.ResetCoversPushedBatch | index.ts:160-195 | after a reset whose counter stays finite, the counter is at least the batch of every pushed entry it read; once a batch segment gives `NaN` the counter is `NaN` |
| Replicator.Delivered | index.ts:177 | what one `entriesToNodes(rs).forEach(n => config.onNode?.(n))` hands out: `Materialized(rs)` when it returns and `onNode` exists, otherwise nothing |
| Replicator.ProbeAt | index.ts:167-170 | `probe(n)`: the first page of `list(String(n))` is `done` and has no entries |
| Replicator.Probe | index.ts:167-170 | `pull`'s local `probe`, as the function of the batch number passed to the loop |
| Replicator.Rounds | index.ts:181-184 | the iterations `while (await probe(currentBatchNumber + 1))` runs from counter `c`, at most `fuel` |
| Replicator.IncBy | index.ts:182 | `k` increments add `k` to a finite counter and keep `NaN` |
| Replicator.RoundsStep | index.ts:181-184 | for any probe, the loop runs once more exactly when fuel remains and the next probe is true |
| Replicator.IncByShift | index.ts:182 | one increment then `k` is `k + 1` increments |
| Replicator.RoundsProbes | index.ts:167-184 | every round had a true probe, and the loop stops at the first false probe when fuel remains |
| Replicator.RoundsNeverStop | index.ts:167-181 | from a finite counter, if the first page of every batch above it is `done` and empty, `probe` stays true and the loop uses all its fuel |
| Replicator.RoundsDone | index.ts:181 | the loop stops once the fuel is spent or the probe is false |
| Replicator.RoundsAdvance | index.ts:181-183 | one more iteration keeps the total number of iterations |
| Replicator.Passes | index.ts:177-183 | `n` passes of `entriesToNodes` over the same results hand out the same Nodes `n` times, or nothing when there is no `onNode` or it throws |
| Replicator.PassesNext | index.ts:181-183 | one more pass appends what a single pass delivers |
| Replicator.Replay | index.ts:181-183 | repeating a delivery keeps what was delivered before it |
| Replicator.ReplayDelivered | index.ts:180-184 | replaying one pass's delivery `n` times is what `n` passes deliver |
| Replicator.FlattenAll | index.ts:189-192 | the entries are the concatenation of one block per argument, in order; each block is emitted by the Nodes its argument reaches, covers each of them, and has no key twice, so a Node reached from two arguments is emitted twice |
| Replicator.FlattenNext | index.ts:189-191 | the block of one more argument joins the earlier blocks, keeping what each block states |
| Replicator.NodePairs | index.ts:190-191 | one Node's entries, with a fresh Map and Set, are emitted by the Nodes it reaches and cover each of them, no key twice |
| Replicator.CoversSuffix | index.ts:189 | entries of earlier Nodes do not uncover a later one |
| Replicator.EmittedAppend | index.ts:189 | `flatMap` keeps every entry emitted |
| Replicator.CoveredAppend | index.ts:189 | entries of later Nodes do not uncover earlier ones |
| Replicator.Db.constructor | index.ts:153-154 | the counter starts at 0, with nothing published and nothing delivered |
| Replicator.Db.Push | index.ts:186-198 | reserves the old counter as the batch and increments it by exactly 1; the entries are the concatenated per-argument blocks of `FlattenAll`; there is one outcome per entry; local, server and published messages are exactly the accepted writes under `[String(batch), ...path, hash]` |
| Replicator.Db.SettleAll | index.ts:193-198 | the outcomes and the new stores are those of the jobs in order; the counter is untouched |
| Replicator.Db.SettleNext | index.ts:193-198 | job `k` advances the outcomes and stores from the first `k` entries to the first `k + 1` |
| Replicator.Db.PushEntry | index.ts:193-197 | one job writes locally, then to the server, then publishes, stopping at a rejected write |
| Replicator.Db.SyncLocal | index.ts:174-176 | with a local `set`, the store takes every result under `path.slice(1)`; otherwise it is unchanged |
| Replicator.Db.Deliver | index.ts:177 | completes exactly when `entriesToNodes` of the results returns (`RunOk`); it then yields `Materialized(rs)`, one distinct object per node key, and `onNode` receives exactly those; nothing is delivered when it throws; other state is unchanged |
| Replicator.Db.ResetLocal | index.ts:155-164 | a no-op without `clear`, `set` or `list`; otherwise local becomes exactly the canonical results, the counter their `Math.max`, `completed` is whether `entriesToNodes` returns, and `onNode` receives the materialized Nodes exactly then |
| Replicator.Db.Rebuild | index.ts:158-162 | the cleared store is refilled with the results, and the counter raised to their batch numbers |
| Replicator.Db.GetBatch | index.ts:171-178 | the local store takes the canonical results; `completed` is whether `entriesToNodes` returns, and `onNode` receives the materialized Nodes exactly then; the counter is untouched |
| Replicator.Db.NextBatch | index.ts:182-183 | `currentBatchNumber++; await getBatch()` raises the counter by one, leaves local as it was, and delivers the same Nodes once more |
| Replicator.Db.Round | index.ts:181-183 | one loop iteration advances the counter and the remaining rounds by one |
| Replicator.Db.Drain | index.ts:181-184 | the loop runs exactly the rounds the probes allow, raises the counter by that many, leaves local as it was, and delivers the Nodes once per round |
| Replicator.Db.Pull | index.ts:165-185 | a no-op without `list` or `set`; the resync starts exactly when `probe(currentBatchNumber)` is false, that is, when the first page listed under the current batch is not both `done` and empty; `completed` is whether `entriesToNodes` returns; then the counter rises by exactly the rounds the probes allow, and otherwise not at all; `onNode` receives the same materialized Nodes once per `getBatch`; local ends as after one sync |
| Legacy.PairsSourcedSet | src/db.ts:50 | setting a property's entry keeps every key traced to a visited Node |
| Legacy.PairEntry | src/db.ts:48-50 | the entry set for one property: path `[type, id, pred]`, the Node object itself for a Node value, otherwise `obj?.toString()` |
| Legacy.PropReachable | src/db.ts:44-54 | the Nodes reachable from `n` through properties that hold Nodes; `PairsOf` proves it is exactly what `collectPairs(n)` visits |
| Legacy.PairCollector.constructor | src/db.ts:44 | begins with an empty Map and an empty Set |
| Legacy.PairCollector.Values | src/db.ts:121 | `values()` lists the Map's values in insertion order |
| Legacy.PairCollector.CollectPairs | src/db.ts:44-54 | returns the collection exactly when the Node is new; a visited Node changes nothing; the Nodes visited afresh are exactly those `sub` reaches outside the old Set; every newly visited Node has all its properties set and the Nodes it holds visited |
| Legacy.PairCollector.Set | src/db.ts:50 | `collection.set` overwrites the key's value and appends the key only if it is new |
| Legacy.PairCollector.CollectProp | src/db.ts:47-52 | the property's entry is set, and a Node value is visited and walked |
| Legacy.PairCollector.SetPair | src/db.ts:48-50 | the property's entry key is in the Map, and the Set is unchanged |
| Legacy.HeldNodeInHeap | src/db.ts:51 | in a heap without dangling references, a Node held by a property is in the heap |
| Legacy.WalkedCovers | src/db.ts:44-54 | fully walked Nodes have every property's key among the values, and the Nodes they hold are walked |
| Legacy.PairValues | src/db.ts:121 | the value list has every Map key, and each value was set by a visited Node |
| Legacy.PairsOf | src/db.ts:121 | the visited Nodes are exactly those reachable from `n`; one entry per property of each of them, each set by a visited Node, no key twice |
| Legacy.CollectedPairs | src/db.ts:121 | the values of a finished walk from scratch cover every property of each visited Node, were each set by a visited Node, and have no key twice |
| Legacy.PairShape | src/db.ts:47-50 | every path is exactly `[type, id, pred]` with `pred` never `id` or `type`, for a field of a visited Node |
| Legacy.PairRefsVisited | src/db.ts:48-51 | a Node stored as a value is itself visited |
| Legacy.PairsFlattenedFrom | src/db.ts:121 | what `[...collectPairs(n).values()]` holds: entries set by Nodes that `n` reaches, covering every property of each, no key twice |
| Legacy.FlattenAll | src/db.ts:121 | the entries are the concatenation of one block per argument; each block comes from the Nodes its argument reaches, covers them and has no key twice; the Nodes reached are exactly those some argument reaches |
| Legacy.FlattenNext | src/db.ts:121 | the block of one more argument joins the earlier blocks, and the Nodes reached grow by what it reaches |
| Legacy.JoinReached | src/db.ts:121 | the union of closed visited sets is closed |
| Legacy.JoinCover | src/db.ts:121 | the union of visited sets is covered by the concatenated entries |
| Legacy.JoinFrom | src/db.ts:121 | concatenated entries come from the union of visited sets |
| Legacy.NewNode | src/db.ts:80 | the literal `{ type, id }` from the first two segments of a path, `undefined` past the end |
| Legacy.PropKey | src/db.ts:78-81 | the property `nodes[key][prop]` writes: `path[2]` as a key, `"undefined"` past the end |
| Legacy.FlatKeyOrder | src/db.ts:77-83 | the node keys in `Object.values` order: each subject key, the first time it is seen |
| Legacy.FlatNodes | src/db.ts:76-82 | the `nodes` record after every entry, in order: the node created if absent, then `path[2]` set to the value |
| Legacy.NodeObjects | src/db.ts:83 | `Object.values(nodes)` lists each node in first-seen key order |
| Legacy.FlatKeysAgree | src/db.ts:76-83 | the value order lists exactly the node keys, each once |
| Legacy.FlatNodeKeys | src/db.ts:77-80 | there is one node per distinct `type:id` among the entries' subjects |
| Legacy.FlatLastWrite | src/db.ts:81 | the last entry for a node and property decides that property's value |
| Legacy.FlatFirstFields | src/db.ts:78-80 | a node's `type` and `id` come from its first entry unless an entry writes them |
| Legacy.FlatNodeProps | src/db.ts:78-81 | a node holds `type`, `id` and the properties its entries write, nothing else |
| Legacy.FlatStep | src/db.ts:77-82 | one entry creates its node if absent and sets `path[2]` |
| Legacy.AddFlat | src/db.ts:78-81 | one iteration registers the subject key and sets `node[path[2]] = value` |
| Legacy.EntriesToNodes | src/db.ts:75-84 | returns the node objects of the entries in `Object.values` order |
| Legacy.FirstPushMisfiled | src/db.ts:119-124 | after two pushes in one run, the first push's server writes carry batch `c + 2`, not the `c + 1` its own increment made |
| Legacy.Db.constructor | src/db.ts:86-87 | the counter starts at 0, with nothing published and nothing delivered |
| Legacy.Db.Push | src/db.ts:118-123 | increments the counter once; the entries are the concatenated per-argument blocks of `FlattenAll`; the accepted entries are written locally; the server is not written yet |
| Legacy.Db.StartJobs | src/db.ts:122-123 | the local store takes the accepted local writes in order |
| Legacy.Db.StartJob | src/db.ts:123 | one job's local write |
| Legacy.Db.Resume | src/db.ts:122-127 | the outcomes, server writes and messages use the counter as it is when the jobs resume |
| Legacy.Db.ResumeNext | src/db.ts:124-126 | job `k` advances the outcomes and server from the first `k` entries to the first `k + 1` |
| Legacy.Db.Job | src/db.ts:124-126 | one job's server write and publish, under the current counter |
| Legacy.Db.PushAlone | src/db.ts:118-127 | a push that resumes before any other files its entries under the incremented counter |
| Legacy.Db.PushPair | src/db.ts:118-127 | two pushes in one run raise the counter by 2, and both file their server writes under the final counter |
| Legacy.Db.Deliver | src/db.ts:96 | `onNode` receives the nodes of the results, when present |
| Legacy.Results | src/db.ts:90 | what `await extractChunks(await config.server.list())` resolves to: `ExtractSpec` of the full listing, with `None` for `undefined` |
| Legacy.Delivered | src/db.ts:96 | the node objects one `entriesToNodes(rs).forEach(n => config.onNode?.(n))` hands out, one per `onNode` call, none without `onNode` |
| Legacy.Db.ResetLocal | src/db.ts:88-97 | a no-op without `clear`, `set` or `list`; it completes exactly when the listing ends in a `done` page; otherwise local is left cleared; on completion, local is exactly the results, the counter their `Math.max`, and the nodes are delivered |
| Legacy.Db.Rebuild | src/db.ts:91-95 | the cleared store is refilled with the results, and the counter raised to their batch numbers |
| Legacy.Db.SyncLocal | src/db.ts:106-108 | the store takes every result under `path.slice(1)` |
| Legacy.Db.GetBatch | src/db.ts:104-110 | completes exactly when the listing ends in a `done` page, then writes the results locally and delivers their nodes |
| Legacy.Db.Pull | src/db.ts:98-117 | a no-op without `list` or `set`; the resync starts exactly when `probe(currentBatchNumber)` is false, that is, when the first page listed under the current batch is not both `done` and empty; it completes exactly when the listing ends in a `done` page, and otherwise nothing changes; on completion the counter rises by exactly the rounds the probes allow, local ends as after one sync, and `onNode` receives the nodes once per `getBatch` |
| Legacy.Db.NextBatch | src/db.ts:114-115 | `currentBatchNumber++; await getBatch()` raises the counter by one, leaves local as it was, and delivers the same nodes once more |
| Legacy.Db.Round | src/db.ts:113-115 | one loop iteration advances the counter and the remaining rounds by one |
| Legacy.Db.Drain | src/db.ts:113-116 | the loop runs exactly the rounds the probes allow, raises the counter by that many, leaves local as it was, and delivers the nodes once per round |

## Left out

- `makeType` and its zod schema are left out. `isNode` is modelled as "the value is a heap reference": every object with `type` and `id` is a heap Node, and an inline object is never one.
- `hextime`/`getBatchHash` are left out because they read the clock and the random generator. The write hash is a parameter of `push`.
- `Promise.allSettled`, `async`/`await` and any interleaving of jobs are not modelled. The jobs of index.ts run one after another. In src/db.ts, `push` starts every job's local write and the rest of the jobs resume later (`Resume`); only the interleaving in which a second push runs in between (`PushPair`) is modelled.
- The un-awaited `resetLocal()` inside `pull` is a separate step. `Pull` reports, in `resync`, whether it is started.
- `subscribe`/`publish` are transport and are not modelled. Published messages are a sequence field, and the `newbatch` subscription that calls `pull` is not modelled.
- Replicator.Db.SyncLocal, Replicator.Db.Rebuild, Legacy.Db.SyncLocal and Legacy.Db.Rebuild: every local write lands. Failing local writes are modelled on the `push` path only. In `resetLocal` and `getBatch` the `set` is not awaited inside `results.forEach`: a rejected promise would leave that path unwritten while the loop goes on, and a synchronous throw would abort the remaining writes, the remaining counter updates and `entriesToNodes`, and reject the call. Neither is modelled.
- Materialize.ObjectStore, Materialize.NodeObject and Legacy.FlatNode: the properties of an object are a map, so the order in which `Object.keys` would enumerate them is not kept. In JavaScript a rebuilt object lists its array-index keys first, in ascending order, and then its other keys in first-write order, so `type` and `id` come before every other non-index property of a node; `onNode` receives the nodes so. Only the order of the nodes themselves (`NodeKeyOrder`, `FlatKeyOrder`) is modelled.
- The store implementations are external collaborators. A store is a map from paths to values. A rejected `set` is a path that belongs to a given set of failing paths. In `push`, a `set` that throws synchronously rejects its job like a rejected promise, since the job is an `async` function.
- Only digit strings are modelled as `Number(s)`. Every other string gives `NaN`, whereas JavaScript also accepts `" 12 "`, `"1e3"` or `"0x10"`.
- String `<` compares characters, not UTF-16 code units. The characters of `NodeRecord` texts are the JavaScript strings as given.
- Inherited prototype keys (`"constructor"`, `"toString"`, ...) are not modelled. They would count as present for `in` and `??=` in `setDeep` and `entriesToNodes`, and for `!cannonicals[key]` in `extractChunks` (index.ts:106, src/db.ts:57), where such a key would read as already recorded. That last case never arises for the server paths `push` writes: those have at least five segments, so their key `path.slice(1).join('/')` contains '/' and is no prototype key.
- `null` and `undefined` are one value, `Undef`. Their only difference here is the text of `toString`, which both lack.
- Heaps are assumed well formed where a contract needs it: `Closed` (no dangling references) and, for the shape lemmas, `HeapOk` (string `type`/`id`, no repeated keys). The schema layer guarantees both.
- `pull`'s loop has no termination measure, so it runs with a `fuel` bound. A pull that the source would keep looping is cut off after `fuel` rounds.
- The compiled `dist/` files and the `.d.ts` declarations repeat `src/db.ts` and are not modelled separately.
- `Replicator.Db.notified` keeps one element per `entriesToNodes` pass, holding that pass's Node objects; the single `onNode` calls within a pass are not separate events there. `Legacy.Db.notified` keeps one element per `onNode` call, in order.
- Replicator.Db.Drain and Legacy.Db.Drain: every `getBatch` in the loop lists the same history as the first one, so it returns whenever the first one did; the loop therefore does not look at the later calls' `completed`.
- Materialize.ObjectStore.EntriesToNodes: its result is tied to the reference run `Run`, and `AddEntry` states what each entry writes. No lemma states, for the whole run, which value each node ends with at each path, where a later entry may overwrite an earlier one's path.
- AddEntry: the read-back at the entry's path is stated only when the object path repeats no key. `SetDeep` and `SetUnder` state it for every walk that does not replace a link it went through, but `AddEntry` does not carry that condition across the one or two `??=` allocations before its `setDeep`.
- AddRef: the read-back of the target link is stated only when the object path repeats no key, for the same reason as `AddEntry`.
- Numbers are modelled as unbounded naturals or `NaN` (`Js.Num`), not as IEEE doubles. Above 2^53, `currentBatchNumber++` stops changing the value, and from 1e21 on `String(n)` gives exponent notation such as `"1e+21"` rather than digits. `resetLocal`'s `Math.max(currentBatchNumber, Number(res.path[0]))` can bring such a value in from server data. `Js.Inc`, `Js.NatToString` and the round trips built on them hold only below those bounds in JavaScript.

## Findings

| source | as written | input that shows it | evidently intended | confidence | as-written member | corrected member |
|---|---|---|---|---|---|---|
| src/db.ts:119-124 | `push` increments the counter, awaits the local write, and then reads `currentBatchNumber` again for the server path | two `push` calls in the same synchronous run, from counter `c` | each push files its entries under the batch it reserved when it was called, reading the counter once, as index.ts:187 does (there, the batches `c` and `c + 1`) | not executed | Legacy.FirstPushMisfiled | Replicator.Db.Push |
