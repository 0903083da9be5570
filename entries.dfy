/**
 * Facts as the stores and the listings carry them: a path of string segments with a
 * payload, and the paginated listing a store's `list` returns.
 */
module Entries {
  import opened Js

  /** `Entry`: a path and what is stored under it. */
  datatype Entry<V> = Entry(path: seq<string>, value: V)

  /** The payload of the current version: `value` (a string or undefined) and `ref`,
      whether `value` names a referenced Node as "type:id". */
  datatype Fact = Fact(text: JsString, isRef: bool)

  /** The key of an entry in the flattener's Map: `path.join('/')`. */
  function PathKey(path: seq<string>): string
  {
    Join(path)
  }

  /** `ListChunk`; `next` is present on every page but the last of a listing. */
  datatype Page<V> = Page(done: bool, chunk: seq<Entry<V>>)

  /** What one call of `list` yields: its first page and every page `next` leads to. */
  type Listing<V> = pages: seq<Page<V>> | |pages| > 0 witness [Page(true, [])]

  /** Whether page `i` of a listing has a `next` continuation. */
  predicate HasNext<V>(pages: seq<Page<V>>, i: nat)
  {
    i + 1 < |pages|
  }

  /** The entries of several blocks, block after block: what `flatMap` returns. */
  function Concat<V>(blocks: seq<seq<Entry<V>>>): seq<Entry<V>>
  {
    if |blocks| == 0 then [] else Concat(blocks[..|blocks| - 1]) + blocks[|blocks| - 1]
  }
}
