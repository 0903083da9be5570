/**
 * The older, flat-path version of the library (src/db.ts). `collectPairs` emits one
 * entry per property of a Node, under `[type, id, pred]`, holding the Node object
 * itself or the `toString()` text of anything else; `entriesToNodes` sets
 * `node[path[2]] = value`; `extractChunks` is the listing walk of `Canon.Extract`,
 * whose `None` is this version's `undefined`; and `db` keeps the same batch counter,
 * except that `push` reads the counter again when it writes to the server.
 */
module Legacy {
  import opened Js
  import opened Graph
  import opened Entries
  import Canon
  import Flatten
  import Materialize
  import Replicator

  /** A value as this version stores it (there is no `ref` flag): a Node object
      itself, or the `obj?.toString()` text of anything else. */
  datatype LVal = NodeObj(ref: Ref) | Text(text: JsString)

  // ---------------------------------------------------------------------------
  // collectPairs
  // ---------------------------------------------------------------------------

  /** The entry `collectPairs` sets for property `prop` of Node `r`. */
  function PairEntry(heap: Heap, r: Ref, prop: Field): Entry<LVal>
    requires r in heap
  {
    Entry([TypeOf(heap[r]), IdOf(heap[r]), prop.key],
          if IsNode(prop.val) then NodeObj(prop.val.ref) else Text(ToStr(prop.val)))
  }

  /** A property of a Node, what an entry of `collectPairs` comes from. */
  datatype PairOrigin = PairOrigin(node: Ref, prop: Field)

  /** `e` is the entry set for property `o.prop` of Node `o.node`. */
  ghost predicate PairBy(heap: Heap, o: PairOrigin, e: Entry<LVal>)
  {
    o.node in heap && o.prop in GetProps(heap[o.node]) && e == PairEntry(heap, o.node, o.prop)
  }

  /** `e` is one of the entries that visiting some Node of `nodes` sets. */
  ghost predicate PairFrom(heap: Heap, nodes: set<Ref>, e: Entry<LVal>)
  {
    exists o: PairOrigin :: o.node in nodes && PairBy(heap, o, e)
  }

  /** `source` gives every key of `collection` an origin among the `visited` Nodes. */
  ghost predicate PairsSourced(heap: Heap, visited: set<Ref>, collection: map<string, Entry<LVal>>,
                               source: map<string, PairOrigin>)
  {
    && source.Keys == collection.Keys
    && forall k :: k in collection ==> source[k].node in visited && PairBy(heap, source[k], collection[k])
  }

  lemma PairsSourcedSet(heap: Heap, visited: set<Ref>, collection: map<string, Entry<LVal>>,
                        source: map<string, PairOrigin>, key: string, e: Entry<LVal>, o: PairOrigin)
    requires PairsSourced(heap, visited, collection, source)
    requires o.node in visited && PairBy(heap, o, e)
    ensures PairsSourced(heap, visited, collection[key := e], source[key := o])
  {
    var c, s := collection[key := e], source[key := o];
    forall k | k in c
      ensures s[k].node in visited && PairBy(heap, s[k], c[k])
    {
      if k != key {
        assert s[k] == source[k] && c[k] == collection[k];
      }
    }
  }

  /** Property `prop` of Node `r` has been handled: its entry's key is in `collection`
      and, when it holds a Node, that Node is in `visited`. */
  ghost predicate PairDone(heap: Heap, r: Ref, prop: Field, visited: set<Ref>, collection: map<string, Entry<LVal>>)
    requires r in heap
  {
    && PathKey(PairEntry(heap, r, prop).path) in collection
    && (IsNode(prop.val) ==> prop.val.ref in visited)
  }

  /** The first `n` properties of Node `r` have been handled. */
  ghost predicate PairsDone(heap: Heap, r: Ref, n: nat, visited: set<Ref>, collection: map<string, Entry<LVal>>)
    requires r in heap
  {
    var props := GetProps(heap[r]);
    n <= |props| && forall i :: 0 <= i < n ==> PairDone(heap, r, props[i], visited, collection)
  }

  /** Every Node of `nodes` has all its properties handled. */
  ghost predicate AllWalked(heap: Heap, nodes: set<Ref>, visited: set<Ref>, collection: map<string, Entry<LVal>>)
    requires nodes <= heap.Keys
  {
    forall r :: r in nodes ==> PairsDone(heap, r, |GetProps(heap[r])|, visited, collection)
  }

  lemma PairsDoneStep(heap: Heap, r: Ref, n: nat, v: set<Ref>, c: map<string, Entry<LVal>>,
                      v': set<Ref>, c': map<string, Entry<LVal>>)
    requires r in heap && v <= v' && c.Keys <= c'.Keys && n < |GetProps(heap[r])|
    requires PairsDone(heap, r, n, v, c) && PairDone(heap, r, GetProps(heap[r])[n], v', c')
    ensures PairsDone(heap, r, n + 1, v', c')
  {
  }

  lemma AllWalkedGrows(heap: Heap, nodes: set<Ref>, v: set<Ref>, c: map<string, Entry<LVal>>,
                       v': set<Ref>, c': map<string, Entry<LVal>>)
    requires nodes <= heap.Keys && v <= v' && c.Keys <= c'.Keys
    requires AllWalked(heap, nodes, v, c)
    ensures AllWalked(heap, nodes, v', c')
  {
    forall r | r in nodes
      ensures PairsDone(heap, r, |GetProps(heap[r])|, v', c')
    {
      var props := GetProps(heap[r]);
      assert forall i :: 0 <= i < |props| ==> PairDone(heap, r, props[i], v, c);
    }
  }

  /** What a walk adds beyond `a + {s}`, and `s` itself, is what it adds beyond `a`. */
  lemma AddBack(a: set<Ref>, s: Ref, c: set<Ref>)
    requires s !in a && a + {s} <= c
    ensures c - (a + {s}) + {s} == c - a
  {
  }

  lemma AllWalkedUnion(heap: Heap, a: set<Ref>, b: set<Ref>, v: set<Ref>, c: map<string, Entry<LVal>>)
    requires a <= heap.Keys && b <= heap.Keys
    requires AllWalked(heap, a, v, c) && AllWalked(heap, b, v, c)
    ensures AllWalked(heap, a + b, v, c)
  {
  }

  /** Node `b` is the value of a property of Node `r`, where `collectPairs` recurses. */
  ghost predicate Holds(heap: Heap, r: Ref, b: Ref)
    requires r in heap
  {
    exists prop :: prop in GetProps(heap[r]) && prop.val == NodeVal(b)
  }

  /** The links this version's `collectPairs` follows. */
  ghost function PropLinks(heap: Heap): LinkMap
  {
    map r | r in heap.Keys :: set b | b in heap.Keys && Holds(heap, r, b)
  }

  /** The Nodes reachable from `n` through properties that hold Nodes. */
  ghost function PropReachable(heap: Heap, n: Ref): set<Ref>
  {
    Reach(PropLinks(heap), n, {})
  }

  /** A Node that `sub` holds reaches, outside what a later cache holds, only Nodes
      that `sub` reaches outside what an earlier one held. */
  lemma HeldReach(heap: Heap, sub: Ref, prop: Field, avoid: set<Ref>, cache: set<Ref>)
    requires Closed(heap) && sub in heap && prop in GetProps(heap[sub]) && IsNode(prop.val)
    requires sub !in avoid && avoid <= cache
    ensures prop.val.ref in heap
    ensures Reach(PropLinks(heap), prop.val.ref, cache) <= Reach(PropLinks(heap), sub, avoid)
  {
    HeldNodeInHeap(heap, sub, prop);
    assert Holds(heap, sub, prop.val.ref);
    ReachMono(PropLinks(heap), prop.val.ref, avoid, cache);
    ReachStep(PropLinks(heap), sub, prop.val.ref, avoid);
  }

  /** The Nodes a walk visits afresh, each fully walked, hold what their start reaches
      outside the Nodes visited before. */
  lemma WalkedReach(heap: Heap, sub: Ref, before: set<Ref>, cache: set<Ref>, collection: map<string, Entry<LVal>>)
    requires before <= cache <= heap.Keys && sub in cache && sub !in before
    requires AllWalked(heap, cache - before, cache, collection)
    ensures Reach(PropLinks(heap), sub, before) <= cache
  {
    var links := PropLinks(heap);
    forall r, b | r in cache - before && r in links && b in links[r] && b !in before
      ensures b in cache - before
    {
      var props := GetProps(heap[r]);
      var prop :| prop in props && prop.val == NodeVal(b);
      var i :| 0 <= i < |props| && props[i] == prop;
      assert PairDone(heap, r, props[i], cache, collection);
    }
    ReachWithin(links, sub, before, cache - before);
  }

  /**
   * The `collection` Map (with its insertion order, which `values()` follows) and the
   * `cache` Set that `collectPairs` threads through its recursive calls.
   */
  class PairCollector {
    const heap: Heap
    var order: seq<string>
    var collection: map<string, Entry<LVal>>
    var cache: set<Ref>
    /** Which Node and property set each key's current value. */
    ghost var source: map<string, PairOrigin>

    ghost predicate Valid()
      reads this
    {
      MapOk() && PairsSourced(heap, cache, collection, source)
    }

    /** `order` lists the keys of `collection` once each, and every entry sits under
        its own path's key. */
    ghost predicate MapOk()
      reads this
    {
      && Closed(heap)
      && cache <= heap.Keys
      && (forall i, j :: 0 <= i < j < |order| ==> order[i] != order[j])
      && (forall i :: 0 <= i < |order| ==> order[i] in collection)
      && (forall k :: k in collection ==> k in order)
      && (forall k :: k in collection ==> PathKey(collection[k].path) == k)
    }

    /** The default arguments: a new Map and a new Set. */
    constructor (heap: Heap)
      requires Closed(heap)
      ensures Valid() && this.heap == heap
      ensures order == [] && collection == map[] && cache == {}
    {
      this.heap := heap;
      order := [];
      collection := map[];
      cache := {};
      source := map[];
    }

    /** `[...collection.values()]`. */
    function Values(): (vs: seq<Entry<LVal>>)
      reads this
      requires MapOk()
      ensures |vs| == |order|
      ensures forall i :: 0 <= i < |order| ==> vs[i] == collection[order[i]]
    {
      var c, o := collection, order;
      seq(|o|, i requires 0 <= i < |o| && o[i] in c => c[o[i]])
    }

    /** `collectPairs(sub, collection, cache)`; `returned` is false where the source
        returns undefined, for a Node already in the cache. */
    method CollectPairs(sub: Ref) returns (returned: bool)
      requires Valid() && sub in heap
      modifies this
      decreases heap.Keys - cache, 1
      ensures Valid()
      ensures returned == (sub !in old(cache))
      ensures !returned ==> cache == old(cache) && collection == old(collection) && order == old(order)
      ensures old(cache) + {sub} <= cache
      ensures old(order) <= order && old(collection).Keys <= collection.Keys
      // every newly visited Node is fully walked, and the Nodes it holds are visited
      ensures AllWalked(heap, cache - old(cache), cache, collection)
      // the Nodes visited afresh are exactly those `sub` reaches outside the old cache
      ensures cache == old(cache) + Reach(PropLinks(heap), sub, old(cache))
    {
      ghost var reach := Reach(PropLinks(heap), sub, cache);
      ReachAvoids(PropLinks(heap), sub, cache);
      if sub in cache {
        return false;
      }
      ReachSelf(PropLinks(heap), sub, cache);
      ghost var cache0 := cache;
      ghost var bound := heap.Keys - cache;
      cache := cache + {sub};
      ghost var base := cache;
      var props := GetProps(heap[sub]);
      var i := 0;
      while i < |props|
        invariant 0 <= i <= |props|
        invariant Valid()
        invariant base <= cache
        invariant old(order) <= order && old(collection).Keys <= collection.Keys
        invariant AllWalked(heap, cache - base, cache, collection)
        invariant PairsDone(heap, sub, i, cache, collection)
        invariant cache <= cache0 + reach
      {
        ghost var cache1, collection1 := cache, collection;
        CollectProp(sub, i, bound, cache0);
        AllWalkedGrows(heap, cache1 - base, cache1, collection1, cache, collection);
        AllWalkedUnion(heap, cache1 - base, cache - cache1, cache, collection);
        Flatten.UnionOfSteps(base, cache1, cache);
        PairsDoneStep(heap, sub, i, cache1, collection1, cache, collection);
        i := i + 1;
      }
      AllWalkedUnion(heap, cache - base, {sub}, cache, collection);
      AddBack(cache0, sub, cache);
      WalkedReach(heap, sub, cache0, cache, collection);
      return true;
    }

    /** `collection.set(path.join('/'), entry)`: a new key goes last, an old one keeps its
        place; `setter` is where the entry comes from. */
    method Set(e: Entry<LVal>, ghost setter: PairOrigin)
      requires MapOk()
      modifies this
      ensures MapOk()
      ensures collection == old(collection)[PathKey(e.path) := e]
      ensures order == if PathKey(e.path) in old(collection) then old(order) else old(order) + [PathKey(e.path)]
      ensures source == old(source)[PathKey(e.path) := setter]
      ensures cache == old(cache) && old(order) <= order
    {
      var key := PathKey(e.path);
      if key !in collection {
        order := order + [key];
      }
      collection := collection[key := e];
      source := source[key := setter];
    }

    /** The callback `getProps(sub).forEach` runs for property `i` of `sub`: set its
        entry, then, when it holds a Node, recurse into that Node. */
    method CollectProp(sub: Ref, i: nat, ghost bound: set<Ref>, ghost avoid: set<Ref>)
      requires Valid() && sub in cache && i < |GetProps(heap[sub])|
      requires heap.Keys - cache < bound && avoid <= cache && sub !in avoid
      modifies this
      decreases bound, 0
      ensures Valid() && old(cache) <= cache
      ensures old(order) <= order && old(collection).Keys <= collection.Keys
      ensures AllWalked(heap, cache - old(cache), cache, collection)
      ensures PairDone(heap, sub, GetProps(heap[sub])[i], cache, collection)
      ensures cache <= old(cache) + Reach(PropLinks(heap), sub, avoid)
    {
      var prop := GetProps(heap[sub])[i];
      SetPair(sub, prop);
      if IsNode(prop.val) {
        HeldReach(heap, sub, prop, avoid, cache);
        ghost var cache1 := cache;
        var _ := CollectPairs(prop.val.ref);
        assert cache - old(cache) == cache - cache1;
      }
    }

    /** The `collection.set(...)` of the callback for property `prop` of `sub`. */
    method SetPair(sub: Ref, prop: Field)
      requires Valid() && sub in cache && prop in GetProps(heap[sub])
      modifies this
      ensures Valid() && cache == old(cache)
      ensures old(order) <= order && old(collection).Keys <= collection.Keys
      ensures PathKey(PairEntry(heap, sub, prop).path) in collection
    {
      var e := PairEntry(heap, sub, prop);
      PairsSourcedSet(heap, cache, collection, source, PathKey(e.path), e, PairOrigin(sub, prop));
      Set(e, PairOrigin(sub, prop));
    }
  }

  /** A Node that a property holds is in the heap. */
  lemma HeldNodeInHeap(heap: Heap, r: Ref, prop: Field)
    requires Closed(heap) && r in heap && prop in GetProps(heap[r]) && IsNode(prop.val)
    ensures prop.val.ref in heap
  {
    assert prop in heap[r].entries;
    var k :| 0 <= k < |heap[r].entries| && heap[r].entries[k] == prop;
    assert RefsIn(heap[r].entries[k].val, heap.Keys);
  }

  /** Every Node a Node of `visited` holds in a property is in `visited`. */
  ghost predicate Reached(heap: Heap, visited: set<Ref>)
  {
    forall r, prop :: r in visited && r in heap && prop in GetProps(heap[r]) && IsNode(prop.val) ==>
      prop.val.ref in visited
  }

  /** Every property of every Node of `visited` has its entry's key among `vs`. */
  ghost predicate PairsCover(heap: Heap, visited: set<Ref>, vs: seq<Entry<LVal>>)
  {
    forall r, prop :: r in visited && r in heap && prop in GetProps(heap[r]) ==>
      exists j :: 0 <= j < |vs| && PathKey(vs[j].path) == PathKey(PairEntry(heap, r, prop).path)
  }

  lemma WalkedCovers(heap: Heap, visited: set<Ref>, collection: map<string, Entry<LVal>>, vs: seq<Entry<LVal>>)
    requires visited <= heap.Keys && AllWalked(heap, visited, visited, collection)
    requires forall k :: k in collection ==> exists i :: 0 <= i < |vs| && PathKey(vs[i].path) == k
    ensures Reached(heap, visited) && PairsCover(heap, visited, vs)
  {
    forall r, prop | r in visited && r in heap && prop in GetProps(heap[r])
      ensures PairDone(heap, r, prop, visited, collection)
    {
      var props := GetProps(heap[r]);
      var j :| 0 <= j < |props| && props[j] == prop;
    }
  }

  lemma PairValues(heap: Heap, visited: set<Ref>, order: seq<string>, collection: map<string, Entry<LVal>>,
                   source: map<string, PairOrigin>, vs: seq<Entry<LVal>>)
    requires PairsSourced(heap, visited, collection, source)
    requires forall k :: k in collection ==> k in order && PathKey(collection[k].path) == k
    requires |vs| == |order| && forall i :: 0 <= i < |order| ==> order[i] in collection && vs[i] == collection[order[i]]
    ensures forall k :: k in collection ==> exists i :: 0 <= i < |vs| && PathKey(vs[i].path) == k
    ensures forall i :: 0 <= i < |vs| ==> PairFrom(heap, visited, vs[i])
  {
    forall i | 0 <= i < |vs|
      ensures PairFrom(heap, visited, vs[i])
    {
      var o := source[order[i]];
      assert o.node in visited && PairBy(heap, o, vs[i]);
    }
    forall k | k in collection
      ensures exists i :: 0 <= i < |vs| && PathKey(vs[i].path) == k
    {
      var i :| 0 <= i < |order| && order[i] == k;
      assert vs[i] == collection[k];
    }
  }

  /**
   * `[...collectPairs(n).values()]` with fresh default arguments: one entry per
   * property key of every Node reachable from `n`, each set by a visited Node, no key
   * twice. `visited` is the final `cache`.
   */
  method PairsOf(heap: Heap, n: Ref) returns (vs: seq<Entry<LVal>>, ghost visited: set<Ref>)
    requires Closed(heap) && n in heap
    ensures n in visited && visited <= heap.Keys
    ensures visited == PropReachable(heap, n)
    ensures Reached(heap, visited)
    ensures PairsCover(heap, visited, vs)
    ensures forall i :: 0 <= i < |vs| ==> PairFrom(heap, visited, vs[i])
    ensures forall i, j :: 0 <= i < j < |vs| ==> PathKey(vs[i].path) != PathKey(vs[j].path)
  {
    var c := new PairCollector(heap);
    var _ := c.CollectPairs(n);
    vs, visited := c.Values(), c.cache;
    assert visited - {} == visited && {} + visited == visited;
    CollectedPairs(heap, n, visited, c.order, c.collection, c.source, vs);
  }

  /** What the final Map and Set of a walk from scratch say about its values. */
  lemma CollectedPairs(heap: Heap, n: Ref, visited: set<Ref>, order: seq<string>, collection: map<string, Entry<LVal>>,
                       source: map<string, PairOrigin>, vs: seq<Entry<LVal>>)
    requires visited <= heap.Keys && PairsSourced(heap, visited, collection, source)
    requires forall i, j :: 0 <= i < j < |order| ==> order[i] != order[j]
    requires forall k :: k in collection ==> k in order && PathKey(collection[k].path) == k
    requires |vs| == |order| && forall i :: 0 <= i < |order| ==> order[i] in collection && vs[i] == collection[order[i]]
    requires AllWalked(heap, visited, visited, collection)
    ensures Reached(heap, visited) && PairsCover(heap, visited, vs)
    ensures forall i :: 0 <= i < |vs| ==> PairFrom(heap, visited, vs[i])
    ensures forall i, j :: 0 <= i < j < |vs| ==> PathKey(vs[i].path) != PathKey(vs[j].path)
  {
    PairValues(heap, visited, order, collection, source, vs);
    WalkedCovers(heap, visited, collection, vs);
  }

  /** What `collectPairs` emits has path exactly `[type, id, pred]`, with `pred` the
      key of a property of the Node that is neither `id` nor `type`, and holds that
      property's Node itself, or else its `toString()` text. */
  lemma PairShape(heap: Heap, visited: set<Ref>, e: Entry<LVal>)
    requires PairFrom(heap, visited, e)
    ensures |e.path| == 3 && e.path[2] != "id" && e.path[2] != "type"
    ensures exists r, f :: r in visited && r in heap && f in heap[r].entries && FieldPair(heap, r, f, e)
  {
    var o: PairOrigin :| o.node in visited && PairBy(heap, o, e);
    assert o.prop in heap[o.node].entries;
    assert FieldPair(heap, o.node, o.prop, e);
  }

  /** Entry `e` is the flat entry of field `f` of Node `r`. */
  ghost predicate FieldPair(heap: Heap, r: Ref, f: Field, e: Entry<LVal>)
    requires r in heap
  {
    && e.path == [TypeOf(heap[r]), IdOf(heap[r]), f.key]
    && (e.value.NodeObj? <==> f.val.NodeVal?)
    && (e.value.NodeObj? ==> e.value.ref == f.val.ref)
    && (e.value.Text? ==> e.value.text == ToStr(f.val))
  }

  /** A Node stored as a value is one whose own entries were collected too. */
  lemma PairRefsVisited(heap: Heap, visited: set<Ref>, e: Entry<LVal>)
    requires Reached(heap, visited) && PairFrom(heap, visited, e) && e.value.NodeObj?
    ensures e.value.ref in visited
  {
    var o: PairOrigin :| o.node in visited && PairBy(heap, o, e);
  }

  /** `block` is what `[...collectPairs(n).values()]` yields: entries set by Nodes `n`
      reaches, covering every property of each of those Nodes, no key twice. */
  ghost predicate PairsFlattenedFrom(heap: Heap, n: Ref, block: seq<Entry<LVal>>)
  {
    && (forall i :: 0 <= i < |block| ==> PairFrom(heap, PropReachable(heap, n), block[i]))
    && PairsCover(heap, PropReachable(heap, n), block)
    && (forall i, j :: 0 <= i < j < |block| ==> PathKey(block[i].path) != PathKey(block[j].path))
  }

  /** Every Node some Node of `nodes` reaches. */
  ghost function ReachedFrom(heap: Heap, nodes: seq<Ref>): set<Ref>
  {
    if |nodes| == 0 then {} else ReachedFrom(heap, nodes[..|nodes| - 1]) + PropReachable(heap, nodes[|nodes| - 1])
  }

  /** `nodes.flatMap(n => [...collectPairs(n).values()])`; `reached` is the union of the
      caches of the separate calls, and `blocks` holds their separate results. */
  method FlattenAll(heap: Heap, nodes: seq<Ref>)
    returns (entries: seq<Entry<LVal>>, ghost reached: set<Ref>, ghost blocks: seq<seq<Entry<LVal>>>)
    requires Closed(heap) && forall i :: 0 <= i < |nodes| ==> nodes[i] in heap
    ensures reached <= heap.Keys && forall i :: 0 <= i < |nodes| ==> nodes[i] in reached
    ensures Reached(heap, reached) && PairsCover(heap, reached, entries)
    ensures forall i :: 0 <= i < |entries| ==> PairFrom(heap, reached, entries[i])
    ensures reached == ReachedFrom(heap, nodes)
    ensures |blocks| == |nodes| && entries == Concat(blocks)
    ensures forall i :: 0 <= i < |nodes| ==> PairsFlattenedFrom(heap, nodes[i], blocks[i])
  {
    entries, reached, blocks := [], {}, [];
    var i := 0;
    while i < |nodes|
      invariant 0 <= i <= |nodes|
      invariant reached <= heap.Keys && forall j :: 0 <= j < i ==> nodes[j] in reached
      invariant Reached(heap, reached) && PairsCover(heap, reached, entries)
      invariant forall j :: 0 <= j < |entries| ==> PairFrom(heap, reached, entries[j])
      invariant reached == ReachedFrom(heap, nodes[..i])
      invariant |blocks| == i && entries == Concat(blocks)
      invariant forall j :: 0 <= j < i ==> PairsFlattenedFrom(heap, nodes[j], blocks[j])
    {
      entries, reached, blocks := FlattenNext(heap, nodes, i, entries, reached, blocks);
      i := i + 1;
    }
    assert nodes[..i] == nodes;
  }

  /** One step of the `flatMap`: the block of argument `i` joins the earlier ones. */
  method FlattenNext(heap: Heap, nodes: seq<Ref>, i: nat, entries: seq<Entry<LVal>>, ghost reached: set<Ref>,
                     ghost blocks: seq<seq<Entry<LVal>>>)
    returns (entries': seq<Entry<LVal>>, ghost reached': set<Ref>, ghost blocks': seq<seq<Entry<LVal>>>)
    requires Closed(heap) && i < |nodes| && nodes[i] in heap
    requires reached <= heap.Keys && forall j :: 0 <= j < i ==> nodes[j] in reached
    requires Reached(heap, reached) && PairsCover(heap, reached, entries)
    requires forall j :: 0 <= j < |entries| ==> PairFrom(heap, reached, entries[j])
    requires reached == ReachedFrom(heap, nodes[..i])
    requires |blocks| == i && entries == Concat(blocks)
    requires forall j :: 0 <= j < i ==> PairsFlattenedFrom(heap, nodes[j], blocks[j])
    ensures reached' <= heap.Keys && forall j :: 0 <= j < i + 1 ==> nodes[j] in reached'
    ensures Reached(heap, reached') && PairsCover(heap, reached', entries')
    ensures forall j :: 0 <= j < |entries'| ==> PairFrom(heap, reached', entries'[j])
    ensures reached' == ReachedFrom(heap, nodes[..i + 1])
    ensures |blocks'| == i + 1 && entries' == Concat(blocks')
    ensures forall j :: 0 <= j < i + 1 ==> PairsFlattenedFrom(heap, nodes[j], blocks'[j])
  {
    var vs;
    ghost var visited;
    vs, visited := PairsOf(heap, nodes[i]);
    JoinReached(heap, reached, visited);
    JoinCover(heap, reached, entries, visited, vs);
    JoinFrom(heap, reached, entries, visited, vs);
    assert (blocks + [vs])[..i] == blocks;
    assert nodes[..i + 1][..i] == nodes[..i];
    PairsFlattenedSnoc(heap, nodes, blocks, vs);
    entries', reached', blocks' := entries + vs, reached + visited, blocks + [vs];
  }

  lemma JoinReached(heap: Heap, a: set<Ref>, b: set<Ref>)
    requires Reached(heap, a) && Reached(heap, b)
    ensures Reached(heap, a + b)
  {
  }

  lemma JoinCover(heap: Heap, a: set<Ref>, ea: seq<Entry<LVal>>, b: set<Ref>, eb: seq<Entry<LVal>>)
    requires PairsCover(heap, a, ea) && PairsCover(heap, b, eb)
    ensures PairsCover(heap, a + b, ea + eb)
  {
    forall r, prop | r in a + b && r in heap && prop in GetProps(heap[r])
      ensures exists j :: 0 <= j < |ea + eb| && PathKey((ea + eb)[j].path) == PathKey(PairEntry(heap, r, prop).path)
    {
      var key := PathKey(PairEntry(heap, r, prop).path);
      if r in a {
        var j :| 0 <= j < |ea| && PathKey(ea[j].path) == key;
        assert (ea + eb)[j] == ea[j];
      } else {
        var j :| 0 <= j < |eb| && PathKey(eb[j].path) == key;
        assert (ea + eb)[|ea| + j] == eb[j];
      }
    }
  }

  /** One more node's block keeps every earlier node's block as it was. */
  lemma PairsFlattenedSnoc(heap: Heap, nodes: seq<Ref>, blocks: seq<seq<Entry<LVal>>>, vs: seq<Entry<LVal>>)
    requires |blocks| < |nodes| && PairsFlattenedFrom(heap, nodes[|blocks|], vs)
    requires forall j :: 0 <= j < |blocks| ==> PairsFlattenedFrom(heap, nodes[j], blocks[j])
    ensures forall j :: 0 <= j < |blocks| + 1 ==> PairsFlattenedFrom(heap, nodes[j], (blocks + [vs])[j])
  {
    forall j | 0 <= j < |blocks| + 1
      ensures PairsFlattenedFrom(heap, nodes[j], (blocks + [vs])[j])
    {
      if j < |blocks| {
        assert (blocks + [vs])[j] == blocks[j];
      }
    }
  }

  lemma JoinFrom(heap: Heap, a: set<Ref>, ea: seq<Entry<LVal>>, b: set<Ref>, eb: seq<Entry<LVal>>)
    requires forall j :: 0 <= j < |ea| ==> PairFrom(heap, a, ea[j])
    requires forall j :: 0 <= j < |eb| ==> PairFrom(heap, b, eb[j])
    ensures forall j :: 0 <= j < |ea + eb| ==> PairFrom(heap, a + b, (ea + eb)[j])
  {
    forall j | 0 <= j < |ea + eb|
      ensures PairFrom(heap, a + b, (ea + eb)[j])
    {
      if j < |ea| {
        assert PairFrom(heap, a, ea[j]);
        var o: PairOrigin :| o.node in a && PairBy(heap, o, ea[j]);
        assert (ea + eb)[j] == ea[j];
      } else {
        assert PairFrom(heap, b, eb[j - |ea|]);
        var o: PairOrigin :| o.node in b && PairBy(heap, o, eb[j - |ea|]);
        assert (ea + eb)[j] == eb[j - |ea|];
      }
    }
  }

  // ---------------------------------------------------------------------------
  // entriesToNodes
  // ---------------------------------------------------------------------------

  /** A node object built by `entriesToNodes`: its keys and their values. */
  type FlatNode = map<string, LVal>

  /** `{ type, id }`, from the first two segments of a path (undefined past its end). */
  function NewNode(path: seq<string>): FlatNode
  {
    map["type" := Text(Materialize.PathAt(path, 0)), "id" := Text(Materialize.PathAt(path, 1))]
  }

  /** The property `nodes[key][prop] = en.value` writes: `path[2]` as a key. */
  function PropKey(path: seq<string>): string
  {
    Interpolate(Materialize.PathAt(path, 2))
  }

  /** The node keys the entries create, in `Object.values` order (every key contains
      ':', so enumeration follows insertion). */
  function FlatKeyOrder(es: seq<Entry<LVal>>): seq<string>
  {
    if |es| == 0 then []
    else Materialize.AddKey(FlatKeyOrder(es[..|es| - 1]), Materialize.SubjectKey(es[|es| - 1].path))
  }

  /** The `nodes` record once every entry of `es` is processed, in order. */
  function FlatNodes(es: seq<Entry<LVal>>): map<string, FlatNode>
  {
    if |es| == 0 then map[]
    else
      var ns := FlatNodes(es[..|es| - 1]);
      var e := es[|es| - 1];
      var k := Materialize.SubjectKey(e.path);
      var n := if k in ns then ns[k] else NewNode(e.path);
      ns[k := n[PropKey(e.path) := e.value]]
  }

  /** `Object.values(nodes)`. */
  function NodeObjects(es: seq<Entry<LVal>>): (vs: seq<FlatNode>)
    ensures |vs| == |FlatKeyOrder(es)|
    ensures forall i :: 0 <= i < |vs| ==> FlatKeyOrder(es)[i] in FlatNodes(es) && vs[i] == FlatNodes(es)[FlatKeyOrder(es)[i]]
  {
    var keys, nodes := FlatKeyOrder(es), FlatNodes(es);
    FlatKeysAgree(es);
    seq(|keys|, i requires 0 <= i < |keys| && keys[i] in nodes => nodes[keys[i]])
  }

  /** The order lists each node key once, and exactly the keys of `nodes`. */
  lemma {:induction false} FlatKeysAgree(es: seq<Entry<LVal>>)
    ensures forall k :: k in FlatKeyOrder(es) <==> k in FlatNodes(es)
    ensures Materialize.Distinct(FlatKeyOrder(es))
  {
    if |es| > 0 {
      FlatKeysAgree(es[..|es| - 1]);
    }
  }

  /** One node per distinct `type:id` among the entries' subjects. */
  lemma {:induction false} FlatNodeKeys(es: seq<Entry<LVal>>, k: string)
    ensures k in FlatNodes(es) <==> exists e :: e in es && Materialize.SubjectKey(e.path) == k
  {
    if |es| > 0 {
      var init := es[..|es| - 1];
      FlatNodeKeys(init, k);
      assert es == init + [es[|es| - 1]];
    }
  }

  /** Later entries overwrite earlier ones: the last entry that writes a property of a
      node is what the node holds there. */
  lemma {:induction false} FlatLastWrite(es: seq<Entry<LVal>>, i: nat)
    requires i < |es|
    requires forall j :: i < j < |es| ==>
               Materialize.SubjectKey(es[j].path) != Materialize.SubjectKey(es[i].path) || PropKey(es[j].path) != PropKey(es[i].path)
    ensures Materialize.SubjectKey(es[i].path) in FlatNodes(es)
    ensures PropKey(es[i].path) in FlatNodes(es)[Materialize.SubjectKey(es[i].path)]
    ensures FlatNodes(es)[Materialize.SubjectKey(es[i].path)][PropKey(es[i].path)] == es[i].value
  {
    if i < |es| - 1 {
      var init := es[..|es| - 1];
      assert init[i] == es[i];
      FlatLastWrite(init, i);
    }
  }

  /** A node's `type` and `id` are those of the first entry with its key, unless an
      entry of that node writes the property itself. */
  lemma {:induction false} FlatFirstFields(es: seq<Entry<LVal>>, i: nat, p: string)
    requires i < |es| && (p == "type" || p == "id")
    requires forall j :: 0 <= j < i ==> Materialize.SubjectKey(es[j].path) != Materialize.SubjectKey(es[i].path)
    requires forall j :: 0 <= j < |es| && Materialize.SubjectKey(es[j].path) == Materialize.SubjectKey(es[i].path) ==>
               PropKey(es[j].path) != p
    ensures Materialize.SubjectKey(es[i].path) in FlatNodes(es)
    ensures p in FlatNodes(es)[Materialize.SubjectKey(es[i].path)]
    ensures FlatNodes(es)[Materialize.SubjectKey(es[i].path)][p] == NewNode(es[i].path)[p]
  {
    var k := Materialize.SubjectKey(es[i].path);
    var init := es[..|es| - 1];
    if i == |es| - 1 {
      FlatNodeKeys(init, k);
    } else {
      assert init[i] == es[i];
      assert forall j :: 0 <= j < |init| ==> init[j] == es[j];
      FlatFirstFields(init, i, p);
    }
  }

  /** A node holds `type`, `id` and what its entries write, nothing else. */
  lemma {:induction false} FlatNodeProps(es: seq<Entry<LVal>>, k: string, p: string)
    requires k in FlatNodes(es) && p in FlatNodes(es)[k]
    ensures p == "type" || p == "id" ||
            exists j :: 0 <= j < |es| && Materialize.SubjectKey(es[j].path) == k && PropKey(es[j].path) == p
  {
    var init := es[..|es| - 1];
    var e := es[|es| - 1];
    if p != "type" && p != "id" && (Materialize.SubjectKey(e.path) != k || PropKey(e.path) != p) {
      FlatNodeProps(init, k, p);
      var j :| 0 <= j < |init| && Materialize.SubjectKey(init[j].path) == k && PropKey(init[j].path) == p;
      assert es[j] == init[j];
    }
  }

  lemma FlatStep(es: seq<Entry<LVal>>, i: nat)
    requires i < |es|
    ensures FlatKeyOrder(es[..i + 1]) == Materialize.AddKey(FlatKeyOrder(es[..i]), Materialize.SubjectKey(es[i].path))
    ensures FlatNodes(es[..i + 1]) ==
            var ns, k := FlatNodes(es[..i]), Materialize.SubjectKey(es[i].path);
            ns[k := (if k in ns then ns[k] else NewNode(es[i].path))[PropKey(es[i].path) := es[i].value]]
  {
    assert es[..i + 1][..i] == es[..i];
  }

  /** The callback `entries.forEach` runs for one entry. */
  method AddFlat(nodes: map<string, FlatNode>, order: seq<string>, en: Entry<LVal>)
    returns (nodes': map<string, FlatNode>, order': seq<string>)
    requires forall k :: k in order <==> k in nodes
    ensures order' == Materialize.AddKey(order, Materialize.SubjectKey(en.path))
    ensures nodes' == var k := Materialize.SubjectKey(en.path);
                      nodes[k := (if k in nodes then nodes[k] else NewNode(en.path))[PropKey(en.path) := en.value]]
  {
    nodes', order' := nodes, order;
    var key := Materialize.SubjectKey(en.path);
    if key !in nodes' {
      nodes' := nodes'[key := NewNode(en.path)];
      order' := order' + [key];
    }
    nodes' := nodes'[key := nodes'[key][PropKey(en.path) := en.value]];
  }

  /** `entriesToNodes(entries)`. It never throws: a short path reads as undefined. */
  method EntriesToNodes(entries: seq<Entry<LVal>>) returns (values: seq<FlatNode>)
    ensures values == NodeObjects(entries)
  {
    var nodes: map<string, FlatNode> := map[];
    var order: seq<string> := [];
    var i := 0;
    while i < |entries|
      invariant 0 <= i <= |entries|
      invariant nodes == FlatNodes(entries[..i]) && order == FlatKeyOrder(entries[..i])
    {
      FlatKeysAgree(entries[..i]);
      FlatStep(entries, i);
      nodes, order := AddFlat(nodes, order, entries[i]);
      i := i + 1;
    }
    assert entries[..i] == entries;
    FlatKeysAgree(entries);
    values := seq(|order|, j requires 0 <= j < |order| && order[j] in nodes => nodes[order[j]]);
  }

  // ---------------------------------------------------------------------------
  // The object returned by db(config)
  // ---------------------------------------------------------------------------

  /** What `await extractChunks(await config.server.list())` resolves to; `None` is
      `undefined`, for a listing that ends on a page that is not `done`. */
  function Results(list: Replicator.Lister<LVal>): Option<seq<Entry<LVal>>>
  {
    Canon.ExtractSpec(list([]))
  }

  /** The listing ends in a `done` page, and `w` and `ms` are what one `getBatch` of
      it writes to local and hands to `onNode`. */
  ghost predicate Listed(config: Replicator.Config, list: Replicator.Lister<LVal>, w: seq<Entry<LVal>>, ms: seq<FlatNode>)
  {
    Results(list).Some? && w == Replicator.LocalEntries(Results(list).value) && ms == Delivered(config, Results(list).value)
  }

  /** The nodes one `entriesToNodes(rs).forEach(n => config.onNode?.(n))` hands out. */
  function Delivered(config: Replicator.Config, rs: seq<Entry<LVal>>): seq<FlatNode>
  {
    if config.onNode then NodeObjects(rs) else []
  }

  /**
   * The server writes of the first of two pushes made in one synchronous run all
   * carry, once the hash is removed, the batch number `c + 2` that the second push
   * reached, not the `c + 1` the first push's own increment made.
   */
  lemma FirstPushMisfiled(cfg: Replicator.Config, localFails: set<seq<string>>, serverFails: set<seq<string>>,
                          c: Num, hash: string, es: seq<Entry<LVal>>, w: Entry<LVal>)
    requires c.Fin? && w in Replicator.ServerWrites(cfg, localFails, serverFails, Replicator.IncBy(c, 2), hash, es)
    ensures Replicator.BatchOf(Entry(Canon.DropLast(w.path), w.value)) == Fin(c.n + 2)
    ensures Replicator.BatchOf(Entry(Canon.DropLast(w.path), w.value)) != Inc(c)
  {
    Replicator.ServerWritesSound(cfg, localFails, serverFails, Replicator.IncBy(c, 2), hash, es, w);
    var i :| 0 <= i < |es| && w == Entry(Replicator.ServerPath(Replicator.IncBy(c, 2), es[i].path, hash), es[i].value);
    Replicator.ServerPathRoundTrip(Replicator.IncBy(c, 2), es[i].path, hash);
  }

  class Db {
    const config: Replicator.Config
    /** `currentBatchNumber`. */
    var counter: Num
    var local: map<seq<string>, LVal>
    var server: map<seq<string>, LVal>
    /** The messages sent with `publish`, in order. */
    var published: seq<Entry<LVal>>
    /** The nodes handed to `onNode`, in order. */
    var notified: seq<FlatNode>

    /** `db(config)`: the counter starts at 0. */
    constructor (config: Replicator.Config, local: map<seq<string>, LVal>, server: map<seq<string>, LVal>)
      ensures this.config == config && counter == Fin(0)
      ensures this.local == local && this.server == server && published == [] && notified == []
    {
      this.config := config;
      counter := Fin(0);
      this.local := local;
      this.server := server;
      published := [];
      notified := [];
    }

    /**
     * What `push(...nodes)` does before it returns: increment the counter, flatten each
     * Node with a Map and Set of its own, and start one job per entry, which runs up to
     * its awaited `local.set(path, value)`. `Resume` is the rest of the jobs.
     */
    method Push(heap: Heap, nodes: seq<Ref>, localFails: set<seq<string>>)
      returns (entries: seq<Entry<LVal>>, ghost reached: set<Ref>, ghost blocks: seq<seq<Entry<LVal>>>)
      requires Closed(heap) && forall i :: 0 <= i < |nodes| ==> nodes[i] in heap
      modifies this
      ensures counter == Inc(old(counter))
      ensures reached <= heap.Keys && forall i :: 0 <= i < |nodes| ==> nodes[i] in reached
      ensures Reached(heap, reached) && PairsCover(heap, reached, entries)
      ensures forall i :: 0 <= i < |entries| ==> PairFrom(heap, reached, entries[i])
      ensures reached == ReachedFrom(heap, nodes)
      ensures |blocks| == |nodes| && entries == Concat(blocks)
      ensures forall i :: 0 <= i < |nodes| ==> PairsFlattenedFrom(heap, nodes[i], blocks[i])
      ensures local == Replicator.Apply(old(local), Replicator.LocalWrites(config, localFails, entries))
      ensures server == old(server) && published == old(published) && notified == old(notified)
    {
      counter := Inc(counter);
      entries, reached, blocks := FlattenAll(heap, nodes);
      StartJobs(entries, localFails);
    }

    /** The local write each job makes before its first `await`. */
    method StartJobs(entries: seq<Entry<LVal>>, localFails: set<seq<string>>)
      modifies this
      ensures local == Replicator.Apply(old(local), Replicator.LocalWrites(config, localFails, entries))
      ensures counter == old(counter) && server == old(server)
      ensures published == old(published) && notified == old(notified)
    {
      ghost var local0 := local;
      var k := 0;
      while k < |entries|
        invariant 0 <= k <= |entries|
        invariant local == Replicator.LocalAfter(config, localFails, local0, entries[..k])
        invariant counter == old(counter) && server == old(server)
        invariant published == old(published) && notified == old(notified)
      {
        assert entries[..k + 1][..k] == entries[..k];
        StartJob(entries[k], localFails);
        k := k + 1;
      }
      assert entries[..k] == entries;
      Replicator.LocalAfterIsApply(config, localFails, local0, entries);
    }

    /** `config.local?.set?.(path, value)` of one job; a write that rejects leaves the
        store as it was. */
    method StartJob(e: Entry<LVal>, localFails: set<seq<string>>)
      modifies this
      ensures local == Replicator.Apply(old(local), Replicator.LocalStep(config, localFails, e))
      ensures counter == old(counter) && server == old(server)
      ensures published == old(published) && notified == old(notified)
    {
      if config.localSet && e.path !in localFails {
        local := local[e.path := e.value];
      }
    }

    /**
     * The rest of the jobs, once their local writes settle: each writes its entry to
     * the server under `[String(currentBatchNumber), ...path, hash]`, reading the
     * counter as it is now, and publishes it. `outcomes` is what `Promise.allSettled`
     * resolves to; `hash` is the one `getBatchHash()` drew.
     */
    method Resume(entries: seq<Entry<LVal>>, hash: string, localFails: set<seq<string>>, serverFails: set<seq<string>>)
      returns (outcomes: seq<Replicator.Outcome<LVal>>)
      modifies this
      ensures outcomes == Replicator.Outcomes(config, localFails, serverFails, counter, hash, entries)
      ensures server == Replicator.Apply(old(server), Replicator.ServerWrites(config, localFails, serverFails, counter, hash, entries))
      ensures published == old(published) + Replicator.Published(config, localFails, serverFails, counter, hash, entries)
      ensures counter == old(counter) && local == old(local) && notified == old(notified)
    {
      ghost var server0, published0 := server, published;
      outcomes := [];
      var k := 0;
      while k < |entries|
        invariant 0 <= k <= |entries|
        invariant outcomes == Replicator.Outcomes(config, localFails, serverFails, counter, hash, entries[..k])
        invariant server == Replicator.ServerAfter(config, localFails, serverFails, counter, hash, server0, entries[..k])
        invariant published == published0 + Replicator.Published(config, localFails, serverFails, counter, hash, entries[..k])
        invariant counter == old(counter) && local == old(local) && notified == old(notified)
      {
        var o := ResumeNext(hash, localFails, serverFails, entries, k, server0, published0);
        outcomes := outcomes + [o];
        k := k + 1;
      }
      assert entries[..k] == entries;
      Replicator.ServerAfterIsApply(config, localFails, serverFails, counter, hash, server0, entries);
    }

    /** Job number `k`, which carries the server from `entries[..k]` to `entries[..k + 1]`. */
    method ResumeNext(hash: string, localFails: set<seq<string>>, serverFails: set<seq<string>>,
                      entries: seq<Entry<LVal>>, k: nat, ghost server0: map<seq<string>, LVal>,
                      ghost published0: seq<Entry<LVal>>) returns (o: Replicator.Outcome<LVal>)
      requires k < |entries|
      requires server == Replicator.ServerAfter(config, localFails, serverFails, counter, hash, server0, entries[..k])
      requires published == published0 + Replicator.Published(config, localFails, serverFails, counter, hash, entries[..k])
      modifies this
      ensures o == Replicator.Settle(config, localFails, serverFails, counter, hash, entries[k])
      ensures Replicator.Outcomes(config, localFails, serverFails, counter, hash, entries[..k + 1]) ==
              Replicator.Outcomes(config, localFails, serverFails, counter, hash, entries[..k]) + [o]
      ensures server == Replicator.ServerAfter(config, localFails, serverFails, counter, hash, server0, entries[..k + 1])
      ensures published == published0 + Replicator.Published(config, localFails, serverFails, counter, hash, entries[..k + 1])
      ensures counter == old(counter) && local == old(local) && notified == old(notified)
    {
      ghost var pub := Replicator.Published(config, localFails, serverFails, counter, hash, entries[..k]);
      ghost var step := Replicator.PublishStep(config, localFails, serverFails, counter, hash, entries[k]);
      assert entries[..k + 1][..k] == entries[..k];
      o := Job(hash, localFails, serverFails, entries[k]);
      assert published0 + pub + step == published0 + (pub + step);
    }

    /** One job after its `await config.local?.set?.(path, value)`: rejected if that
        write was; otherwise the server write under the current counter, then `publish`. */
    method Job(hash: string, localFails: set<seq<string>>, serverFails: set<seq<string>>, e: Entry<LVal>)
      returns (o: Replicator.Outcome<LVal>)
      modifies this
      ensures o == Replicator.Settle(config, localFails, serverFails, counter, hash, e)
      ensures server == Replicator.Apply(old(server), Replicator.ServerStep(config, localFails, serverFails, counter, hash, e))
      ensures published == old(published) + Replicator.PublishStep(config, localFails, serverFails, counter, hash, e)
      ensures counter == old(counter) && local == old(local) && notified == old(notified)
    {
      if config.localSet && e.path in localFails {
        return Replicator.Rejected;
      }
      if config.serverSet {
        var sp := Replicator.ServerPath(counter, e.path, hash);
        if sp in serverFails {
          return Replicator.Rejected;
        }
        server := server[sp := e.value];
      }
      if config.publish {
        published := published + [e];
      }
      o := Replicator.Fulfilled(e);
    }

    /** A push whose jobs resume before anything else touches the counter: its entries
        are filed under the incremented counter. */
    method PushAlone(heap: Heap, nodes: seq<Ref>, hash: string, localFails: set<seq<string>>, serverFails: set<seq<string>>)
      returns (entries: seq<Entry<LVal>>, outcomes: seq<Replicator.Outcome<LVal>>)
      requires Closed(heap) && forall i :: 0 <= i < |nodes| ==> nodes[i] in heap
      modifies this
      ensures counter == Inc(old(counter))
      ensures forall i :: 0 <= i < |entries| ==> PairFrom(heap, heap.Keys, entries[i])
      ensures |outcomes| == |entries|
      ensures forall i :: 0 <= i < |entries| ==>
                outcomes[i] == Replicator.Settle(config, localFails, serverFails, Inc(old(counter)), hash, entries[i])
      ensures local == Replicator.Apply(old(local), Replicator.LocalWrites(config, localFails, entries))
      ensures server == Replicator.Apply(old(server), Replicator.ServerWrites(config, localFails, serverFails, Inc(old(counter)), hash, entries))
      ensures published == old(published) + Replicator.Published(config, localFails, serverFails, Inc(old(counter)), hash, entries)
      ensures notified == old(notified)
    {
      ghost var reached, blocks;
      entries, reached, blocks := Push(heap, nodes, localFails);
      outcomes := Resume(entries, hash, localFails, serverFails);
      Replicator.OutcomesAt(config, localFails, serverFails, counter, hash, entries);
      forall i | 0 <= i < |entries|
        ensures PairFrom(heap, heap.Keys, entries[i])
      {
        var o: PairOrigin :| o.node in reached && PairBy(heap, o, entries[i]);
      }
    }

    /**
     * `push(...a); push(...b)` in one synchronous run: both increment the counter
     * before any job resumes, so the jobs of both read the counter after the second
     * increment and the entries of `a` are filed under the batch of `b`.
     */
    method PushPair(heap: Heap, a: seq<Ref>, b: seq<Ref>, hashA: string, hashB: string,
                    localFails: set<seq<string>>, serverFails: set<seq<string>>)
      returns (ea: seq<Entry<LVal>>, eb: seq<Entry<LVal>>,
               outA: seq<Replicator.Outcome<LVal>>, outB: seq<Replicator.Outcome<LVal>>)
      requires Closed(heap) && forall i :: 0 <= i < |a| ==> a[i] in heap
      requires forall i :: 0 <= i < |b| ==> b[i] in heap
      modifies this
      ensures counter == Replicator.IncBy(old(counter), 2)
      ensures outA == Replicator.Outcomes(config, localFails, serverFails, counter, hashA, ea)
      ensures outB == Replicator.Outcomes(config, localFails, serverFails, counter, hashB, eb)
      ensures local == Replicator.Apply(Replicator.Apply(old(local), Replicator.LocalWrites(config, localFails, ea)),
                                        Replicator.LocalWrites(config, localFails, eb))
      ensures server == Replicator.Apply(Replicator.Apply(old(server), Replicator.ServerWrites(config, localFails, serverFails, counter, hashA, ea)),
                                         Replicator.ServerWrites(config, localFails, serverFails, counter, hashB, eb))
      ensures notified == old(notified)
    {
      ghost var ra, rb, ba, bb;
      ea, ra, ba := Push(heap, a, localFails);
      eb, rb, bb := Push(heap, b, localFails);
      outA := Resume(ea, hashA, localFails, serverFails);
      outB := Resume(eb, hashB, localFails, serverFails);
    }

    /** `entriesToNodes(results).forEach(n => config.onNode?.(n))`. */
    method Deliver(rs: seq<Entry<LVal>>)
      modifies this
      ensures notified == old(notified) + Delivered(config, rs)
      ensures counter == old(counter) && local == old(local) && server == old(server) && published == old(published)
    {
      var nodes := EntriesToNodes(rs);
      if config.onNode {
        notified := notified + nodes;
      }
    }

    /**
     * `resetLocal()`: without `clear`, `set` or `list` nothing happens. Otherwise the
     * local store is cleared; when the listing has no `done` page, `results` is
     * undefined and `results.forEach` throws right after the clear. Otherwise the store
     * is refilled from the canonical entries, the counter raised to each result's
     * batch number and the nodes delivered.
     */
    method ResetLocal(list: Replicator.Lister<LVal>) returns (ran: bool, completed: bool)
      modifies this
      ensures ran == (config.localClear && config.localSet && config.serverList)
      ensures !ran ==> counter == old(counter) && local == old(local) && notified == old(notified)
      ensures ran ==> completed == Results(list).Some?
      ensures ran && !completed ==> local == map[] && counter == old(counter) && notified == old(notified)
      ensures ran && completed ==> counter == Replicator.BatchMax(old(counter), Results(list).value)
      ensures ran && completed ==> local == Replicator.Apply(map[], Replicator.LocalEntries(Results(list).value))
      ensures ran && completed ==> notified == old(notified) + Delivered(config, Results(list).value)
      ensures server == old(server) && published == old(published)
    {
      if !config.localClear || !config.localSet || !config.serverList {
        return false, false;
      }
      ran := true;
      var results := Canon.Extract(list([]));
      if results.None? {
        local := map[];
        return ran, false;
      }
      Rebuild(results.value);
      Deliver(results.value);
      completed := true;
    }

    /** `await config.local.clear()`, then for each result the counter update and the
        local write of `resetLocal`'s loop. */
    method Rebuild(rs: seq<Entry<LVal>>)
      modifies this
      ensures counter == Replicator.BatchMax(old(counter), rs)
      ensures local == Replicator.Apply(map[], Replicator.LocalEntries(rs))
      ensures server == old(server) && published == old(published) && notified == old(notified)
    {
      ghost var counter0 := counter;
      local := map[];
      var i := 0;
      while i < |rs|
        invariant 0 <= i <= |rs|
        invariant counter == Replicator.BatchMax(counter0, rs[..i])
        invariant local == Replicator.Synced(map[], rs[..i])
        invariant server == old(server) && published == old(published) && notified == old(notified)
      {
        Replicator.SyncedStep(map[], rs, i);
        Replicator.BatchMaxStep(counter0, rs, i);
        counter := Max(counter, NumberOf(Materialize.PathAt(rs[i].path, 0)));
        local := local[Replicator.Tail(rs[i].path) := rs[i].value];
        i := i + 1;
      }
      assert rs[..i] == rs;
      Replicator.SyncedIsApply(map[], rs);
    }

    /** `results.forEach(res => config.local.set(res.path.slice(1), res.value))`. */
    method SyncLocal(rs: seq<Entry<LVal>>)
      modifies this
      ensures local == Replicator.Apply(old(local), Replicator.LocalEntries(rs))
      ensures counter == old(counter) && server == old(server)
      ensures published == old(published) && notified == old(notified)
    {
      ghost var local0 := local;
      var i := 0;
      while i < |rs|
        invariant 0 <= i <= |rs|
        invariant local == Replicator.Synced(local0, rs[..i])
        invariant counter == old(counter) && server == old(server)
        invariant published == old(published) && notified == old(notified)
      {
        Replicator.SyncedStep(local0, rs, i);
        local := local[Replicator.Tail(rs[i].path) := rs[i].value];
        i := i + 1;
      }
      assert rs[..i] == rs;
      Replicator.SyncedIsApply(local0, rs);
    }

    /** `getBatch()`: sync the local store with the full canonical listing and deliver
        its nodes; `results.forEach` throws where `results` is undefined. */
    method GetBatch(list: Replicator.Lister<LVal>) returns (completed: bool)
      requires config.serverList && config.localSet
      modifies this
      ensures completed == Results(list).Some?
      ensures !completed ==> local == old(local) && notified == old(notified)
      ensures completed ==> local == Replicator.Apply(old(local), Replicator.LocalEntries(Results(list).value))
      ensures completed ==> notified == old(notified) + Delivered(config, Results(list).value)
      ensures counter == old(counter) && server == old(server) && published == old(published)
    {
      var results := Canon.Extract(list([]));
      if results.None? {
        return false;
      }
      SyncLocal(results.value);
      Deliver(results.value);
      completed := true;
    }

    /** The body of `pull`'s loop, `currentBatchNumber++; await getBatch()`, once a
        first `getBatch` has returned: `w` and `ms` are what that call wrote to local
        and handed to `onNode`, and this one does the same, in round `n`. */
    method NextBatch(list: Replicator.Lister<LVal>, ghost w: seq<Entry<LVal>>, ghost ms: seq<FlatNode>,
                     ghost base: map<seq<string>, LVal>, ghost prefix: seq<FlatNode>, ghost n: nat)
      requires config.serverList && config.localSet && Listed(config, list, w, ms)
      requires local == Replicator.Apply(base, w) && notified == Replicator.Replay(prefix, ms, n)
      modifies this
      ensures counter == Inc(old(counter))
      ensures local == old(local) && notified == Replicator.Replay(prefix, ms, n + 1)
      ensures server == old(server) && published == old(published)
    {
      Replicator.ApplyIdempotent(base, w);
      Replicator.ReplayNext(prefix, ms, n);
      counter := Inc(counter);
      var _ := GetBatch(list);
    }

    /** One iteration of `Drain`'s loop, from counter `c0` after `rounds` iterations,
        with `left` more allowed and `total` to run in all. */
    method Round(list: Replicator.Lister<LVal>, probe: Num -> bool, ghost w: seq<Entry<LVal>>, ghost ms: seq<FlatNode>,
                 ghost base: map<seq<string>, LVal>, ghost prefix: seq<FlatNode>, ghost n: nat,
                 ghost c0: Num, ghost rounds: nat, ghost left: nat, ghost total: nat)
      requires config.serverList && config.localSet && Listed(config, list, w, ms)
      requires local == Replicator.Apply(base, w) && notified == Replicator.Replay(prefix, ms, n)
      requires left > 0 && probe(Inc(counter)) && total == rounds + Replicator.Rounds(probe, counter, left)
      requires counter == Replicator.IncBy(c0, rounds)
      modifies this
      ensures counter == Replicator.IncBy(c0, rounds + 1) && total == (rounds + 1) + Replicator.Rounds(probe, counter, left - 1)
      ensures local == old(local) && notified == Replicator.Replay(prefix, ms, n + 1)
      ensures server == old(server) && published == old(published)
    {
      Replicator.RoundsAdvance(probe, counter, left, rounds, total);
      NextBatch(list, w, ms, base, prefix, n);
    }

    /** `while (await probe(currentBatchNumber + 1)) { currentBatchNumber++; await
        getBatch() }`, with at most `fuel` iterations, once a first `getBatch` has
        returned: local stays as that call left it, and `onNode` gets its nodes again
        in each round. Every `getBatch` here reads the listing the first one read, so
        none of them throws and the loop does not look at their results. */
    method Drain(list: Replicator.Lister<LVal>, probe: Num -> bool, fuel: nat, ghost w: seq<Entry<LVal>>,
                 ghost ms: seq<FlatNode>, ghost base: map<seq<string>, LVal>, ghost prefix: seq<FlatNode>, ghost k: nat)
      returns (rounds: nat)
      requires config.serverList && config.localSet && Listed(config, list, w, ms)
      requires local == Replicator.Apply(base, w) && notified == Replicator.Replay(prefix, ms, k)
      modifies this
      ensures rounds == Replicator.Rounds(probe, old(counter), fuel) && counter == Replicator.IncBy(old(counter), rounds)
      ensures local == old(local) && notified == Replicator.Replay(prefix, ms, rounds + k)
      ensures server == old(server) && published == old(published)
    {
      ghost var c0, total, left, n := counter, Replicator.Rounds(probe, counter, fuel), fuel, k;
      rounds := 0;
      while rounds < fuel && probe(Inc(counter))
        invariant counter == Replicator.IncBy(c0, rounds)
        invariant rounds <= fuel
        invariant left == fuel - rounds && total == rounds + Replicator.Rounds(probe, counter, left)
        invariant n == rounds + k && local == old(local) && notified == Replicator.Replay(prefix, ms, n)
        invariant server == old(server) && published == old(published)
        decreases left
      {
        Round(list, probe, w, ms, base, prefix, n, c0, rounds, left, total);
        rounds, left, n := rounds + 1, left - 1, n + 1;
      }
      Replicator.RoundsDone(probe, counter, left);
    }

    /**
     * `pull()`, with at most `fuel` iterations of its loop. Without `list` or `set`
     * nothing happens. `resync` says whether the un-awaited `resetLocal()` is started
     * (the first probe found the current batch non-empty); that call is the separate
     * step `ResetLocal`. Every `getBatch` reads the same listing, so either the first
     * one throws and ends the pull, or none does and the loop runs its course.
     */
    method Pull(list: Replicator.Lister<LVal>, fuel: nat) returns (ran: bool, resync: bool, rounds: nat, completed: bool)
      modifies this
      ensures ran == (config.serverList && config.localSet)
      ensures !ran ==> counter == old(counter) && local == old(local) && notified == old(notified)
      ensures ran ==> resync == !Replicator.ProbeAt(list, old(counter))
      ensures ran ==> completed == Results(list).Some?
      ensures ran && !completed ==> rounds == 0 && counter == old(counter) && local == old(local) && notified == old(notified)
      ensures ran && completed ==> rounds == Replicator.Rounds(Replicator.Probe(list), old(counter), fuel)
      ensures ran && completed ==> counter == Replicator.IncBy(old(counter), rounds)
      ensures ran && completed ==> local == Replicator.Apply(old(local), Replicator.LocalEntries(Results(list).value))
      // `onNode` gets the nodes of the listing once per `getBatch`
      ensures ran && completed ==> notified == Replicator.Replay(old(notified), Delivered(config, Results(list).value), rounds + 1)
      ensures server == old(server) && published == old(published)
    {
      if !config.serverList || !config.localSet {
        return false, false, 0, false;
      }
      ran := true;
      var probe := Replicator.Probe(list);
      resync := !probe(counter);
      ghost var local0, notified0 := local, notified;
      completed := GetBatch(list);
      rounds := 0;
      if !completed {
        return;
      }
      ghost var w, ms := Replicator.LocalEntries(Results(list).value), Delivered(config, Results(list).value);
      Replicator.ReplayNext(notified0, ms, 0);
      rounds := Drain(list, probe, fuel, w, ms, local0, notified0, 1);
    }
  }
}
