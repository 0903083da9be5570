/**
 * The flattener (index.ts): `parseObj` walks one property value down to its leaves,
 * and `collectPairs` turns a Node and everything it references into entries keyed by
 * `path.join('/')`, guarded by a visited set so that cyclic graphs terminate.
 */
module Flatten {
  import opened Js
  import opened Graph
  import opened Entries

  /** One result of `parseObj`: the keys walked and the value found there. */
  datatype Leaf = Leaf(objPath: seq<string>, objValue: Value)

  /** Where `parseObj` stops: a Node, or a value that is not a non-null object. */
  predicate IsLeafValue(v: Value)
  {
    v.NodeVal? || v.Undef? || v.Prim?
  }

  predicate Extends(p: seq<string>, q: seq<string>)
  {
    |p| <= |q| && q[..|p|] == p
  }

  /** `parseObj(obj, objPath)`. */
  function ParseObj(obj: Value, objPath: seq<string>): (leaves: seq<Leaf>)
    ensures forall l :: l in leaves ==> IsLeafValue(l.objValue) && Extends(objPath, l.objPath)
    ensures IsLeafValue(obj) ==> leaves == [Leaf(objPath, obj)]
  {
    match obj
    case Obj(fields) => ParseFields(fields, objPath)
    case Arr(elems) => ParseElems(elems, 0, objPath)
    case _ => [Leaf(objPath, obj)]
  }

  /** The `flatMap` over `Object.entries` of a plain object. */
  function ParseFields(fields: seq<Field>, objPath: seq<string>): (leaves: seq<Leaf>)
    ensures forall l :: l in leaves ==> IsLeafValue(l.objValue) && Extends(objPath, l.objPath)
  {
    if |fields| == 0 then []
    else ParseObj(fields[0].val, objPath + [fields[0].key]) + ParseFields(fields[1..], objPath)
  }

  /** The `flatMap` over `Object.entries` of an array, whose keys are "0", "1", ... */
  function ParseElems(elems: seq<Value>, start: nat, objPath: seq<string>): (leaves: seq<Leaf>)
    ensures forall l :: l in leaves ==> IsLeafValue(l.objValue) && Extends(objPath, l.objPath)
  {
    if |elems| == 0 then []
    else ParseObj(elems[0], objPath + [NatToString(start)]) + ParseElems(elems[1..], start + 1, objPath)
  }

  // ---------------------------------------------------------------------------
  // An independent description of the leaves: following keys from a value
  // ---------------------------------------------------------------------------

  /** The array index a key names, as property access on an array reads it. */
  function ArrayIndex(k: string): (r: Option<nat>)
  {
    if |k| >= 1 && AllDigits(k) && NatToString(DigitsValue(k)) == k then Some(DigitsValue(k)) else None
  }

  lemma ArrayIndexOfNatToString(i: nat)
    ensures ArrayIndex(NatToString(i)) == Some(i)
  {
    DigitsOfNatToString(i);
  }

  /** The value reached from `v` by following the keys `q` through plain objects and
      arrays (Nodes and scalars are not entered). */
  function At(v: Value, q: seq<string>): Option<Value>
    decreases q
  {
    if |q| == 0 then Some(v)
    else match v
      case Obj(fields) =>
        (match Lookup(fields, q[0])
         case Some(c) => At(c, q[1..])
         case None => None)
      case Arr(elems) =>
        (match ArrayIndex(q[0])
         case Some(i) => if i < |elems| then At(elems[i], q[1..]) else None
         case None => None)
      case _ => None
  }

  lemma {:induction false} LookupFirst(fields: seq<Field>, k: string) returns (i: nat)
    requires Lookup(fields, k).Some?
    ensures i < |fields| && fields[i].key == k && fields[i].val == Lookup(fields, k).value
  {
    if fields[0].key == k {
      i := 0;
    } else {
      var i' := LookupFirst(fields[1..], k);
      i := i' + 1;
    }
  }

  lemma {:induction false} LookupUnique(fields: seq<Field>, i: nat)
    requires i < |fields|
    requires forall a, b :: 0 <= a < b < |fields| ==> fields[a].key != fields[b].key
    ensures Lookup(fields, fields[i].key) == Some(fields[i].val)
  {
    if i > 0 {
      LookupUnique(fields[1..], i - 1);
    }
  }

  lemma {:induction false} InParseFields(fields: seq<Field>, objPath: seq<string>, l: Leaf) returns (i: nat)
    requires l in ParseFields(fields, objPath)
    ensures i < |fields| && l in ParseObj(fields[i].val, objPath + [fields[i].key])
  {
    if l in ParseObj(fields[0].val, objPath + [fields[0].key]) {
      i := 0;
    } else {
      var i' := InParseFields(fields[1..], objPath, l);
      i := i' + 1;
    }
  }

  lemma {:induction false} InParseElems(elems: seq<Value>, start: nat, objPath: seq<string>, l: Leaf) returns (i: nat)
    requires l in ParseElems(elems, start, objPath)
    ensures i < |elems| && l in ParseObj(elems[i], objPath + [NatToString(start + i)])
  {
    if l in ParseObj(elems[0], objPath + [NatToString(start)]) {
      i := 0;
    } else {
      var i' := InParseElems(elems[1..], start + 1, objPath, l);
      i := i' + 1;
    }
  }

  lemma {:induction false} ParseFieldsHas(fields: seq<Field>, objPath: seq<string>, i: nat, l: Leaf)
    requires i < |fields| && l in ParseObj(fields[i].val, objPath + [fields[i].key])
    ensures l in ParseFields(fields, objPath)
  {
    if i > 0 {
      ParseFieldsHas(fields[1..], objPath, i - 1, l);
    }
  }

  lemma {:induction false} ParseElemsHas(elems: seq<Value>, start: nat, objPath: seq<string>, i: nat, l: Leaf)
    requires i < |elems| && l in ParseObj(elems[i], objPath + [NatToString(start + i)])
    ensures l in ParseElems(elems, start, objPath)
  {
    if i > 0 {
      ParseElemsHas(elems[1..], start + 1, objPath, i - 1, l);
    }
  }

  /** Every leaf of `parseObj(obj, objPath)` lies where its path says: the path is
      `objPath` extended by keys, and following those keys from `obj` reaches it. */
  lemma {:induction false} ParseObjSound(obj: Value, objPath: seq<string>, l: Leaf)
    requires UniqueKeys(obj)
    requires l in ParseObj(obj, objPath)
    ensures Extends(objPath, l.objPath)
    ensures At(obj, l.objPath[|objPath|..]) == Some(l.objValue)
  {
    match obj
    case Obj(fields) =>
      var i := InParseFields(fields, objPath, l);
      ParseObjSound(fields[i].val, objPath + [fields[i].key], l);
      LookupUnique(fields, i);
      SplitAfter(objPath, fields[i].key, l.objPath);
      AtCons(obj, fields[i].key, fields[i].val, l.objPath[|objPath| + 1..]);
    case Arr(elems) =>
      var i := InParseElems(elems, 0, objPath, l);
      ParseObjSound(elems[i], objPath + [NatToString(i)], l);
      ArrayIndexOfNatToString(i);
      SplitAfter(objPath, NatToString(i), l.objPath);
      AtCons(obj, NatToString(i), elems[i], l.objPath[|objPath| + 1..]);
    case _ =>
  }

  /** A path that extends `p + [k]` is `p`, then `k`, then the rest. */
  lemma SplitAfter(p: seq<string>, k: string, q: seq<string>)
    requires Extends(p + [k], q)
    ensures q[|p|..] == [k] + q[|p| + 1..]
  {
    assert q[|p|] == (p + [k])[|p|];
  }

  /** Following `[k] + rest` from a plain object or array is following `rest` from
      the child under `k`. */
  lemma AtCons(v: Value, k: string, c: Value, rest: seq<string>)
    requires || (v.Obj? && Lookup(v.fields, k) == Some(c))
             || (v.Arr? && ArrayIndex(k).Some? && ArrayIndex(k).value < |v.elems| && v.elems[ArrayIndex(k).value] == c)
    ensures At(v, [k] + rest) == At(c, rest)
  {
    assert ([k] + rest)[1..] == rest;
  }

  /** Every leaf value reachable by following keys shows up in `parseObj`. */
  lemma {:induction false} ParseObjComplete(obj: Value, objPath: seq<string>, q: seq<string>)
    requires At(obj, q).Some? && IsLeafValue(At(obj, q).value)
    ensures Leaf(objPath + q, At(obj, q).value) in ParseObj(obj, objPath)
    decreases q
  {
    if |q| == 0 {
      assert objPath + q == objPath;
    } else {
      match obj
      case Obj(fields) =>
        var i := LookupFirst(fields, q[0]);
        ParseObjComplete(fields[i].val, objPath + [q[0]], q[1..]);
        assert objPath + [q[0]] + q[1..] == objPath + q;
        ParseFieldsHas(fields, objPath, i, Leaf(objPath + q, At(obj, q).value));
      case Arr(elems) =>
        var i := ArrayIndex(q[0]).value;
        ParseObjComplete(elems[i], objPath + [q[0]], q[1..]);
        assert objPath + [q[0]] + q[1..] == objPath + q;
        assert NatToString(0 + i) == q[0];
        ParseElemsHas(elems, 0, objPath, i, Leaf(objPath + q, At(obj, q).value));
    }
  }

  /** A Node or a scalar at the top is one leaf, at the given path. */
  lemma ParseObjOfLeaf(obj: Value, objPath: seq<string>)
    requires IsLeafValue(obj)
    ensures |ParseObj(obj, objPath)| == 1 && ParseObj(obj, objPath)[0] == Leaf(objPath, obj)
  {
  }

  /** Every Node a leaf refers to is one `obj` refers to. */
  lemma {:induction false} ParseObjRefsIn(obj: Value, objPath: seq<string>, dom: set<Ref>, l: Leaf)
    requires RefsIn(obj, dom)
    requires l in ParseObj(obj, objPath)
    ensures l.objValue.NodeVal? ==> l.objValue.ref in dom
  {
    match obj
    case Obj(fields) =>
      var i := InParseFields(fields, objPath, l);
      ParseObjRefsIn(fields[i].val, objPath + [fields[i].key], dom, l);
    case Arr(elems) =>
      var i := InParseElems(elems, 0, objPath, l);
      ParseObjRefsIn(elems[i], objPath + [NatToString(i)], dom, l);
    case _ =>
  }

  // ---------------------------------------------------------------------------
  // collectPairs
  // ---------------------------------------------------------------------------

  /** The entry `collectPairs` sets for leaf `l` of property `prop` of Node `r`:
      path `[type, id, pred, ...objPath]`; a Node leaf as the reference "type:id",
      anything else as `obj?.toString()` of the whole property value. */
  function LeafEntry(heap: Heap, r: Ref, prop: Field, l: Leaf): Entry<Fact>
    requires r in heap
  {
    Entry([TypeOf(heap[r]), IdOf(heap[r]), prop.key] + l.objPath,
          if IsNode(l.objValue) then Fact(Some(NodeTag(heap, l.objValue.ref)), true)
          else Fact(ToStr(prop.val), false))
  }

  /** `e` is one of the entries that visiting Node `r` sets. */
  ghost predicate EmittedBy(heap: Heap, r: Ref, e: Entry<Fact>)
    requires r in heap
  {
    var props := GetProps(heap[r]);
    exists i, l :: 0 <= i < |props| && l in ParseObj(props[i].val, []) && e == LeafEntry(heap, r, props[i], l)
  }

  /** `e` is one of the entries that visiting some Node of `nodes` sets. */
  ghost predicate EmittedFrom(heap: Heap, nodes: set<Ref>, e: Entry<Fact>)
  {
    exists r :: r in nodes && r in heap && EmittedBy(heap, r, e)
  }

  /** A leaf of a property of a Node, the three things an entry of `collectPairs` comes from. */
  datatype Origin = Origin(node: Ref, prop: Field, leaf: Leaf)

  /** `e` is the entry set for leaf `o.leaf` of property `o.prop` of Node `o.node`. */
  ghost predicate SetBy(heap: Heap, o: Origin, e: Entry<Fact>)
  {
    && o.node in heap && o.prop in GetProps(heap[o.node]) && o.leaf in ParseObj(o.prop.val, [])
    && e == LeafEntry(heap, o.node, o.prop, o.leaf)
  }

  /** `source` gives every key of `collection` an origin among the `visited` Nodes. */
  ghost predicate Sourced(heap: Heap, visited: set<Ref>, collection: map<string, Entry<Fact>>, source: map<string, Origin>)
  {
    && source.Keys == collection.Keys
    && forall k :: k in collection ==> source[k].node in visited && SetBy(heap, source[k], collection[k])
  }

  lemma SourcedSet(heap: Heap, visited: set<Ref>, collection: map<string, Entry<Fact>>, source: map<string, Origin>,
                   key: string, e: Entry<Fact>, o: Origin)
    requires Sourced(heap, visited, collection, source)
    requires o.node in visited && SetBy(heap, o, e)
    ensures Sourced(heap, visited, collection[key := e], source[key := o])
  {
    var c, s := collection[key := e], source[key := o];
    forall k | k in c
      ensures s[k].node in visited && SetBy(heap, s[k], c[k])
    {
      if k != key {
        assert s[k] == source[k] && c[k] == collection[k];
      }
    }
  }

  lemma SourcedGrows(heap: Heap, visited: set<Ref>, visited': set<Ref>,
                     collection: map<string, Entry<Fact>>, source: map<string, Origin>)
    requires Sourced(heap, visited, collection, source) && visited <= visited'
    ensures Sourced(heap, visited', collection, source)
  {
  }

  /** Leaf `l` of property `prop` of Node `r` has been handled: its entry's key is in
      `collection` and, when it refers to a Node, that Node is in `visited`. */
  ghost predicate LeafDone(heap: Heap, r: Ref, prop: Field, l: Leaf, visited: set<Ref>, collection: map<string, Entry<Fact>>)
    requires r in heap
  {
    && (l.objValue.NodeVal? ==> l.objValue.ref in visited)
    && PathKey(LeafEntry(heap, r, prop, l).path) in collection
  }

  /** Property `prop` of Node `r` has been walked: every one of its leaves is handled. */
  ghost predicate PropDone(heap: Heap, r: Ref, prop: Field, visited: set<Ref>, collection: map<string, Entry<Fact>>)
    requires r in heap
  {
    forall l :: l in ParseObj(prop.val, []) ==> LeafDone(heap, r, prop, l, visited, collection)
  }

  /** Every property of Node `r` has been walked. */
  ghost predicate NodeDone(heap: Heap, r: Ref, visited: set<Ref>, collection: map<string, Entry<Fact>>)
    requires r in heap
  {
    var props := GetProps(heap[r]);
    forall i :: 0 <= i < |props| ==> PropDone(heap, r, props[i], visited, collection)
  }

  /** The value under `k` (and where it came from) is the one it had before, or a Node
      of `emitters` set it. */
  ghost predicate Kept(k: string, before: map<string, Entry<Fact>>, beforeSource: map<string, Origin>,
                       after: map<string, Entry<Fact>>, afterSource: map<string, Origin>, emitters: set<Ref>)
    requires k in after && k in afterSource
  {
    || (k in before && k in beforeSource && after[k] == before[k] && afterSource[k] == beforeSource[k])
    || afterSource[k].node in emitters
  }

  /** Entry `e` is what field `f` of Node `r` holds at `e.path[3..]`: the leaf value `v`,
      as a reference when it is a Node and as the field's `toString()` otherwise. */
  ghost predicate FieldLeaf(heap: Heap, r: Ref, e: Entry<Fact>, f: Field, v: Value)
    requires r in heap && |e.path| >= 3
  {
    && f in heap[r].entries && f.key == e.path[2]
    && At(f.val, e.path[3..]) == Some(v) && IsLeafValue(v)
    && Leaf(e.path[3..], v) in ParseObj(f.val, [])
    && (e.value.isRef <==> v.NodeVal?)
    && (e.value.isRef ==> e.value.text == Some(NodeTag(heap, v.ref)))
    && (!e.value.isRef ==> e.value.text == ToStr(f.val))
  }

  /** What `collectPairs` emits, whatever Node emitted it, has the promised shape. */
  lemma EmittedShape(heap: Heap, r: Ref, e: Entry<Fact>)
    requires HeapOk(heap) && r in heap && EmittedBy(heap, r, e)
    ensures |e.path| >= 3 && e.path[0] == TypeOf(heap[r]) && e.path[1] == IdOf(heap[r])
    ensures e.path[2] != "id" && e.path[2] != "type"
    ensures exists f, v :: FieldLeaf(heap, r, e, f, v)
  {
    var props := GetProps(heap[r]);
    var i, l :| 0 <= i < |props| && l in ParseObj(props[i].val, []) && e == LeafEntry(heap, r, props[i], l);
    var f := props[i];
    assert f in props;
    var k :| 0 <= k < |heap[r].entries| && heap[r].entries[k] == f;
    ParseObjSound(f.val, [], l);
    assert e.path[3..] == l.objPath;
    assert l.objPath[0..] == l.objPath;
    assert Leaf(e.path[3..], l.objValue) == l;
    assert e.value.isRef <==> l.objValue.NodeVal?;
    assert FieldLeaf(heap, r, e, f, l.objValue);
  }

  /** Node `b` is a leaf of a property of Node `r`, where `collectPairs` recurses. */
  ghost predicate Refers(heap: Heap, r: Ref, b: Ref)
    requires r in heap
  {
    exists prop, l :: prop in GetProps(heap[r]) && l in ParseObj(prop.val, []) && l.objValue == NodeVal(b)
  }

  /** The links `collectPairs` follows. */
  ghost function NodeLinks(heap: Heap): LinkMap
  {
    map r | r in heap.Keys :: set b | b in heap.Keys && Refers(heap, r, b)
  }

  /** The Nodes reachable from `n` through Node leaves. */
  ghost function Reachable(heap: Heap, n: Ref): set<Ref>
  {
    Reach(NodeLinks(heap), n, {})
  }

  /** A Node leaf of `sub` reaches, outside what a later cache holds, only Nodes that
      `sub` reaches outside what an earlier one held. */
  lemma LeafReach(heap: Heap, sub: Ref, prop: Field, l: Leaf, avoid: set<Ref>, cache: set<Ref>)
    requires Closed(heap) && sub in heap && prop in GetProps(heap[sub]) && l in ParseObj(prop.val, [])
    requires l.objValue.NodeVal? && sub !in avoid && avoid <= cache
    ensures l.objValue.ref in heap
    ensures Reach(NodeLinks(heap), l.objValue.ref, cache) <= Reach(NodeLinks(heap), sub, avoid)
  {
    assert prop in heap[sub].entries;
    var k :| 0 <= k < |heap[sub].entries| && heap[sub].entries[k] == prop;
    ParseObjRefsIn(prop.val, [], heap.Keys, l);
    assert Refers(heap, sub, l.objValue.ref);
    ReachMono(NodeLinks(heap), l.objValue.ref, avoid, cache);
    ReachStep(NodeLinks(heap), sub, l.objValue.ref, avoid);
  }

  /** A Node that a fully walked Node refers to is visited. */
  lemma DoneRefers(heap: Heap, r: Ref, b: Ref, visited: set<Ref>, collection: map<string, Entry<Fact>>)
    requires r in heap && NodeDone(heap, r, visited, collection) && Refers(heap, r, b)
    ensures b in visited
  {
    var props := GetProps(heap[r]);
    var prop, l :| prop in props && l in ParseObj(prop.val, []) && l.objValue == NodeVal(b);
    var i :| 0 <= i < |props| && props[i] == prop;
    assert PropDone(heap, r, props[i], visited, collection);
    assert LeafDone(heap, r, prop, l, visited, collection);
  }

  /** The Nodes a walk visits afresh, each fully walked, hold what their start reaches
      outside the Nodes visited before. */
  lemma DoneReach(heap: Heap, sub: Ref, before: set<Ref>, cache: set<Ref>, collection: map<string, Entry<Fact>>)
    requires before <= cache <= heap.Keys && sub in cache && sub !in before
    requires AllDone(heap, cache - before, cache, collection)
    ensures Reach(NodeLinks(heap), sub, before) <= cache
  {
    var links := NodeLinks(heap);
    forall r, b | r in cache - before && r in links && b in links[r] && b !in before
      ensures b in cache - before
    {
      DoneRefers(heap, r, b, cache, collection);
    }
    ReachWithin(links, sub, before, cache - before);
  }

  /**
   * The `collection` Map (with its insertion order, which `values()` follows) and the
   * `cache` Set that `collectPairs` threads through its recursive calls.
   */
  class Collector {
    const heap: Heap
    var order: seq<string>
    var collection: map<string, Entry<Fact>>
    var cache: set<Ref>
    /** How each key's current value was set: by which Node, property and leaf. */
    ghost var source: map<string, Origin>

    ghost predicate Valid()
      reads this
    {
      MapOk() && Sourced(heap, cache, collection, source)
    }

    /** `order` lists the keys of `collection` once each, and every entry sits under
        its own path's key. */
    ghost predicate MapOk()
      reads this
    {
      && Closed(heap)
      && cache <= heap.Keys
      && (forall i, j :: 0 <= i < j < |order| ==> order[i] != order[j])
      && (forall i :: 0 <= i < |order| ==> order[i] in collection)
      && (forall k :: k in collection ==> k in order)
      && (forall k :: k in collection ==> PathKey(collection[k].path) == k)
    }

    /** The default arguments: a new Map and a new Set. */
    constructor (heap: Heap)
      requires Closed(heap)
      ensures Valid() && this.heap == heap
      ensures order == [] && collection == map[] && cache == {}
    {
      this.heap := heap;
      order := [];
      collection := map[];
      cache := {};
      source := map[];
    }

    /** `[...collection.values()]`. */
    function Values(): (vs: seq<Entry<Fact>>)
      reads this
      requires MapOk()
      ensures |vs| == |order|
      ensures forall i :: 0 <= i < |order| ==> vs[i] == collection[order[i]]
    {
      var c, o := collection, order;
      seq(|o|, i requires 0 <= i < |o| && o[i] in c => c[o[i]])
    }

    /**
     * `collectPairs(sub, collection, cache)`. Returns whether `sub` was new, that is,
     * whether the source returns the collection rather than undefined.
     */
    method CollectPairs(sub: Ref) returns (returned: bool)
      requires Valid() && sub in heap
      modifies this
      decreases heap.Keys - cache, 2
      ensures Valid()
      ensures returned == (sub !in old(cache))
      ensures !returned ==> cache == old(cache) && collection == old(collection) && order == old(order)
      ensures old(cache) + {sub} <= cache
      ensures old(order) <= order && old(collection).Keys <= collection.Keys
      // every newly visited Node is fully walked, and what it refers to is visited
      ensures AllDone(heap, cache - old(cache), cache, collection)
      // each value is an old one or one that a newly visited Node set
      ensures AllKept(old(collection), old(source), collection, source, cache - old(cache))
      // the Nodes visited afresh are exactly those `sub` reaches outside the old cache
      ensures cache == old(cache) + Reach(NodeLinks(heap), sub, old(cache))
    {
      ghost var reach := Reach(NodeLinks(heap), sub, cache);
      ReachAvoids(NodeLinks(heap), sub, cache);
      if sub in cache {
        return false;
      }
      ReachSelf(NodeLinks(heap), sub, cache);
      ghost var bound := heap.Keys - cache;
      cache := cache + {sub};
      var props := GetProps(heap[sub]);
      var i := 0;
      while i < |props|
        invariant 0 <= i <= |props|
        invariant Valid()
        invariant old(cache) + {sub} <= cache
        invariant old(order) <= order && old(collection).Keys <= collection.Keys
        invariant AllDone(heap, cache - old(cache) - {sub}, cache, collection)
        invariant PropsDone(heap, sub, i, cache, collection)
        invariant AllKept(old(collection), old(source), collection, source, cache - old(cache))
        invariant cache <= old(cache) + reach
      {
        ghost var cache0, collection0, source0 := cache, collection, source;
        CollectProp(sub, i, bound, old(cache));
        AllDoneGrows(heap, cache0 - old(cache) - {sub}, cache0 - old(cache) - {sub}, cache0, collection0, cache, collection);
        AllDoneUnion(heap, cache0 - old(cache) - {sub}, cache - cache0, cache, collection);
        UnionOfSteps(old(cache) + {sub}, cache0, cache);
        assert cache0 - old(cache) - {sub} == cache0 - (old(cache) + {sub});
        PropsDoneGrows(heap, sub, i, cache0, collection0, cache, collection);
        AllKeptTrans(old(collection), old(source), collection0, source0, collection, source,
                     cache0 - old(cache), cache - cache0 + {sub}, cache - old(cache));
        i := i + 1;
      }
      PropsDoneAll(heap, sub, cache, collection);
      AllDoneUnion(heap, cache - old(cache) - {sub}, {sub}, cache, collection);
      assert cache - old(cache) - {sub} + {sub} == cache - old(cache);
      DoneReach(heap, sub, old(cache), cache, collection);
      return true;
    }

    /** `collection.set(path.join('/'), entry)`: a new key goes last, an old one keeps its
        place; `setter` is where the entry comes from. */
    method Set(e: Entry<Fact>, ghost setter: Origin)
      requires MapOk()
      modifies this
      ensures MapOk()
      ensures collection == old(collection)[PathKey(e.path) := e]
      ensures order == if PathKey(e.path) in old(collection) then old(order) else old(order) + [PathKey(e.path)]
      ensures source == old(source)[PathKey(e.path) := setter]
      ensures cache == old(cache) && old(order) <= order
    {
      var key := PathKey(e.path);
      if key !in collection {
        order := order + [key];
      }
      collection := collection[key := e];
      source := source[key := setter];
    }

    /** The callback `parseObj(...).forEach` runs for leaf `l` of property `prop` of `sub`:
        set the entry, then, when the leaf is a Node, recurse into it. */
    method CollectLeaf(sub: Ref, prop: Field, l: Leaf, ghost bound: set<Ref>, ghost avoid: set<Ref>)
      requires Valid() && sub in cache && prop in GetProps(heap[sub]) && l in ParseObj(prop.val, [])
      requires heap.Keys - cache < bound && avoid <= cache && sub !in avoid
      modifies this
      decreases bound, 0
      ensures Valid()
      ensures old(cache) <= cache
      ensures old(order) <= order && old(collection).Keys <= collection.Keys
      ensures AllDone(heap, cache - old(cache), cache, collection)
      ensures LeafDone(heap, sub, prop, l, cache, collection)
      ensures AllKept(old(collection), old(source), collection, source, cache - old(cache) + {sub})
      ensures cache <= old(cache) + Reach(NodeLinks(heap), sub, avoid)
    {
      SetLeaf(sub, prop, l);
      if IsNode(l.objValue) {
        LeafReach(heap, sub, prop, l, avoid, cache);
        ghost var cache0, collection0, source0 := cache, collection, source;
        var _ := CollectPairs(l.objValue.ref);
        AllKeptTrans(old(collection), old(source), collection0, source0, collection, source,
                     {sub}, cache - cache0, cache - old(cache) + {sub});
      }
    }

    /** The `collection.set(...)` of the callback for leaf `l` of property `prop` of `sub`. */
    method SetLeaf(sub: Ref, prop: Field, l: Leaf)
      requires Valid() && sub in cache && prop in GetProps(heap[sub]) && l in ParseObj(prop.val, [])
      modifies this
      ensures Valid() && cache == old(cache)
      ensures old(order) <= order && old(collection).Keys <= collection.Keys
      ensures PathKey(LeafEntry(heap, sub, prop, l).path) in collection
      ensures AllKept(old(collection), old(source), collection, source, {sub})
    {
      var e := LeafEntry(heap, sub, prop, l);
      SourcedSet(heap, cache, collection, source, PathKey(e.path), e, Origin(sub, prop, l));
      AllKeptSet(collection, source, PathKey(e.path), e, Origin(sub, prop, l));
      Set(e, Origin(sub, prop, l));
    }

    /** The callback `getProps(sub).forEach` runs for property `i` of `sub`. */
    method CollectProp(sub: Ref, i: nat, ghost bound: set<Ref>, ghost avoid: set<Ref>)
      requires Valid() && sub in cache && i < |GetProps(heap[sub])|
      requires heap.Keys - cache < bound && avoid <= cache && sub !in avoid
      modifies this
      decreases bound, 1
      ensures Valid()
      ensures old(cache) <= cache
      ensures old(order) <= order && old(collection).Keys <= collection.Keys
      ensures AllDone(heap, cache - old(cache), cache, collection)
      ensures PropDone(heap, sub, GetProps(heap[sub])[i], cache, collection)
      ensures AllKept(old(collection), old(source), collection, source, cache - old(cache) + {sub})
      ensures cache <= old(cache) + Reach(NodeLinks(heap), sub, avoid)
    {
      var prop := GetProps(heap[sub])[i];
      var leaves := ParseObj(prop.val, []);
      ghost var cache0, collection0, source0 := cache, collection, source;
      var j := 0;
      while j < |leaves|
        invariant 0 <= j <= |leaves|
        invariant Valid()
        invariant cache0 <= cache
        invariant old(order) <= order && collection0.Keys <= collection.Keys
        invariant AllDone(heap, cache - cache0, cache, collection)
        invariant LeavesDone(heap, sub, prop, leaves, j, cache, collection)
        invariant AllKept(collection0, source0, collection, source, cache - cache0 + {sub})
        invariant cache <= cache0 + Reach(NodeLinks(heap), sub, avoid)
      {
        ghost var cache1, collection1, source1 := cache, collection, source;
        CollectLeaf(sub, prop, leaves[j], bound, avoid);
        AllDoneGrows(heap, cache1 - cache0, cache1 - cache0, cache1, collection1, cache, collection);
        AllDoneUnion(heap, cache1 - cache0, cache - cache1, cache, collection);
        UnionOfSteps(cache0, cache1, cache);
        LeavesDoneStep(heap, sub, prop, leaves, j, cache1, collection1, cache, collection);
        AllKeptTrans(collection0, source0, collection1, source1, collection, source,
                     cache1 - cache0 + {sub}, cache - cache1 + {sub}, cache - cache0 + {sub});
        j := j + 1;
      }
      LeavesDoneAll(heap, sub, prop, cache, collection);
    }
  }

  /** The first `n` properties of Node `r` have been walked. */
  ghost predicate PropsDone(heap: Heap, r: Ref, n: nat, visited: set<Ref>, collection: map<string, Entry<Fact>>)
    requires r in heap
  {
    var props := GetProps(heap[r]);
    n <= |props| && forall i :: 0 <= i < n ==> PropDone(heap, r, props[i], visited, collection)
  }

  lemma PropsDoneGrows(heap: Heap, r: Ref, n: nat, v: set<Ref>, c: map<string, Entry<Fact>>,
                       v': set<Ref>, c': map<string, Entry<Fact>>)
    requires r in heap && v <= v' && c.Keys <= c'.Keys && n < |GetProps(heap[r])|
    requires PropsDone(heap, r, n, v, c) && PropDone(heap, r, GetProps(heap[r])[n], v', c')
    ensures PropsDone(heap, r, n + 1, v', c')
  {
    var props := GetProps(heap[r]);
    forall i | 0 <= i < n
      ensures PropDone(heap, r, props[i], v', c')
    {
      PropDoneGrows(heap, r, props[i], v, c, v', c');
    }
  }

  lemma PropsDoneAll(heap: Heap, r: Ref, v: set<Ref>, c: map<string, Entry<Fact>>)
    requires r in heap && PropsDone(heap, r, |GetProps(heap[r])|, v, c)
    ensures NodeDone(heap, r, v, c)
  {
  }

  /** The first `n` of `leaves` have been handled. */
  ghost predicate LeavesDone(heap: Heap, r: Ref, prop: Field, leaves: seq<Leaf>, n: nat,
                             visited: set<Ref>, collection: map<string, Entry<Fact>>)
    requires r in heap
  {
    n <= |leaves| && forall j :: 0 <= j < n ==> LeafDone(heap, r, prop, leaves[j], visited, collection)
  }

  lemma LeavesDoneStep(heap: Heap, r: Ref, prop: Field, leaves: seq<Leaf>, n: nat, v: set<Ref>,
                       c: map<string, Entry<Fact>>, v': set<Ref>, c': map<string, Entry<Fact>>)
    requires r in heap && v <= v' && c.Keys <= c'.Keys && n < |leaves|
    requires LeavesDone(heap, r, prop, leaves, n, v, c) && LeafDone(heap, r, prop, leaves[n], v', c')
    ensures LeavesDone(heap, r, prop, leaves, n + 1, v', c')
  {
    forall j | 0 <= j < n
      ensures LeafDone(heap, r, prop, leaves[j], v', c')
    {
      LeafDoneGrows(heap, r, prop, leaves[j], v, c, v', c');
    }
  }

  lemma LeavesDoneAll(heap: Heap, r: Ref, prop: Field, v: set<Ref>, c: map<string, Entry<Fact>>)
    requires r in heap
    requires LeavesDone(heap, r, prop, ParseObj(prop.val, []), |ParseObj(prop.val, [])|, v, c)
    ensures PropDone(heap, r, prop, v, c)
  {
    var leaves := ParseObj(prop.val, []);
    forall l | l in leaves
      ensures LeafDone(heap, r, prop, l, v, c)
    {
      var j :| 0 <= j < |leaves| && leaves[j] == l;
    }
  }

  /** Every key of `after` is kept from `before` or set by a Node of `emitters`. */
  ghost predicate AllKept(before: map<string, Entry<Fact>>, beforeSource: map<string, Origin>,
                          after: map<string, Entry<Fact>>, afterSource: map<string, Origin>, emitters: set<Ref>)
  {
    forall k :: k in after ==> k in afterSource && Kept(k, before, beforeSource, after, afterSource, emitters)
  }

  lemma AllKeptSet(c: map<string, Entry<Fact>>, s: map<string, Origin>, key: string, e: Entry<Fact>, o: Origin)
    requires c.Keys == s.Keys
    ensures AllKept(c, s, c[key := e], s[key := o], {o.node})
  {
  }

  lemma AllKeptTrans(c0: map<string, Entry<Fact>>, s0: map<string, Origin>,
                     c1: map<string, Entry<Fact>>, s1: map<string, Origin>,
                     c2: map<string, Entry<Fact>>, s2: map<string, Origin>,
                     e1: set<Ref>, e2: set<Ref>, e: set<Ref>)
    requires e1 <= e && e2 <= e
    requires AllKept(c0, s0, c1, s1, e1) && AllKept(c1, s1, c2, s2, e2)
    ensures AllKept(c0, s0, c2, s2, e)
  {
    forall k | k in c2
      ensures k in s2 && Kept(k, c0, s0, c2, s2, e)
    {
      KeptTrans(k, c0, s0, c1, s1, c2, s2, e1, e2, e);
    }
  }

  /** Every Node of `nodes` is fully walked. */
  ghost predicate AllDone(heap: Heap, nodes: set<Ref>, visited: set<Ref>, collection: map<string, Entry<Fact>>)
    requires nodes <= heap.Keys
  {
    forall r :: r in nodes ==> NodeDone(heap, r, visited, collection)
  }

  /** What two growth steps add is what both add together. */
  lemma UnionOfSteps(a: set<Ref>, b: set<Ref>, c: set<Ref>)
    requires a <= b <= c
    ensures b - a + (c - b) == c - a
  {
  }

  lemma AllDoneGrows(heap: Heap, nodes: set<Ref>, nodes': set<Ref>, v: set<Ref>, c: map<string, Entry<Fact>>,
                     v': set<Ref>, c': map<string, Entry<Fact>>)
    requires nodes' <= nodes <= heap.Keys && v <= v' && c.Keys <= c'.Keys
    requires AllDone(heap, nodes, v, c)
    ensures AllDone(heap, nodes', v', c')
  {
    forall r | r in nodes'
      ensures NodeDone(heap, r, v', c')
    {
      NodeDoneGrows(heap, r, v, c, v', c');
    }
  }

  /** Two steps, each of which keeps or re-sets every key, together keep or re-set it. */
  lemma KeptTrans(k: string, c0: map<string, Entry<Fact>>, s0: map<string, Origin>,
                  c1: map<string, Entry<Fact>>, s1: map<string, Origin>,
                  c2: map<string, Entry<Fact>>, s2: map<string, Origin>,
                  e1: set<Ref>, e2: set<Ref>, e: set<Ref>)
    requires e1 <= e && e2 <= e && k in c2 && k in s2
    requires k in c1 && k in s1 ==> Kept(k, c0, s0, c1, s1, e1)
    requires Kept(k, c1, s1, c2, s2, e2)
    ensures Kept(k, c0, s0, c2, s2, e)
  {
  }

  lemma AllDoneUnion(heap: Heap, a: set<Ref>, b: set<Ref>, v: set<Ref>, c: map<string, Entry<Fact>>)
    requires a <= heap.Keys && b <= heap.Keys
    requires AllDone(heap, a, v, c) && AllDone(heap, b, v, c)
    ensures AllDone(heap, a + b, v, c)
  {
  }

  lemma LeafDoneGrows(heap: Heap, r: Ref, prop: Field, l: Leaf, v: set<Ref>, c: map<string, Entry<Fact>>,
                      v': set<Ref>, c': map<string, Entry<Fact>>)
    requires r in heap && v <= v' && c.Keys <= c'.Keys
    requires LeafDone(heap, r, prop, l, v, c)
    ensures LeafDone(heap, r, prop, l, v', c')
  {
  }

  /** An entry with an origin is one its Node emits. */
  lemma SetByEmitted(heap: Heap, o: Origin, e: Entry<Fact>)
    requires SetBy(heap, o, e)
    ensures EmittedBy(heap, o.node, e)
  {
    var props := GetProps(heap[o.node]);
    var i :| 0 <= i < |props| && props[i] == o.prop;
  }

  lemma PropDoneGrows(heap: Heap, r: Ref, prop: Field, v: set<Ref>, c: map<string, Entry<Fact>>,
                      v': set<Ref>, c': map<string, Entry<Fact>>)
    requires r in heap && v <= v' && c.Keys <= c'.Keys
    requires PropDone(heap, r, prop, v, c)
    ensures PropDone(heap, r, prop, v', c')
  {
  }

  lemma NodeDoneGrows(heap: Heap, r: Ref, v: set<Ref>, c: map<string, Entry<Fact>>,
                      v': set<Ref>, c': map<string, Entry<Fact>>)
    requires r in heap && v <= v' && c.Keys <= c'.Keys
    requires NodeDone(heap, r, v, c)
    ensures NodeDone(heap, r, v', c')
  {
    var props := GetProps(heap[r]);
    forall i | 0 <= i < |props|
      ensures PropDone(heap, r, props[i], v', c')
    {
      PropDoneGrows(heap, r, props[i], v, c, v', c');
    }
  }

  /**
   * `collectPairs(n)` with its default arguments, then `[...pairs.values()]`: the
   * Nodes visited are exactly those reachable from `n`; every entry was set by one of
   * them, every leaf of each of them has its key among the entries, and no key comes
   * twice (a later leaf with the same key overwrites an earlier one). `visited` is the
   * final `cache` and `collection` the final Map.
   */
  method PairsOf(heap: Heap, n: Ref) returns (vs: seq<Entry<Fact>>, ghost visited: set<Ref>, ghost collection: map<string, Entry<Fact>>)
    requires Closed(heap) && n in heap
    ensures n in visited && visited <= heap.Keys
    ensures visited == Reachable(heap, n)
    // every visited Node has all its leaves in the collection, and what they refer to is visited
    ensures AllDone(heap, visited, visited, collection)
    // the values are those of the collection, under their own keys, each once
    ensures forall i :: 0 <= i < |vs| ==> PathKey(vs[i].path) in collection && collection[PathKey(vs[i].path)] == vs[i]
    ensures forall k :: k in collection ==> exists i :: 0 <= i < |vs| && PathKey(vs[i].path) == k
    ensures forall i, j :: 0 <= i < j < |vs| ==> PathKey(vs[i].path) != PathKey(vs[j].path)
    // and each was emitted by a visited Node
    ensures forall i :: 0 <= i < |vs| ==> EmittedFrom(heap, visited, vs[i])
    // every leaf of `n`, and of every Node it reaches, has its entry's key among the values
    ensures Covers(heap, n, vs)
    ensures forall r :: r in visited ==> Covers(heap, r, vs)
  {
    var c := new Collector(heap);
    var _ := c.CollectPairs(n);
    vs, visited, collection := c.Values(), c.cache, c.collection;
    assert visited - {} == visited && {} + visited == visited;
    CollectedValues(heap, visited, c.order, collection, c.source, vs);
  }

  /** What the final Map and Set of a walk from scratch say about its values. */
  lemma CollectedValues(heap: Heap, visited: set<Ref>, order: seq<string>, collection: map<string, Entry<Fact>>,
                        source: map<string, Origin>, vs: seq<Entry<Fact>>)
    requires Sourced(heap, visited, collection, source) && visited <= heap.Keys
    requires AllDone(heap, visited, visited, collection)
    requires forall i, j :: 0 <= i < j < |order| ==> order[i] != order[j]
    requires forall k :: k in collection ==> k in order && PathKey(collection[k].path) == k
    requires |vs| == |order| && forall i :: 0 <= i < |order| ==> order[i] in collection && vs[i] == collection[order[i]]
    ensures forall i :: 0 <= i < |vs| ==> PathKey(vs[i].path) in collection && collection[PathKey(vs[i].path)] == vs[i]
    ensures forall k :: k in collection ==> exists i :: 0 <= i < |vs| && PathKey(vs[i].path) == k
    ensures forall i, j :: 0 <= i < j < |vs| ==> PathKey(vs[i].path) != PathKey(vs[j].path)
    ensures forall i :: 0 <= i < |vs| ==> EmittedFrom(heap, visited, vs[i])
    ensures forall r :: r in visited ==> Covers(heap, r, vs)
  {
    ValuesOfCollection(heap, visited, order, collection, source, vs);
    forall r | r in visited
      ensures Covers(heap, r, vs)
    {
      DoneCovers(heap, r, visited, collection, vs);
    }
  }

  /** Every leaf of every property of Node `r` has its entry's key among `vs`. */
  ghost predicate Covers(heap: Heap, r: Ref, vs: seq<Entry<Fact>>)
    requires r in heap
  {
    forall prop, l :: prop in GetProps(heap[r]) && l in ParseObj(prop.val, []) ==>
      exists i :: 0 <= i < |vs| && PathKey(vs[i].path) == PathKey(LeafEntry(heap, r, prop, l).path)
  }

  lemma DoneCovers(heap: Heap, r: Ref, visited: set<Ref>, collection: map<string, Entry<Fact>>, vs: seq<Entry<Fact>>)
    requires r in heap && NodeDone(heap, r, visited, collection)
    requires forall k :: k in collection ==> exists i :: 0 <= i < |vs| && PathKey(vs[i].path) == k
    ensures Covers(heap, r, vs)
  {
    var props := GetProps(heap[r]);
    forall prop, l | prop in props && l in ParseObj(prop.val, [])
      ensures exists i :: 0 <= i < |vs| && PathKey(vs[i].path) == PathKey(LeafEntry(heap, r, prop, l).path)
    {
      var j :| 0 <= j < |props| && props[j] == prop;
      assert PropDone(heap, r, props[j], visited, collection);
      assert LeafDone(heap, r, prop, l, visited, collection);
    }
  }

  /** Covering survives the addition of entries around. */
  lemma CoversGrows(heap: Heap, r: Ref, vs: seq<Entry<Fact>>, ws: seq<Entry<Fact>>)
    requires r in heap && Covers(heap, r, vs)
    requires forall i :: 0 <= i < |vs| ==> vs[i] in ws
    ensures Covers(heap, r, ws)
  {
    forall prop, l | prop in GetProps(heap[r]) && l in ParseObj(prop.val, [])
      ensures exists i :: 0 <= i < |ws| && PathKey(ws[i].path) == PathKey(LeafEntry(heap, r, prop, l).path)
    {
      var i :| 0 <= i < |vs| && PathKey(vs[i].path) == PathKey(LeafEntry(heap, r, prop, l).path);
      var j :| 0 <= j < |ws| && ws[j] == vs[i];
    }
  }

  lemma ValuesOfCollection(heap: Heap, visited: set<Ref>, order: seq<string>, collection: map<string, Entry<Fact>>,
                           source: map<string, Origin>, vs: seq<Entry<Fact>>)
    requires Sourced(heap, visited, collection, source) && visited <= heap.Keys
    requires forall k :: k in collection ==> k in order && PathKey(collection[k].path) == k
    requires |vs| == |order| && forall i :: 0 <= i < |order| ==> order[i] in collection && vs[i] == collection[order[i]]
    ensures forall k :: k in collection ==> exists i :: 0 <= i < |vs| && PathKey(vs[i].path) == k
    ensures forall i :: 0 <= i < |vs| ==> EmittedFrom(heap, visited, vs[i])
  {
    forall i | 0 <= i < |vs|
      ensures EmittedFrom(heap, visited, vs[i])
    {
      var o := source[order[i]];
      assert o.node in visited && SetBy(heap, o, collection[order[i]]);
      SetByEmitted(heap, o, vs[i]);
    }
    forall k | k in collection
      ensures exists i :: 0 <= i < |vs| && PathKey(vs[i].path) == k
    {
      var i :| 0 <= i < |order| && order[i] == k;
      assert vs[i] == collection[k];
    }
  }

  /** `block` is what `[...collectPairs(n).values()]` yields: entries set by Nodes `n`
      reaches, covering every leaf of each of those Nodes, no key twice. */
  ghost predicate FlattenedFrom(heap: Heap, n: Ref, block: seq<Entry<Fact>>)
  {
    && (forall i :: 0 <= i < |block| ==> EmittedFrom(heap, Reachable(heap, n), block[i]))
    && (forall r :: r in Reachable(heap, n) && r in heap ==> Covers(heap, r, block))
    && (forall i, j :: 0 <= i < j < |block| ==> PathKey(block[i].path) != PathKey(block[j].path))
  }
}
