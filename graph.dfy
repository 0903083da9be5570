/**
 * The entity model: JavaScript property values and the heap of Node objects.
 *
 * Plain (non-Node) objects and arrays are held inline, as trees; every object that
 * carries both a `type` and an `id` key is a Node and lives in the heap, so that
 * references between Nodes may form cycles and are compared by identity (`Ref`).
 */
module Graph {
  import opened Js

  type Ref = nat

  datatype Value =
    | Undef                        // null or undefined
    | Prim(text: string)           // a string, number or boolean, with its toString() text
    | Obj(fields: seq<Field>)      // a plain object, its Object.entries in order
    | Arr(elems: seq<Value>)       // an array
    | NodeVal(ref: Ref)            // a reference to a Node object in the heap

  datatype Field = Field(key: string, val: Value)

  /** A Node object: its Object.entries in enumeration order, `type` and `id` included. */
  datatype NodeRecord = NodeRecord(entries: seq<Field>)

  type Heap = map<Ref, NodeRecord>

  /** `isNode`: an object that has both `type` and `id`; in this model, a heap reference. */
  predicate IsNode(v: Value)
  {
    v.NodeVal?
  }

  function Lookup(fields: seq<Field>, k: string): (r: Option<Value>)
    ensures r.Some? <==> exists i :: 0 <= i < |fields| && fields[i].key == k
  {
    if |fields| == 0 then None
    else if fields[0].key == k then Some(fields[0].val)
    else Lookup(fields[1..], k)
  }

  /** A Node made by the schema layer: its `type` and `id` are strings. */
  predicate NodeOk(rec: NodeRecord)
  {
    && Lookup(rec.entries, "type").Some? && Lookup(rec.entries, "type").value.Prim?
    && Lookup(rec.entries, "id").Some? && Lookup(rec.entries, "id").value.Prim?
  }

  /** `${node[k]}` of a Node's property (absent properties read as undefined). */
  function PropText(rec: NodeRecord, k: string): (s: string)
    ensures Lookup(rec.entries, k).Some? && Lookup(rec.entries, k).value.Prim? ==>
              s == Lookup(rec.entries, k).value.text
  {
    match Lookup(rec.entries, k)
    case Some(v) => Interpolate(ToStr(v))
    case None => "undefined"
  }

  function TypeOf(rec: NodeRecord): string
  {
    PropText(rec, "type")
  }

  function IdOf(rec: NodeRecord): string
  {
    PropText(rec, "id")
  }

  /** "type:id" of the Node `r`, as the template `${n.type}:${n.id}` writes it. */
  function NodeTag(heap: Heap, r: Ref): string
  {
    if r in heap then TypeOf(heap[r]) + ":" + IdOf(heap[r]) else "undefined:undefined"
  }

  /** Every reference held (at any depth) by `v` points into `dom`. */
  predicate RefsIn(v: Value, dom: set<Ref>)
  {
    match v
    case NodeVal(r) => r in dom
    case Obj(fields) => forall i :: 0 <= i < |fields| ==> RefsIn(fields[i].val, dom)
    case Arr(elems) => forall i :: 0 <= i < |elems| ==> RefsIn(elems[i], dom)
    case _ => true
  }

  /** No plain object repeats a key (true of every JavaScript object). */
  predicate UniqueKeys(v: Value)
  {
    match v
    case Obj(fields) =>
      && (forall i, j :: 0 <= i < j < |fields| ==> fields[i].key != fields[j].key)
      && (forall i :: 0 <= i < |fields| ==> UniqueKeys(fields[i].val))
    case Arr(elems) => forall i :: 0 <= i < |elems| ==> UniqueKeys(elems[i])
    case _ => true
  }

  /** No reference held by a Node dangles. */
  predicate Closed(heap: Heap)
  {
    forall r, i :: r in heap && 0 <= i < |heap[r].entries| ==> RefsIn(heap[r].entries[i].val, heap.Keys)
  }

  /** A well-formed object graph: no reference dangles, every Node has string
      `type`/`id`, and no object repeats a key. */
  predicate HeapOk(heap: Heap)
  {
    && Closed(heap)
    && (forall r :: r in heap ==> NodeOk(heap[r]))
    && (forall r, i :: r in heap && 0 <= i < |heap[r].entries| ==> UniqueKeys(heap[r].entries[i].val))
  }

  /** `getProps`: the entries of a Node other than `id` and `type`, in order. */
  function GetProps(rec: NodeRecord): (props: seq<Field>)
    ensures forall f :: f in props <==> f in rec.entries && f.key != "id" && f.key != "type"
    ensures |props| <= |rec.entries|
  {
    FilterProps(rec.entries)
  }

  function FilterProps(fields: seq<Field>): (props: seq<Field>)
    ensures forall f :: f in props <==> f in fields && f.key != "id" && f.key != "type"
    ensures |props| <= |fields|
  {
    if |fields| == 0 then []
    else if fields[0].key == "id" || fields[0].key == "type" then FilterProps(fields[1..])
    else [fields[0]] + FilterProps(fields[1..])
  }

  /** `obj?.toString()`: undefined for null/undefined, "[object Object]" for objects,
      the comma-joined element texts (null/undefined as "") for arrays. */
  function ToStr(v: Value): (r: JsString)
    ensures r.None? <==> v.Undef?
    ensures v.Prim? ==> r == Some(v.text)
  {
    match v
    case Undef => None
    case Prim(t) => Some(t)
    case Obj(_) => Some("[object Object]")
    case NodeVal(_) => Some("[object Object]")
    case Arr(elems) => Some(JoinComma(elems))
  }

  function JoinComma(elems: seq<Value>): string
  {
    if |elems| == 0 then ""
    else
      var first := if elems[0].Undef? then "" else ToStr(elems[0]).value;
      if |elems| == 1 then first else first + "," + JoinComma(elems[1..])
  }

  // ---------------------------------------------------------------------------
  // Reachability between Nodes
  // ---------------------------------------------------------------------------

  /** For each Node, the Nodes it refers to directly. */
  type LinkMap = map<Ref, set<Ref>>

  /** `p` is a walk along links from `a` to `b` that passes through no Node of `avoid`. */
  ghost predicate Walk(links: LinkMap, p: seq<Ref>, avoid: set<Ref>, a: Ref, b: Ref)
  {
    && |p| >= 1 && p[0] == a && p[|p| - 1] == b
    && (forall i :: 0 <= i < |p| ==> p[i] in links && p[i] !in avoid)
    && (forall i :: 0 <= i < |p| - 1 ==> p[i] in links && p[i + 1] in links[p[i]])
  }

  /** The Nodes reachable from `n` by walks that avoid `avoid`. */
  ghost function Reach(links: LinkMap, n: Ref, avoid: set<Ref>): set<Ref>
  {
    set r | r in links.Keys && exists p :: Walk(links, p, avoid, n, r)
  }

  /** A Node outside `avoid` reaches itself. */
  lemma ReachSelf(links: LinkMap, n: Ref, avoid: set<Ref>)
    requires n in links && n !in avoid
    ensures n in Reach(links, n, avoid)
  {
    assert Walk(links, [n], avoid, n, n);
  }

  /** Nothing is reachable from an avoided Node, and no reachable Node is avoided. */
  lemma ReachAvoids(links: LinkMap, n: Ref, avoid: set<Ref>)
    ensures Reach(links, n, avoid) !! avoid
    ensures n in avoid ==> Reach(links, n, avoid) == {}
  {
    forall r | r in Reach(links, n, avoid)
      ensures r !in avoid && n !in avoid
    {
      var p :| Walk(links, p, avoid, n, r);
      assert p[0] == n && p[|p| - 1] == r;
    }
  }

  /** What a linked Node reaches, its linker reaches too. */
  lemma ReachStep(links: LinkMap, a: Ref, b: Ref, avoid: set<Ref>)
    requires a in links && a !in avoid && b in links[a]
    ensures Reach(links, b, avoid) <= Reach(links, a, avoid)
  {
    forall r | r in Reach(links, b, avoid)
      ensures r in Reach(links, a, avoid)
    {
      var p :| Walk(links, p, avoid, b, r);
      var q := [a] + p;
      assert forall i :: 1 <= i < |q| ==> q[i] == p[i - 1];
      assert Walk(links, q, avoid, a, r);
    }
  }

  /** Avoiding more reaches less. */
  lemma ReachMono(links: LinkMap, n: Ref, fewer: set<Ref>, more: set<Ref>)
    requires fewer <= more
    ensures Reach(links, n, more) <= Reach(links, n, fewer)
  {
    forall r | r in Reach(links, n, more)
      ensures r in Reach(links, n, fewer)
    {
      var p :| Walk(links, p, more, n, r);
      assert Walk(links, p, fewer, n, r);
    }
  }

  /** A set closed under the links that leave `avoid` aside. */
  ghost predicate ClosedBeside(links: LinkMap, s: set<Ref>, avoid: set<Ref>)
  {
    forall r, b :: r in s && r in links && b in links[r] && b !in avoid ==> b in s
  }

  /** A set that holds `n` and is closed under the links holds everything `n` reaches. */
  lemma ReachWithin(links: LinkMap, n: Ref, avoid: set<Ref>, s: set<Ref>)
    requires n in s && ClosedBeside(links, s, avoid)
    ensures Reach(links, n, avoid) <= s
  {
    forall r | r in Reach(links, n, avoid)
      ensures r in s
    {
      var p :| Walk(links, p, avoid, n, r);
      WalkWithin(links, p, avoid, n, r, s);
    }
  }

  lemma {:induction false} WalkWithin(links: LinkMap, p: seq<Ref>, avoid: set<Ref>, a: Ref, b: Ref, s: set<Ref>)
    requires Walk(links, p, avoid, a, b) && a in s && ClosedBeside(links, s, avoid)
    ensures b in s
    decreases |p|
  {
    if |p| > 1 {
      var q := p[..|p| - 1];
      assert Walk(links, q, avoid, a, q[|q| - 1]);
      WalkWithin(links, q, avoid, a, q[|q| - 1], s);
      assert p[|p| - 2] == q[|q| - 1];
    }
  }
}
