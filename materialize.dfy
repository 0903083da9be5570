/**
 * The materializer (index.ts): `setDeep` writes a value at a nested path of a plain
 * object, creating the missing intermediate objects, and `entriesToNodes` groups
 * entries by "type:id" into node objects, storing each reference entry as the target
 * node's object itself, so that nodes link to one another.
 *
 * Objects live in a store indexed by `ObjId`, because the same object can be reachable
 * from several places (a node linked from several others) and writes through one path
 * are seen through every other.
 */
module Materialize {
  import opened Js
  import opened Entries

  type ObjId = nat

  /** A property value: undefined, a string, or an object. */
  datatype MVal = MUndef | MStr(s: string) | MRef(id: ObjId)

  /** A string-or-undefined as a property value. */
  function FromJs(x: JsString): (v: MVal)
    ensures v.MUndef? <==> x.None?
    ensures x.Some? ==> v == MStr(x.value)
  {
    match x
    case None => MUndef
    case Some(s) => MStr(s)
  }

  /** The objects, each a map from its own keys to their values. */
  type Objects = map<ObjId, map<string, MVal>>

  predicate ValOk(objs: Objects, v: MVal)
  {
    v.MRef? ==> v.id in objs
  }

  predicate ObjOk(objs: Objects, props: map<string, MVal>)
  {
    forall k :: k in props ==> ValOk(objs, props[k])
  }

  /** What `obj[path[0]][path[1]]...` reads; `None` where a step finds nothing to enter. */
  function Follow(objs: Objects, o: ObjId, path: seq<string>): Option<MVal>
    decreases |path|
  {
    if |path| == 0 then Some(MRef(o))
    else if o !in objs || path[0] !in objs[o] then None
    else if |path| == 1 then Some(objs[o][path[0]])
    else match objs[o][path[0]]
      case MRef(c) => Follow(objs, c, path[1..])
      case _ => None
  }

  /**
   * `setDeep(path, value, o)` completes without throwing: the path is not empty, and
   * walking it never meets a present property that is not an object (a string or
   * undefined there makes the `in` test or the assignment a TypeError). Once a key is
   * missing, the rest of the walk is through objects it creates, so nothing can fail.
   */
  predicate Walkable(objs: Objects, o: ObjId, path: seq<string>)
    decreases |path|
  {
    && |path| >= 1
    && o in objs
    && (|path| == 1 || path[0] !in objs[o] ||
        (objs[o][path[0]].MRef? && Walkable(objs, objs[o][path[0]].id, path[1..])))
  }

  /** Key of the node object an entry of `entriesToNodes` belongs to: `${type}:${id}`. */
  function SubjectKey(path: seq<string>): string
  {
    Interpolate(PathAt(path, 0)) + ":" + Interpolate(PathAt(path, 1))
  }

  /** `path[i]`, undefined past the end. */
  function PathAt(path: seq<string>, i: nat): (x: JsString)
    ensures x.Some? <==> i < |path|
  {
    if i < |path| then Some(path[i]) else None
  }

  /** Key of the node a reference entry's value "type:id" names. */
  function TargetKey(value: string): string
  {
    var (t, i) := SplitColon(value);
    t + ":" + Interpolate(i)
  }

  /** The keys an entry makes sure exist, in the order it creates them. */
  function EntryKeys(e: Entry<Fact>): seq<string>
    requires EntryOk(e)
  {
    if e.value.isRef then [SubjectKey(e.path), TargetKey(e.value.text.value)] else [SubjectKey(e.path)]
  }

  /** `nodes[k] ??= ...`: a key is appended the first time it is seen. */
  function AddKey(order: seq<string>, k: string): seq<string>
  {
    if k in order then order else order + [k]
  }

  /** Entries `entriesToNodes` can process without throwing: a path with at least a
      type, an id and one more key, and a string value on every reference entry. */
  predicate EntryOk(e: Entry<Fact>)
  {
    |e.path| >= 3 && (e.value.isRef ==> e.value.text.Some?)
  }

  /** The node keys, in `Object.values` order, that the entries create. Keys contain ':',
      so none is an array index and enumeration follows insertion. */
  function NodeKeyOrder(es: seq<Entry<Fact>>): seq<string>
    requires forall i :: 0 <= i < |es| ==> EntryOk(es[i])
  {
    if |es| == 0 then []
    else
      AddKeys(NodeKeyOrder(es[..|es| - 1]), EntryKeys(es[|es| - 1]))
  }

  function AddKeys(order: seq<string>, ks: seq<string>): seq<string>
    decreases |ks|
  {
    if |ks| == 0 then order else AddKeys(AddKey(order, ks[0]), ks[1..])
  }

  predicate Distinct(s: seq<string>)
  {
    forall a, b :: 0 <= a < b < |s| ==> s[a] != s[b]
  }

  /** Adding keys keeps every key once, and adds just the keys given. */
  lemma {:induction false} AddKeysMembers(order: seq<string>, ks: seq<string>)
    ensures forall k :: k in AddKeys(order, ks) <==> k in order || k in ks
    ensures Distinct(order) ==> Distinct(AddKeys(order, ks))
    decreases |ks|
  {
    if |ks| > 0 {
      AddKeysMembers(AddKey(order, ks[0]), ks[1..]);
      assert forall k :: k in ks <==> k == ks[0] || k in ks[1..];
    }
  }

  lemma NodeKeyOrderNext(es: seq<Entry<Fact>>, i: nat)
    requires i < |es| && forall j :: 0 <= j <= i ==> EntryOk(es[j])
    ensures NodeKeyOrder(es[..i + 1]) == AddKeys(NodeKeyOrder(es[..i]), EntryKeys(es[i]))
  {
    assert es[..i + 1][..i] == es[..i];
  }

  /** Every key some entry names as its subject or, for a reference, its target. */
  function NodeKeys(es: seq<Entry<Fact>>): set<string>
    requires forall i :: 0 <= i < |es| ==> EntryOk(es[i])
  {
    set i, k | 0 <= i < |es| && k in EntryKeys(es[i]) :: k
  }

  /** The keys of all entries are those of all but the last, and those of the last. */
  lemma NodeKeysSnoc(es: seq<Entry<Fact>>)
    requires |es| > 0 && forall i :: 0 <= i < |es| ==> EntryOk(es[i])
    ensures forall k :: k in NodeKeys(es) <==> k in NodeKeys(es[..|es| - 1]) || k in EntryKeys(es[|es| - 1])
  {
    var init := es[..|es| - 1];
    forall k
      ensures k in NodeKeys(es) <==> k in NodeKeys(init) || k in EntryKeys(es[|es| - 1])
    {
      if k in NodeKeys(es) {
        var i :| 0 <= i < |es| && k in EntryKeys(es[i]);
        if i < |es| - 1 {
          assert init[i] == es[i];
        }
      }
      if k in NodeKeys(init) {
        var i :| 0 <= i < |init| && k in EntryKeys(init[i]);
        assert es[i] == init[i];
      }
    }
  }

  /** `NodeKeyOrder` lists each key of `NodeKeys` exactly once. */
  lemma {:induction false} NodeKeyOrderIsNodeKeys(es: seq<Entry<Fact>>)
    requires forall i :: 0 <= i < |es| ==> EntryOk(es[i])
    ensures forall k :: k in NodeKeyOrder(es) <==> k in NodeKeys(es)
    ensures forall a, b :: 0 <= a < b < |NodeKeyOrder(es)| ==> NodeKeyOrder(es)[a] != NodeKeyOrder(es)[b]
  {
    if |es| > 0 {
      var init := es[..|es| - 1];
      NodeKeyOrderIsNodeKeys(init);
      AddKeysMembers(NodeKeyOrder(init), EntryKeys(es[|es| - 1]));
      NodeKeysSnoc(es);
    }
  }

  /** Following a path of two or more keys goes through the child under the first. */
  lemma FollowStep(objs: Objects, o: ObjId, path: seq<string>, c: ObjId)
    requires |path| >= 2 && o in objs && path[0] in objs[o] && objs[o][path[0]] == MRef(c)
    ensures Follow(objs, o, path) == Follow(objs, c, path[1..])
  {
  }

  /** The node map of `entriesToNodes`: `order` lists its keys, and every node is an
      object of the store created since `base`, a different one per key. */
  ghost predicate NodesOk(objs: Objects, base: set<ObjId>, nodes: map<string, ObjId>, order: seq<string>)
  {
    && (forall k :: k in nodes <==> k in order)
    && (forall k :: k in nodes ==> nodes[k] in objs && nodes[k] !in base)
    && (forall k1, k2 :: k1 in nodes && k2 in nodes && k1 != k2 ==> nodes[k1] != nodes[k2])
  }

  lemma NodesOkGrows(objs: Objects, objs': Objects, base: set<ObjId>, nodes: map<string, ObjId>, order: seq<string>)
    requires NodesOk(objs, base, nodes, order) && objs.Keys <= objs'.Keys
    ensures NodesOk(objs', base, nodes, order)
  {
  }

  // ---------------------------------------------------------------------------
  // The store as a value, and what `setDeep` and `entriesToNodes` do to it
  // ---------------------------------------------------------------------------

  /** The objects, and the id the next object literal takes. */
  datatype Snapshot = Snapshot(objs: Objects, next: nat)

  /** Every object's id is below the next one, and no reference dangles. */
  ghost predicate SnapshotOk(st: Snapshot)
  {
    && (forall o :: o in st.objs ==> o < st.next)
    && (forall o :: o in st.objs ==> ObjOk(st.objs, st.objs[o]))
  }

  /** An object literal with the given properties, under the next id. */
  function AllocF(st: Snapshot, props: map<string, MVal>): Snapshot
  {
    Snapshot(st.objs[st.next := props], st.next + 1)
  }

  /** `obj[k] = v`. */
  function PutF(st: Snapshot, o: ObjId, k: string, v: MVal): Snapshot
    requires o in st.objs
  {
    Snapshot(st.objs[o := st.objs[o][k := v]], st.next)
  }

  /** Whether a write completes without throwing, and the store after it. */
  datatype Written = Written(ok: bool, st: Snapshot)

  /** `setDeep(path, value, o)`: `obj[path[0]] ??= {}` and a step down while two or
      more keys are left, then `obj[path[0]] = value`. */
  function SetDeepF(st: Snapshot, path: seq<string>, value: MVal, o: ObjId): Written
    decreases |path|
  {
    if |path| == 0 || o !in st.objs then Written(false, st)
    else if |path| == 1 then Written(true, PutF(st, o, path[0], value))
    else if path[0] !in st.objs[o] then
      SetDeepF(PutF(AllocF(st, map[]), o, path[0], MRef(st.next)), path[1..], value, st.next)
    else match st.objs[o][path[0]]
      case MRef(c) => SetDeepF(st, path[1..], value, c)
      case _ => Written(false, st)
  }

  /** The object whose property the last key of `path` names, when the walk from `o`
      gets there through objects that exist already; `None` when it fails first or
      meets a missing key, past which every object it enters is new. */
  function Target(objs: Objects, o: ObjId, path: seq<string>): Option<ObjId>
    decreases |path|
  {
    if |path| == 0 || o !in objs then None
    else if |path| == 1 then Some(o)
    else if path[0] in objs[o] && objs[o][path[0]].MRef? then Target(objs, objs[o][path[0]].id, path[1..])
    else None
  }

  /** The last key of a path ("" for the empty path, which writes nothing). */
  function LastKey(path: seq<string>): string
  {
    if |path| == 0 then "" else path[|path| - 1]
  }

  /** The walk looks up the last key in the target object at an earlier step too, so
      the final write replaces a link the walk went through. */
  ghost predicate Revisits(objs: Objects, o: ObjId, path: seq<string>)
  {
    exists i :: 0 <= i < |path| - 1 && Target(objs, o, path[..i + 1]).Some? &&
      Target(objs, o, path[..i + 1]) == Target(objs, o, path) && path[i] == path[|path| - 1]
  }

  /** Between two states: no object disappears, and every property of an object that
      existed keeps its value, except property `k` of object `t`. */
  ghost predicate KeptBut(before: Objects, after: Objects, t: Option<ObjId>, k: string)
  {
    && before.Keys <= after.Keys
    && (forall id, key :: id in before && key in before[id] && !(t == Some(id) && key == k) ==>
          key in after[id] && after[id][key] == before[id][key])
  }

  /** Some step of the walk of `path` from `o` looks up key `k` in object `id`. */
  ghost predicate OnWalk(objs: Objects, o: ObjId, path: seq<string>, id: ObjId, k: string)
  {
    exists i :: 0 <= i < |path| && Target(objs, o, path[..i + 1]) == Some(id) && path[i] == k
  }

  /** Between two states: a property appears on an object that existed only where the
      walk of `path` from `o` looked it up. */
  ghost predicate AddedOnWalk(before: Objects, after: Objects, o: ObjId, path: seq<string>)
  {
    forall id, k :: id in before && id in after && k in after[id] && k !in before[id] ==> OnWalk(before, o, path, id, k)
  }

  /** Step `i + 1` of the walk from `o` is step `i` of the walk from the child it enters. */
  lemma TargetCons(objs: Objects, o: ObjId, path: seq<string>, c: ObjId, i: nat)
    requires |path| >= 2 && o in objs && path[0] in objs[o] && objs[o][path[0]] == MRef(c) && i < |path| - 1
    ensures Target(objs, o, path[..i + 2]) == Target(objs, c, path[1..][..i + 1])
  {
    assert path[..i + 2][1..] == path[1..][..i + 1];
  }

  /** A walk of two or more keys from an empty object meets a missing key at once. */
  lemma TargetOfEmpty(objs: Objects, f: ObjId, q: seq<string>)
    requires f in objs && objs[f] == map[]
    ensures |q| >= 2 ==> Target(objs, f, q) == None
    ensures |q| == 1 ==> Target(objs, f, q) == Some(f)
    ensures !Revisits(objs, f, q)
  {
  }

  lemma SnapshotOkAlloc(st: Snapshot, props: map<string, MVal>)
    requires SnapshotOk(st) && ObjOk(st.objs, props)
    ensures SnapshotOk(AllocF(st, props)) && st.next !in st.objs
  {
    var objs := AllocF(st, props).objs;
    forall p | p in objs
      ensures ObjOk(objs, objs[p])
    {
      if p != st.next {
        assert ObjOk(st.objs, objs[p]);
      }
    }
  }

  lemma SnapshotOkPut(st: Snapshot, o: ObjId, k: string, v: MVal)
    requires SnapshotOk(st) && o in st.objs && ValOk(st.objs, v)
    ensures SnapshotOk(PutF(st, o, k, v))
  {
    var objs := PutF(st, o, k, v).objs;
    forall p | p in objs
      ensures ObjOk(objs, objs[p])
    {
      assert ObjOk(st.objs, st.objs[p]);
    }
  }

  /** `obj[k] ??= {}` on a missing key: the new empty object, linked at `k`. */
  lemma EnterFresh(st: Snapshot, o: ObjId, k: string)
    requires SnapshotOk(st) && o in st.objs
    ensures st.next !in st.objs
    ensures SnapshotOk(PutF(AllocF(st, map[]), o, k, MRef(st.next)))
    ensures PutF(AllocF(st, map[]), o, k, MRef(st.next)).objs[st.next] == map[]
  {
    SnapshotOkAlloc(st, map[]);
    SnapshotOkPut(AllocF(st, map[]), o, k, MRef(st.next));
  }

  /**
   * `setDeep` completes exactly when the path is walkable; it keeps the store
   * well-formed, and when it throws it has changed nothing (a throw comes from a
   * present property that is not an object, before anything is created).
   */
  lemma {:induction false} SetDeepOutcome(st: Snapshot, path: seq<string>, value: MVal, o: ObjId)
    requires SnapshotOk(st) && ValOk(st.objs, value)
    ensures SnapshotOk(SetDeepF(st, path, value, o).st)
    ensures SetDeepF(st, path, value, o).ok == Walkable(st.objs, o, path)
    ensures !SetDeepF(st, path, value, o).ok ==> SetDeepF(st, path, value, o).st == st
    decreases |path|
  {
    if |path| == 0 || o !in st.objs {
    } else if |path| == 1 {
      SnapshotOkPut(st, o, path[0], value);
    } else if path[0] !in st.objs[o] {
      EnterFresh(st, o, path[0]);
      var st' := PutF(AllocF(st, map[]), o, path[0], MRef(st.next));
      SetDeepOutcome(st', path[1..], value, st.next);
      assert Walkable(st'.objs, st.next, path[1..]);
    } else if st.objs[o][path[0]].MRef? {
      assert ValOk(st.objs, st.objs[o][path[0]]);
      SetDeepOutcome(st, path[1..], value, st.objs[o][path[0]].id);
    }
  }

  /** What `setDeep` keeps: every property that existed, except the last key of the
      object the walk targets. */
  lemma {:induction false} SetDeepKept(st: Snapshot, path: seq<string>, value: MVal, o: ObjId)
    requires SnapshotOk(st)
    ensures KeptBut(st.objs, SetDeepF(st, path, value, o).st.objs, Target(st.objs, o, path), LastKey(path))
    decreases |path|
  {
    var after := SetDeepF(st, path, value, o).st.objs;
    if |path| == 0 || o !in st.objs || |path| == 1 {
    } else if path[0] !in st.objs[o] {
      var f := st.next;
      EnterFresh(st, o, path[0]);
      var st' := PutF(AllocF(st, map[]), o, path[0], MRef(f));
      SetDeepKept(st', path[1..], value, f);
      TargetOfEmpty(st'.objs, f, path[1..]);
      forall id, key | id in st.objs && key in st.objs[id]
        ensures key in after[id] && after[id][key] == st.objs[id][key]
      {
        assert key in st'.objs[id] && st'.objs[id][key] == st.objs[id][key];
      }
    } else if st.objs[o][path[0]].MRef? {
      SetDeepKept(st, path[1..], value, st.objs[o][path[0]].id);
      assert LastKey(path[1..]) == LastKey(path);
    }
  }

  /** Where `setDeep` adds: a property appears on an object that existed only where
      the walk looked it up (the first missing key, or the last key of the target). */
  lemma {:induction false} SetDeepAdded(st: Snapshot, path: seq<string>, value: MVal, o: ObjId)
    requires SnapshotOk(st)
    ensures AddedOnWalk(st.objs, SetDeepF(st, path, value, o).st.objs, o, path)
    decreases |path|
  {
    var after := SetDeepF(st, path, value, o).st.objs;
    if |path| == 0 || o !in st.objs {
    } else if |path| == 1 {
      assert path[..1] == path;
      assert OnWalk(st.objs, o, path, o, path[0]);
    } else if path[0] !in st.objs[o] {
      var f := st.next;
      EnterFresh(st, o, path[0]);
      var st' := PutF(AllocF(st, map[]), o, path[0], MRef(f));
      SetDeepAdded(st', path[1..], value, f);
      assert path[..1] == [path[0]];
      forall id, k | id in st.objs && id in after && k in after[id] && k !in st.objs[id]
        ensures OnWalk(st.objs, o, path, id, k)
      {
        if k in st'.objs[id] {
          assert id == o && k == path[0];
          assert Target(st.objs, o, path[..1]) == Some(o);
        } else {
          assert OnWalk(st'.objs, f, path[1..], id, k);
          var i :| 0 <= i < |path[1..]| && Target(st'.objs, f, path[1..][..i + 1]) == Some(id) && path[1..][i] == k;
          TargetOfEmpty(st'.objs, f, path[1..][..i + 1]);
        }
      }
    } else if st.objs[o][path[0]].MRef? {
      var c := st.objs[o][path[0]].id;
      SetDeepAdded(st, path[1..], value, c);
      forall id, k | id in st.objs && id in after && k in after[id] && k !in st.objs[id]
        ensures OnWalk(st.objs, o, path, id, k)
      {
        assert OnWalk(st.objs, c, path[1..], id, k);
        var i :| 0 <= i < |path[1..]| && Target(st.objs, c, path[1..][..i + 1]) == Some(id) && path[1..][i] == k;
        TargetCons(st.objs, o, path, c, i);
        assert path[i + 1] == k;
      }
    }
  }

  /** A walk from the child is a revisit only if the walk from its parent, one step
      longer, is one too. */
  lemma RevisitsCons(objs: Objects, o: ObjId, path: seq<string>, c: ObjId)
    requires |path| >= 2 && o in objs && path[0] in objs[o] && objs[o][path[0]] == MRef(c)
    ensures Revisits(objs, c, path[1..]) ==> Revisits(objs, o, path)
    ensures Target(objs, o, path) == Target(objs, c, path[1..])
  {
    if Revisits(objs, c, path[1..]) {
      var i :| 0 <= i < |path[1..]| - 1 && Target(objs, c, path[1..][..i + 1]).Some? &&
        Target(objs, c, path[1..][..i + 1]) == Target(objs, c, path[1..]) && path[1..][i] == path[1..][|path[1..]| - 1];
      TargetCons(objs, o, path, c, i);
      assert path[i + 1] == path[|path| - 1];
    }
  }

  /** Read-back: after `setDeep` completes, following the path reaches the value,
      unless the final write replaced a link the walk went through. */
  lemma {:induction false} SetDeepReadBack(st: Snapshot, path: seq<string>, value: MVal, o: ObjId)
    requires SnapshotOk(st) && ValOk(st.objs, value)
    ensures SetDeepF(st, path, value, o).ok && !Revisits(st.objs, o, path) ==>
              Follow(SetDeepF(st, path, value, o).st.objs, o, path) == Some(value)
    decreases |path|
  {
    var w := SetDeepF(st, path, value, o);
    if !w.ok || Revisits(st.objs, o, path) || |path| <= 1 {
    } else if path[0] !in st.objs[o] {
      var f := st.next;
      EnterFresh(st, o, path[0]);
      var st' := PutF(AllocF(st, map[]), o, path[0], MRef(f));
      TargetOfEmpty(st'.objs, f, path[1..]);
      SetDeepReadBack(st', path[1..], value, f);
      SetDeepKept(st', path[1..], value, f);
      FollowStep(w.st.objs, o, path, f);
    } else {
      var c := st.objs[o][path[0]].id;
      assert ValOk(st.objs, st.objs[o][path[0]]);
      RevisitsCons(st.objs, o, path, c);
      SetDeepReadBack(st, path[1..], value, c);
      SetDeepKept(st, path[1..], value, c);
      FollowStep(w.st.objs, o, path, c);
    }
  }

  /** A walk of distinct keys never looks up its last key twice. */
  lemma DistinctNoRevisit(objs: Objects, o: ObjId, path: seq<string>)
    requires Distinct(path)
    ensures !Revisits(objs, o, path)
  {
  }

  /** What `entriesToNodes` has built so far: whether it is still running, the node
      map, its keys in insertion order, and the store. */
  datatype Built = Built(ok: bool, nodes: map<string, ObjId>, order: seq<string>, st: Snapshot)

  /** `nodes[key] ??= { type, id }`. */
  function EnsureNodeF(b: Built, key: string, t: MVal, id: MVal): (r: Built)
    ensures r.ok == b.ok && key in r.nodes && b.nodes.Keys <= r.nodes.Keys
    ensures forall k :: k in b.nodes ==> r.nodes[k] == b.nodes[k]
    ensures (forall k :: k in b.nodes <==> k in b.order) ==> r.order == AddKey(b.order, key)
  {
    if key in b.nodes then b
    else b.(nodes := b.nodes[key := b.st.next], order := b.order + [key],
            st := AllocF(b.st, map["type" := t, "id" := id]))
  }

  /** `setDeep(nodes[key], objPath, value)`. */
  function SetUnderF(b: Built, key: string, objPath: seq<string>, value: MVal): Built
    requires key in b.nodes
  {
    var w := SetDeepF(b.st, objPath, value, b.nodes[key]);
    b.(ok := w.ok, st := w.st)
  }

  /** The reference branch: the target node, then that node object under the subject. */
  function AddRefF(b: Built, key: string, objPath: seq<string>, text: string): Built
    requires key in b.nodes
  {
    var (t', id') := SplitColon(text);
    var objKey := t' + ":" + Interpolate(id');
    var b1 := EnsureNodeF(b, objKey, MStr(t'), FromJs(id'));
    SetUnderF(b1, key, objPath, MRef(b1.nodes[objKey]))
  }

  /** What an entry does once its subject node exists: `split` on an undefined
      reference value throws; otherwise the reference or plain branch. */
  function AddValueF(b: Built, key: string, objPath: seq<string>, value: Fact): Built
    requires key in b.nodes
  {
    if value.isRef then
      if value.text.None? then b.(ok := false)
      else AddRefF(b, key, objPath, value.text.value)
    else SetUnderF(b, key, objPath, FromJs(value.text))
  }

  /** One iteration of `entriesToNodes`' loop. */
  function AddEntryF(b: Built, en: Entry<Fact>): Built
  {
    var t, id := PathAt(en.path, 0), PathAt(en.path, 1);
    var key := Interpolate(t) + ":" + Interpolate(id);
    var objPath := if |en.path| >= 2 then en.path[2..] else [];
    AddValueF(EnsureNodeF(b, key, FromJs(t), FromJs(id)), key, objPath, en.value)
  }

  /** Every node of a partial run is an object of its store. */
  ghost predicate BuiltOk(b: Built)
  {
    SnapshotOk(b.st) && forall k :: k in b.nodes ==> b.nodes[k] in b.st.objs
  }

  lemma EnsureNodeOk(b: Built, key: string, t: MVal, id: MVal)
    requires BuiltOk(b) && ValOk(b.st.objs, t) && ValOk(b.st.objs, id)
    ensures BuiltOk(EnsureNodeF(b, key, t, id))
  {
    if key !in b.nodes {
      SnapshotOkAlloc(b.st, map["type" := t, "id" := id]);
    }
  }

  /** `setDeep` under a node: the read-back, with the node map unchanged. */
  lemma SetUnderReadBack(b: Built, key: string, objPath: seq<string>, value: MVal)
    requires BuiltOk(b) && key in b.nodes && ValOk(b.st.objs, value)
    ensures SetUnderF(b, key, objPath, value).ok && Distinct(objPath) ==>
              Follow(SetUnderF(b, key, objPath, value).st.objs, b.nodes[key], objPath) == Some(value)
  {
    SetDeepReadBack(b.st, objPath, value, b.nodes[key]);
    if Distinct(objPath) {
      DistinctNoRevisit(b.st.objs, b.nodes[key], objPath);
    }
  }

  /**
   * One entry of `entriesToNodes`: when it does not throw, the entry is one the loop
   * accepts, its subject node (and, for a reference, its target node) exists, and
   * following the entry's path from the subject reaches the value, or the target
   * node's object itself, provided no key repeats in the path.
   */
  lemma AddEntryReadBack(b: Built, en: Entry<Fact>)
    requires BuiltOk(b)
    ensures AddEntryF(b, en).ok ==> EntryOk(en) && SubjectKey(en.path) in AddEntryF(b, en).nodes
    ensures AddEntryF(b, en).ok && en.value.isRef ==> TargetKey(en.value.text.value) in AddEntryF(b, en).nodes
    ensures AddEntryF(b, en).ok && Distinct(en.path[2..]) ==>
              Follow(AddEntryF(b, en).st.objs, AddEntryF(b, en).nodes[SubjectKey(en.path)], en.path[2..]) ==
              Some(if en.value.isRef then MRef(AddEntryF(b, en).nodes[TargetKey(en.value.text.value)]) else FromJs(en.value.text))
  {
    var t, id := PathAt(en.path, 0), PathAt(en.path, 1);
    var key := Interpolate(t) + ":" + Interpolate(id);
    var b1 := EnsureNodeF(b, key, FromJs(t), FromJs(id));
    EnsureNodeOk(b, key, FromJs(t), FromJs(id));
    var objPath := if |en.path| >= 2 then en.path[2..] else [];
    if en.value.isRef && en.value.text.Some? {
      var (t', id') := SplitColon(en.value.text.value);
      var objKey := t' + ":" + Interpolate(id');
      EnsureNodeOk(b1, objKey, MStr(t'), FromJs(id'));
      var b2 := EnsureNodeF(b1, objKey, MStr(t'), FromJs(id'));
      SetUnderReadBack(b2, key, objPath, MRef(b2.nodes[objKey]));
    } else if !en.value.isRef {
      SetUnderReadBack(b1, key, objPath, FromJs(en.value.text));
    }
  }

  /** `entriesToNodes`' loop over `es`, from the store `st`, up to the first throw. */
  function Run(st: Snapshot, es: seq<Entry<Fact>>): Built
  {
    if |es| == 0 then Built(true, map[], [], st)
    else
      var b := Run(st, es[..|es| - 1]);
      if !b.ok then b else AddEntryF(b, es[|es| - 1])
  }

  /** `entriesToNodes(es)` returns instead of throwing. Every object it touches is one
      it creates, so this depends on the entries alone. */
  function RunOk(es: seq<Entry<Fact>>): bool
  {
    Run(Snapshot(map[], 0), es).ok
  }

  /** `Object.values(nodes)`: the node of each key, in insertion order. */
  function NodeValues(nodes: map<string, ObjId>, order: seq<string>): (vs: seq<ObjId>)
    ensures |vs| == |order|
    ensures forall j :: 0 <= j < |order| && order[j] in nodes ==> vs[j] == nodes[order[j]]
  {
    seq(|order|, j requires 0 <= j < |order| => if order[j] in nodes then nodes[order[j]] else 0)
  }

  /** The values of a node map are its objects, new since `base`, one per key. */
  lemma NodeValuesOk(objs: Objects, base: set<ObjId>, nodes: map<string, ObjId>, order: seq<string>)
    requires NodesOk(objs, base, nodes, order)
    requires forall a, b :: 0 <= a < b < |order| ==> order[a] != order[b]
    ensures forall i :: 0 <= i < |order| ==> NodeValues(nodes, order)[i] in objs && NodeValues(nodes, order)[i] !in base
    ensures forall i, j :: 0 <= i < j < |order| ==> NodeValues(nodes, order)[i] != NodeValues(nodes, order)[j]
  {
  }

  /** A node object, together with the objects it links to. */
  datatype NodeObject = NodeObject(objs: Objects, id: ObjId)

  /** The node objects `entriesToNodes(es)` returns, when it returns. */
  function Materialized(es: seq<Entry<Fact>>): seq<NodeObject>
  {
    var b := Run(Snapshot(map[], 0), es);
    NodeObjects(b.st.objs, b.nodes, b.order)
  }

  /** `Object.values(nodes)`, each node together with the objects. */
  function NodeObjects(objs: Objects, nodes: map<string, ObjId>, order: seq<string>): (r: seq<NodeObject>)
    ensures |r| == |order|
  {
    if |order| == 0 then []
    else
      var k := order[|order| - 1];
      NodeObjects(objs, nodes, order[..|order| - 1]) + [NodeObject(objs, if k in nodes then nodes[k] else 0)]
  }

  /** The node objects are the node values, each paired with the objects. */
  lemma {:induction false} NodeObjectsAt(objs: Objects, nodes: map<string, ObjId>, order: seq<string>)
    ensures forall j :: 0 <= j < |order| ==> NodeObjects(objs, nodes, order)[j] == NodeObject(objs, NodeValues(nodes, order)[j])
  {
    if |order| > 0 {
      NodeObjectsAt(objs, nodes, order[..|order| - 1]);
    }
  }

  /** The run over one more entry. */
  lemma RunNext(st: Snapshot, es: seq<Entry<Fact>>, i: nat)
    requires i < |es|
    ensures Run(st, es[..i + 1]) == if Run(st, es[..i]).ok then AddEntryF(Run(st, es[..i]), es[i]) else Run(st, es[..i])
  {
    assert es[..i + 1][..i] == es[..i];
  }

  /** Once an entry throws, the later ones are never reached. */
  lemma {:induction false} RunFailStays(st: Snapshot, es: seq<Entry<Fact>>, i: nat)
    requires i <= |es| && !Run(st, es[..i]).ok
    ensures Run(st, es) == Run(st, es[..i])
    decreases |es| - i
  {
    if i < |es| {
      assert es[..i + 1][..i] == es[..i];
      RunFailStays(st, es, i + 1);
    } else {
      assert es[..i] == es;
    }
  }

  /** A run that returns processed only entries `entriesToNodes` accepts: a path with a
      type, an id and a key, and a string on every reference. */
  lemma {:induction false} RunOkEntries(st: Snapshot, es: seq<Entry<Fact>>)
    ensures Run(st, es).ok ==> forall i :: 0 <= i < |es| ==> EntryOk(es[i])
  {
    if |es| > 0 && Run(st, es).ok {
      var init := es[..|es| - 1];
      RunOkEntries(st, init);
      assert EntryOk(es[|es| - 1]);
      forall i | 0 <= i < |es|
        ensures EntryOk(es[i])
      {
        if i < |es| - 1 {
          assert es[i] == init[i];
        }
      }
    }
  }

  /**
   * The store of objects, with the allocation that object literals (`{}`, `{type, id}`)
   * perform.
   */
  class ObjectStore {
    var objs: Objects
    var nextId: nat

    function State(): Snapshot
      reads this
    {
      Snapshot(objs, nextId)
    }

    ghost predicate Valid()
      reads this
    {
      SnapshotOk(State())
    }

    constructor ()
      ensures Valid() && State() == Snapshot(map[], 0)
    {
      objs := map[];
      nextId := 0;
    }

    /** An object literal: a new object with the given properties. */
    method Alloc(props: map<string, MVal>) returns (o: ObjId)
      requires Valid() && ObjOk(objs, props)
      modifies this
      ensures Valid()
      ensures o == old(nextId) && o !in old(objs) && State() == AllocF(old(State()), props)
    {
      SnapshotOkAlloc(State(), props);
      o := nextId;
      nextId := nextId + 1;
      objs := objs[o := props];
    }

    /** `obj[k] = v`. */
    method Put(o: ObjId, k: string, v: MVal)
      requires Valid() && o in objs && ValOk(objs, v)
      modifies this
      ensures Valid()
      ensures State() == PutF(old(State()), o, k, v)
    {
      SnapshotOkPut(State(), o, k, v);
      objs := objs[o := objs[o][k := v]];
    }

    /**
     * `setDeep(path, value, o)`; `ok` is false where the source throws: on an empty
     * path, and on a TypeError where the walk meets a string or undefined, which
     * happens before anything is created.
     */
    method SetDeep(path: seq<string>, value: MVal, o: ObjId) returns (ok: bool)
      requires Valid() && o in objs && ValOk(objs, value)
      modifies this
      decreases |path|
      ensures Valid()
      ensures Written(ok, State()) == SetDeepF(old(State()), path, value, o)
      ensures ok == Walkable(old(objs), o, path)
      ensures !ok ==> State() == old(State())
      // among the properties that existed, only the last key of the target changes
      ensures KeptBut(old(objs), objs, Target(old(objs), o, path), LastKey(path))
      // a property appears on an existing object only where the walk looked it up
      ensures AddedOnWalk(old(objs), objs, o, path)
      // read-back: following the path reaches the value
      ensures ok && !Revisits(old(objs), o, path) ==> Follow(objs, o, path) == Some(value)
    {
      ghost var st := State();
      SetDeepOutcome(st, path, value, o);
      SetDeepKept(st, path, value, o);
      SetDeepAdded(st, path, value, o);
      SetDeepReadBack(st, path, value, o);
      if |path| == 0 {
        return false;
      }
      if |path| == 1 {
        Put(o, path[0], value);
        return true;
      }
      var child := Enter(o, path[0]);
      if !child.MRef? {
        return false;
      }
      ok := SetDeep(path[1..], value, child.id);
    }

    /** The step of `setDeep` before it recurses: `obj[k] ??= {}`, then `obj[k]`. */
    method Enter(o: ObjId, k: string) returns (child: MVal)
      requires Valid() && o in objs
      modifies this
      ensures Valid() && ValOk(objs, child) && old(objs).Keys <= objs.Keys
      ensures k in old(objs)[o] ==> State() == old(State()) && child == old(objs)[o][k]
      ensures k !in old(objs)[o] ==>
                State() == PutF(AllocF(old(State()), map[]), o, k, MRef(old(nextId))) && child == MRef(old(nextId))
    {
      if k !in objs[o] {
        var f := Alloc(map[]);
        Put(o, k, MRef(f));
      }
      child := objs[o][k];
    }

    /** `nodes[key] ??= { type, id }`. */
    method EnsureNode(ghost base: set<ObjId>, nodes: map<string, ObjId>, order: seq<string>, key: string, t: MVal, id: MVal)
      returns (nodes': map<string, ObjId>, order': seq<string>)
      requires Valid() && NodesOk(objs, base, nodes, order) && base <= objs.Keys
      requires ValOk(objs, t) && ValOk(objs, id)
      modifies this
      ensures Valid() && NodesOk(objs, base, nodes', order') && old(objs).Keys <= objs.Keys
      ensures order' == AddKey(order, key) && key in nodes'
      ensures Built(true, nodes', order', State()) == EnsureNodeF(Built(true, nodes, order, old(State())), key, t, id)
    {
      if key in nodes {
        return nodes, order;
      }
      var n := Alloc(map["type" := t, "id" := id]);
      nodes' := nodes[key := n];
      order' := order + [key];
    }

    /** One iteration of `entriesToNodes`' loop. */
    method AddEntry(ghost base: set<ObjId>, nodes: map<string, ObjId>, order: seq<string>, en: Entry<Fact>)
      returns (ok: bool, nodes': map<string, ObjId>, order': seq<string>)
      requires Valid() && NodesOk(objs, base, nodes, order) && base <= objs.Keys
      modifies this
      ensures Valid() && old(objs).Keys <= objs.Keys
      ensures Built(ok, nodes', order', State()) == AddEntryF(Built(true, nodes, order, old(State())), en)
      ensures ok ==> EntryOk(en)
      ensures ok ==> NodesOk(objs, base, nodes', order')
      ensures ok ==> order' == AddKeys(order, EntryKeys(en))
      // the subject node now holds the value, or the target node itself, at the path
      ensures ok ==> SubjectKey(en.path) in nodes' && (en.value.isRef ==> TargetKey(en.value.text.value) in nodes')
      ensures ok && Distinct(en.path[2..]) ==>
                Follow(objs, nodes'[SubjectKey(en.path)], en.path[2..]) ==
                Some(if en.value.isRef then MRef(nodes'[TargetKey(en.value.text.value)]) else FromJs(en.value.text))
    {
      var t, id := PathAt(en.path, 0), PathAt(en.path, 1);
      var key := Interpolate(t) + ":" + Interpolate(id);
      nodes', order' := EnsureNode(base, nodes, order, key, FromJs(t), FromJs(id));
      ghost var order1 := order';
      var objPath := if |en.path| >= 2 then en.path[2..] else [];
      ok, nodes', order' := AddValue(base, nodes', order', key, objPath, en.value);
      if ok {
        if en.value.isRef {
          ghost var tk := TargetKey(en.value.text.value);
          assert EntryKeys(en) == [key, tk];
          assert [key, tk][1..] == [tk] && [tk][1..] == [];
          assert AddKeys(order1, [tk]) == AddKeys(order', []);
        } else {
          assert EntryKeys(en) == [key];
          assert AddKeys(order, [key]) == AddKeys(order', []);
        }
      }
      AddEntryReadBack(Built(true, nodes, order, old(State())), en);
    }

    /** The rest of an iteration, once the subject node `key` exists. */
    method AddValue(ghost base: set<ObjId>, nodes: map<string, ObjId>, order: seq<string>,
                    key: string, objPath: seq<string>, value: Fact)
      returns (ok: bool, nodes': map<string, ObjId>, order': seq<string>)
      requires Valid() && NodesOk(objs, base, nodes, order) && base <= objs.Keys && key in nodes
      modifies this
      ensures Valid() && old(objs).Keys <= objs.Keys
      ensures Built(ok, nodes', order', State()) == AddValueF(Built(true, nodes, order, old(State())), key, objPath, value)
      ensures ok ==> |objPath| >= 1 && (value.isRef ==> value.text.Some?)
      ensures ok ==> NodesOk(objs, base, nodes', order')
      ensures ok ==> order' == if value.isRef then AddKey(order, TargetKey(value.text.value)) else order
    {
      if value.isRef {
        if value.text.None? {
          return false, nodes, order;
        }
        ok, nodes', order' := AddRef(base, nodes, order, key, objPath, value.text.value);
      } else {
        ok := SetUnder(base, nodes, order, key, objPath, FromJs(value.text));
        nodes', order' := nodes, order;
      }
    }

    /** The reference branch: `nodes[type:id] ??= { type, id }` for the target the value
        names, then `setDeep` of that node object itself under the subject. */
    method AddRef(ghost base: set<ObjId>, nodes: map<string, ObjId>, order: seq<string>,
                  key: string, objPath: seq<string>, text: string)
      returns (ok: bool, nodes': map<string, ObjId>, order': seq<string>)
      requires Valid() && NodesOk(objs, base, nodes, order) && base <= objs.Keys && key in nodes
      modifies this
      ensures Valid() && old(objs).Keys <= objs.Keys && NodesOk(objs, base, nodes', order')
      ensures Built(ok, nodes', order', State()) == AddRefF(Built(true, nodes, order, old(State())), key, objPath, text)
      ensures order' == AddKey(order, TargetKey(text))
      ensures key in nodes' && nodes'[key] == nodes[key] && TargetKey(text) in nodes'
      ensures ok ==> |objPath| >= 1
      ensures ok && Distinct(objPath) ==> Follow(objs, nodes'[key], objPath) == Some(MRef(nodes'[TargetKey(text)]))
    {
      var (t', id') := SplitColon(text);
      var objKey := t' + ":" + Interpolate(id');
      nodes', order' := EnsureNode(base, nodes, order, objKey, MStr(t'), FromJs(id'));
      ok := SetUnder(base, nodes', order', key, objPath, MRef(nodes'[objKey]));
      if Distinct(objPath) {
        DistinctNoRevisit(objs, nodes'[key], objPath);
      }
    }

    /** `setDeep(nodes[key], objPath, value)`, which allocates only intermediate objects. */
    method SetUnder(ghost base: set<ObjId>, nodes: map<string, ObjId>, order: seq<string>,
                    key: string, objPath: seq<string>, value: MVal) returns (ok: bool)
      requires Valid() && NodesOk(objs, base, nodes, order) && base <= objs.Keys
      requires key in nodes && ValOk(objs, value)
      modifies this
      ensures Valid() && old(objs).Keys <= objs.Keys && NodesOk(objs, base, nodes, order)
      ensures Built(ok, nodes, order, State()) == SetUnderF(Built(true, nodes, order, old(State())), key, objPath, value)
      ensures ok ==> |objPath| >= 1
      ensures ok && !Revisits(old(objs), nodes[key], objPath) ==> Follow(objs, nodes[key], objPath) == Some(value)
    {
      ghost var before := objs;
      ok := SetDeep(objPath, value, nodes[key]);
      NodesOkGrows(before, objs, base, nodes, order);
    }

    /** One iteration of the loop of `entriesToNodes(entries)`, at entry `i`: it
        extends the run by that entry. */
    method RunStep(ghost st0: Snapshot, ghost base: set<ObjId>, entries: seq<Entry<Fact>>, i: nat,
                   nodes: map<string, ObjId>, order: seq<string>)
      returns (ok: bool, nodes': map<string, ObjId>, order': seq<string>)
      requires i < |entries| && Valid() && base <= objs.Keys
      requires Run(st0, entries[..i]) == Built(true, nodes, order, State())
      requires forall j :: 0 <= j < i ==> EntryOk(entries[j])
      requires order == NodeKeyOrder(entries[..i]) && NodesOk(objs, base, nodes, order)
      modifies this
      ensures Valid() && base <= objs.Keys
      ensures Run(st0, entries[..i + 1]) == Built(ok, nodes', order', State())
      ensures ok ==> forall j :: 0 <= j < i + 1 ==> EntryOk(entries[j])
      ensures ok ==> order' == NodeKeyOrder(entries[..i + 1]) && NodesOk(objs, base, nodes', order')
    {
      RunNext(st0, entries, i);
      ok, nodes', order' := AddEntry(base, nodes, order, entries[i]);
      if ok {
        NodeKeyOrderNext(entries, i);
      }
    }

    /** The loop of `entriesToNodes(entries)`: it follows `Run`, and when no entry
        throws its node map has one new object per key of `NodeKeyOrder(entries)`. */
    method RunEntries(entries: seq<Entry<Fact>>) returns (ok: bool, nodes: map<string, ObjId>, order: seq<string>)
      requires Valid()
      modifies this
      ensures Valid() && old(objs).Keys <= objs.Keys
      ensures Built(ok, nodes, order, State()) == Run(old(State()), entries)
      ensures ok ==> forall i :: 0 <= i < |entries| ==> EntryOk(entries[i])
      ensures ok ==> order == NodeKeyOrder(entries) && NodesOk(objs, old(objs).Keys, nodes, order)
    {
      ghost var st0 := State();
      ghost var base := objs.Keys;
      nodes, order := map[], [];
      var i := 0;
      while i < |entries|
        invariant 0 <= i <= |entries|
        invariant Valid() && base <= objs.Keys
        invariant Run(st0, entries[..i]) == Built(true, nodes, order, State())
        invariant forall j :: 0 <= j < i ==> EntryOk(entries[j])
        invariant order == NodeKeyOrder(entries[..i]) && NodesOk(objs, base, nodes, order)
      {
        ok, nodes, order := RunStep(st0, base, entries, i, nodes, order);
        if !ok {
          RunFailStays(st0, entries, i + 1);
          return;
        }
        i := i + 1;
      }
      assert entries[..i] == entries;
      ok := true;
    }

    /**
     * `entriesToNodes(entries)`: the run of `Run`, and on success the node objects in
     * `Object.values` order, one per key of `NodeKeyOrder(entries)`, each new; `ok` is
     * false where the source throws (a path too short for `setDeep`, `split` on an
     * undefined reference value, or a TypeError inside `setDeep`).
     */
    method EntriesToNodes(entries: seq<Entry<Fact>>) returns (ok: bool, values: seq<ObjId>)
      requires Valid()
      modifies this
      ensures Valid()
      ensures ok == Run(old(State()), entries).ok && State() == Run(old(State()), entries).st
      ensures ok ==> values == NodeValues(Run(old(State()), entries).nodes, Run(old(State()), entries).order)
      ensures old(objs).Keys <= objs.Keys
      ensures ok ==> forall i :: 0 <= i < |entries| ==> EntryOk(entries[i])
      ensures ok ==> |values| == |NodeKeyOrder(entries)|
      ensures ok ==> forall i :: 0 <= i < |values| ==> values[i] in objs && values[i] !in old(objs)
      ensures ok ==> forall i, j :: 0 <= i < j < |values| ==> values[i] != values[j]
    {
      ghost var base := objs.Keys;
      var nodes, order;
      ok, nodes, order := RunEntries(entries);
      if !ok {
        return false, [];
      }
      values := NodeValues(nodes, order);
      NodeKeyOrderIsNodeKeys(entries);
      NodeValuesOk(objs, base, nodes, order);
    }
  }

  /** `entriesToNodes(entries)` on objects of its own: every object it touches is one
      it creates. */
  method Build(entries: seq<Entry<Fact>>) returns (ok: bool, nodes: seq<NodeObject>)
    ensures ok == RunOk(entries)
    ensures ok ==> nodes == Materialized(entries)
    ensures !ok ==> nodes == []
    ensures ok ==> forall i :: 0 <= i < |entries| ==> EntryOk(entries[i])
    ensures ok ==> |nodes| == |NodeKeyOrder(entries)|
    ensures ok ==> forall i :: 0 <= i < |nodes| ==> nodes[i].id in nodes[i].objs
    ensures ok ==> forall i, j :: 0 <= i < j < |nodes| ==> nodes[i].id != nodes[j].id
  {
    var store := new ObjectStore();
    var values;
    ok, values := store.EntriesToNodes(entries);
    if !ok {
      return false, [];
    }
    var objs := store.objs;
    nodes := seq(|values|, j requires 0 <= j < |values| => NodeObject(objs, values[j]));
    ghost var b := Run(Snapshot(map[], 0), entries);
    NodeObjectsAt(objs, b.nodes, b.order);
    assert nodes == NodeObjects(objs, b.nodes, b.order);
  }

  /** A reference written by `collectPairs` as "type:id" names the node whose own
      entries have that type and id, when the type has no ':'. */
  lemma TargetKeyOfTag(t: string, id: string)
    requires forall i :: 0 <= i < |t| ==> t[i] != ':'
    requires forall i :: 0 <= i < |id| ==> id[i] != ':'
    ensures TargetKey(t + ":" + id) == t + ":" + id
  {
    ColonSplit(t, id);
    UpToColonFree(id);
  }

  lemma {:induction false} UpToColonFree(s: string)
    requires forall i :: 0 <= i < |s| ==> s[i] != ':'
    ensures UpToColon(s) == s
  {
    if |s| > 0 {
      UpToColonFree(s[1..]);
    }
  }

  lemma {:induction false} ColonSplit(t: string, rest: string)
    requires forall i :: 0 <= i < |t| ==> t[i] != ':'
    ensures SplitColon(t + ":" + rest) == (t, Some(UpToColon(rest)))
  {
    if |t| > 0 {
      assert (t + ":" + rest)[1..] == t[1..] + ":" + rest;
      ColonSplit(t[1..], rest);
      assert [t[0]] + t[1..] == t;
    } else {
      assert t + ":" + rest == [':'] + rest;
    }
  }
}
