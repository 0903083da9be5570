/**
 * The canonicalizer, `extractChunks` (index.ts and src/db.ts): it reads a server
 * listing page by page, keeps in `cannonicals` the smallest write hash seen for each
 * key, and returns the entries of the `done` page whose hash is the recorded one,
 * with the hash segment removed.
 *
 * The key is `path.slice(1).join('/')`, which still ends with the hash, and only
 * the `done` page's entries are returned; both are modelled as written.
 */
module Canon {
  import opened Js
  import opened Entries

  /** The table `cannonicals`; a key that is absent reads as `undefined`. */
  type Table = map<string, JsString>

  function Get(t: Table, k: string): JsString
  {
    if k in t then t[k] else None
  }

  /** `c.path.slice(1).join('/')`. */
  function Key(path: seq<string>): string
  {
    if |path| == 0 then "" else Join(path[1..])
  }

  /** `c.path.at(-1)`. */
  function Hash(path: seq<string>): (h: JsString)
    ensures h.None? <==> |path| == 0
  {
    if |path| == 0 then None else Some(path[|path| - 1])
  }

  /** `path.slice(0, -1)`. */
  function DropLast(path: seq<string>): (p: seq<string>)
    ensures |path| > 0 ==> path == p + [path[|path| - 1]]
    ensures |path| == 0 ==> p == []
  {
    if |path| == 0 then [] else path[..|path| - 1]
  }

  /**
   * The new table value: the hash when the recorded one is falsy or the hash is smaller.
   * `(hash ?? Infinity) < cur` (index.ts) and `hash < cur` (src/db.ts) agree: both are
   * false for an undefined hash, because `Infinity < s` and `undefined < s` are false
   * for every string `s`.
   */
  function Pick(cur: JsString, hash: JsString): (r: JsString)
    ensures r == cur || r == hash
    ensures !Truthy(cur) ==> r == hash
    ensures Truthy(cur) && hash.Some? && Less(hash.value, cur.value) ==> r == hash
    ensures Truthy(cur) && (hash.None? || !Less(hash.value, cur.value)) ==> r == cur
  {
    if !Truthy(cur) || (hash.Some? && Less(hash.value, cur.value)) then hash else cur
  }

  /** The table after one entry of a chunk. */
  function Record(t: Table, path: seq<string>): Table
  {
    t[Key(path) := Pick(Get(t, Key(path)), Hash(path))]
  }

  /** The table after a run of entries, in order. */
  function Fold<V>(t: Table, es: seq<Entry<V>>): Table
  {
    if |es| == 0 then t else Record(Fold(t, es[..|es| - 1]), es[|es| - 1].path)
  }

  /** Every entry of the given pages, page after page. */
  function Flat<V>(pages: seq<Page<V>>): seq<Entry<V>>
  {
    if |pages| == 0 then [] else Flat(pages[..|pages| - 1]) + pages[|pages| - 1].chunk
  }

  /** `.filter(r => r.path.at(-1) === cannonicals[key]).map(r => strip r)`. */
  function Survivors<V>(t: Table, chunk: seq<Entry<V>>): (rs: seq<Entry<V>>)
    ensures |rs| <= |chunk|
    // every survivor is a page entry whose hash is the recorded one, stripped
    ensures forall r :: r in rs ==>
              exists j :: 0 <= j < |chunk| && Hash(chunk[j].path) == Get(t, Key(chunk[j].path)) &&
                          r == Entry(DropLast(chunk[j].path), chunk[j].value)
    // and every such page entry survives
    ensures forall j :: 0 <= j < |chunk| && Hash(chunk[j].path) == Get(t, Key(chunk[j].path)) ==>
              Entry(DropLast(chunk[j].path), chunk[j].value) in rs
  {
    if |chunk| == 0 then []
    else
      var init, c := chunk[..|chunk| - 1], chunk[|chunk| - 1];
      var rest := Survivors(t, init);
      var last := if Hash(c.path) == Get(t, Key(c.path)) then [Entry(DropLast(c.path), c.value)] else [];
      assert forall j :: 0 <= j < |init| ==> init[j] == chunk[j];
      assert forall r :: r in rest + last ==> r in rest || r in last;
      rest + last
  }

  /** The first page whose `done` is set, if any. */
  function FirstDone<V>(pages: seq<Page<V>>): (d: Option<nat>)
    ensures d.Some? ==> d.value < |pages| && pages[d.value].done &&
                        forall j :: 0 <= j < d.value ==> !pages[j].done
    ensures d.None? ==> forall j :: 0 <= j < |pages| ==> !pages[j].done
  {
    if |pages| == 0 then None
    else if pages[0].done then Some(0)
    else match FirstDone(pages[1..])
      case None => None
      case Some(d) => Some(d + 1)
  }

  /**
   * What `extract` returns for a listing, stated over the whole listing: nothing (the
   * source's `[]` or `undefined`) when no page is `done`, otherwise the survivors of the
   * first `done` page under the table built from every entry up to and including it.
   */
  function ExtractSpec<V>(pages: seq<Page<V>>): Option<seq<Entry<V>>>
  {
    match FirstDone(pages)
    case None => None
    case Some(d) => Some(Survivors(Fold(map[], Flat(pages[..d + 1])), pages[d].chunk))
  }

  /**
   * `extract(listChunk)`, the recursion through `next()` written as the loop it is.
   * `None` is the case where a page that is not `done` has no `next`.
   */
  method Extract<V>(pages: Listing<V>) returns (r: Option<seq<Entry<V>>>)
    ensures r == ExtractSpec(pages)
  {
    var canon: Table := map[];
    var i := 0;
    while true
      invariant 0 <= i < |pages|
      invariant canon == Fold(map[], Flat(pages[..i]))
      invariant forall j :: 0 <= j < i ==> !pages[j].done
      decreases |pages| - i
    {
      var page := pages[i];
      canon := RecordChunk(canon, page.chunk);
      FoldAppend(map[], Flat(pages[..i]), page.chunk);
      assert pages[..i + 1][..i] == pages[..i];
      if page.done {
        FirstDoneAt(pages, i);
        return Some(Survivors(canon, page.chunk));
      } else if i + 1 < |pages| {
        i := i + 1;
      } else {
        NoneDone(pages);
        return None;
      }
    }
  }

  /** `chunk.flatMap(c => { cannonicals[key] = ...; return c })`: the table after one page. */
  method RecordChunk<V>(t: Table, chunk: seq<Entry<V>>) returns (canon: Table)
    ensures canon == Fold(t, chunk)
  {
    canon := t;
    var j := 0;
    while j < |chunk|
      invariant 0 <= j <= |chunk|
      invariant canon == Fold(t, chunk[..j])
    {
      assert chunk[..j + 1][..j] == chunk[..j];
      canon := Record(canon, chunk[j].path);
      j := j + 1;
    }
    assert chunk[..j] == chunk;
  }

  lemma {:induction false} FoldAppend<V>(t: Table, a: seq<Entry<V>>, b: seq<Entry<V>>)
    ensures Fold(t, a + b) == Fold(Fold(t, a), b)
  {
    if |b| == 0 {
      assert a + b == a;
    } else {
      assert (a + b)[..|a + b| - 1] == a + b[..|b| - 1];
      FoldAppend(t, a, b[..|b| - 1]);
    }
  }

  lemma FirstDoneAt<V>(pages: seq<Page<V>>, i: nat)
    requires i < |pages| && pages[i].done && forall j :: 0 <= j < i ==> !pages[j].done
    ensures FirstDone(pages) == Some(i)
  {
  }

  lemma NoneDone<V>(pages: seq<Page<V>>)
    requires forall j :: 0 <= j < |pages| ==> !pages[j].done
    ensures FirstDone(pages) == None
  {
  }

  /** `extractChunks` of index.ts: `[]` when the listing ends without a `done` page. */
  method ExtractChunks<V>(pages: Listing<V>) returns (rs: seq<Entry<V>>)
    ensures ExtractSpec(pages).Some? ==> rs == ExtractSpec(pages).value
    ensures ExtractSpec(pages).None? ==> rs == []
  {
    var r := Extract(pages);
    rs := if r.Some? then r.value else [];
  }

  // ---------------------------------------------------------------------------
  // The table holds the smallest hash per key
  // ---------------------------------------------------------------------------

  /** `h` is a hash of an entry of `es` under key `k`, and no such hash is smaller. */
  ghost predicate IsMinHash<V(!new)>(es: seq<Entry<V>>, k: string, h: string)
  {
    && (exists e :: e in es && Key(e.path) == k && Hash(e.path) == Some(h))
    && (forall e :: e in es && Key(e.path) == k && Hash(e.path).Some? ==> !Less(Hash(e.path).value, h))
  }

  /** What write hashes are: every entry's path ends with a non-empty segment. */
  ghost predicate Hashed<V(!new)>(es: seq<Entry<V>>)
  {
    forall e :: e in es ==> Truthy(Hash(e.path))
  }

  /**
   * Whatever the order of the entries, the table maps each key that occurs to the
   * smallest of its hashes under the string order `<`, and no other key is recorded.
   */
  lemma {:induction false} FoldIsMin<V(!new)>(es: seq<Entry<V>>, k: string)
    requires Hashed(es)
    ensures (exists e :: e in es && Key(e.path) == k) ==>
              Get(Fold(map[], es), k).Some? && IsMinHash(es, k, Get(Fold(map[], es), k).value)
    ensures (forall e :: e in es ==> Key(e.path) != k) ==> k !in Fold(map[], es)
  {
    if |es| > 0 {
      var init := es[..|es| - 1];
      var e := es[|es| - 1];
      assert es == init + [e];
      assert forall x :: x in init ==> x in es;
      FoldIsMin(init, k);
      var prev := Get(Fold(map[], init), k);
      if Key(e.path) == k {
        var h := Hash(e.path).value;
        if exists x :: x in init && Key(x.path) == k {
          var m := prev.value;
          if Less(h, m) {
            assert Get(Fold(map[], es), k) == Some(h);
            MinAfterSmaller(init, e, k, m);
          } else {
            assert Get(Fold(map[], es), k) == Some(m);
            MinAfterLarger(init, e, k, m);
          }
        } else {
          assert Get(Fold(map[], es), k) == Hash(e.path);
          MinAfterFirst(init, e, k);
        }
      } else {
        assert Get(Fold(map[], es), k) == prev;
        if exists x :: x in es && Key(x.path) == k {
          var x :| x in es && Key(x.path) == k;
          assert x in init;
          MinAfterOther(init, e, k, prev.value);
        }
      }
    }
  }

  /** A smaller hash under the key takes over as the smallest one. */
  lemma MinAfterSmaller<V(!new)>(init: seq<Entry<V>>, e: Entry<V>, k: string, m: string)
    requires IsMinHash(init, k, m) && Key(e.path) == k && Hash(e.path).Some? && Less(Hash(e.path).value, m)
    ensures IsMinHash(init + [e], k, Hash(e.path).value)
  {
    var h := Hash(e.path).value;
    assert e in init + [e];
    forall y | y in init + [e] && Key(y.path) == k && Hash(y.path).Some?
      ensures !Less(Hash(y.path).value, h)
    {
      if y in init {
        if Less(Hash(y.path).value, h) {
          LessTransitive(Hash(y.path).value, h, m);
        }
      } else {
        LessIrreflexive(h);
      }
    }
  }

  /** A hash that is not smaller leaves the smallest one as it is. */
  lemma MinAfterLarger<V(!new)>(init: seq<Entry<V>>, e: Entry<V>, k: string, m: string)
    requires IsMinHash(init, k, m) && Key(e.path) == k && Hash(e.path).Some? && !Less(Hash(e.path).value, m)
    ensures IsMinHash(init + [e], k, m)
  {
    var x :| x in init && Key(x.path) == k && Hash(x.path) == Some(m);
    assert x in init + [e];
  }

  /** The first hash under a key is the smallest one so far. */
  lemma MinAfterFirst<V(!new)>(init: seq<Entry<V>>, e: Entry<V>, k: string)
    requires (forall x :: x in init ==> Key(x.path) != k) && Key(e.path) == k && Hash(e.path).Some?
    ensures IsMinHash(init + [e], k, Hash(e.path).value)
  {
    var h := Hash(e.path).value;
    assert e in init + [e];
    forall y | y in init + [e] && Key(y.path) == k && Hash(y.path).Some?
      ensures !Less(Hash(y.path).value, h)
    {
      LessIrreflexive(h);
    }
  }

  /** An entry under another key changes nothing about this one. */
  lemma MinAfterOther<V(!new)>(init: seq<Entry<V>>, e: Entry<V>, k: string, m: string)
    requires IsMinHash(init, k, m) && Key(e.path) != k
    ensures IsMinHash(init + [e], k, m)
  {
    var x :| x in init && Key(x.path) == k && Hash(x.path) == Some(m);
    assert x in init + [e];
  }

  /** The smallest hash is unique, because `<` on strings is a strict total order. */
  lemma MinHashUnique<V(!new)>(es: seq<Entry<V>>, k: string, h1: string, h2: string)
    requires IsMinHash(es, k, h1) && IsMinHash(es, k, h2)
    ensures h1 == h2
  {
    var e1 :| e1 in es && Key(e1.path) == k && Hash(e1.path) == Some(h1);
    var e2 :| e2 in es && Key(e2.path) == k && Hash(e2.path) == Some(h2);
    if h1 != h2 {
      LessTotal(h1, h2);
    }
  }

  /** The table does not depend on the order in which the entries arrive. */
  lemma FoldOrderIndependent<V(!new)>(a: seq<Entry<V>>, b: seq<Entry<V>>)
    requires Hashed(a) && multiset(a) == multiset(b)
    ensures forall k :: Get(Fold(map[], a), k) == Get(Fold(map[], b), k)
  {
    assert forall e :: e in a <==> e in b by {
      forall e
        ensures e in a <==> e in b
      {
        assert e in a <==> e in multiset(a);
        assert e in b <==> e in multiset(b);
      }
    }
    forall k
      ensures Get(Fold(map[], a), k) == Get(Fold(map[], b), k)
    {
      FoldIsMin(a, k);
      FoldIsMin(b, k);
      if exists e :: e in a && Key(e.path) == k {
        var ha := Get(Fold(map[], a), k).value;
        var hb := Get(Fold(map[], b), k).value;
        assert IsMinHash(a, k, hb);
        MinHashUnique(a, k, ha, hb);
      }
    }
  }

  // ---------------------------------------------------------------------------
  // Consequences of the key keeping the hash
  // ---------------------------------------------------------------------------

  /** How the server writes entries: a batch segment, at least one more segment,
      and no '/' inside a segment. */
  ghost predicate ServerShaped<V(!new)>(es: seq<Entry<V>>)
  {
    forall e :: e in es ==> |e.path| >= 2 && SlashFree(e.path)
  }

  lemma SlashFreeTail(p: seq<string>)
    requires |p| >= 1 && SlashFree(p)
    ensures SlashFree(p[1..])
  {
  }

  /** Two server-shaped entries with equal keys have equal hashes: the key ends with it. */
  lemma SameKeySameHash(p: seq<string>, q: seq<string>)
    requires |p| >= 2 && SlashFree(p) && |q| >= 2 && SlashFree(q)
    requires Key(p) == Key(q)
    ensures Hash(p) == Hash(q)
  {
    SlashFreeTail(p);
    SlashFreeTail(q);
    JoinInjective(p[1..], q[1..]);
    assert p[|p| - 1] == p[1..][|p| - 2];
    assert q[|q| - 1] == q[1..][|q| - 2];
  }

  /** A key no entry has stays unrecorded. */
  lemma {:induction false} FoldAbsent<V(!new)>(es: seq<Entry<V>>, k: string)
    requires forall e :: e in es ==> Key(e.path) != k
    ensures Get(Fold(map[], es), k) == None
  {
    if |es| > 0 {
      var init := es[..|es| - 1];
      assert es[|es| - 1] in es;
      assert forall x :: x in init ==> x in es;
      FoldAbsent(init, k);
    }
  }

  /** With server-shaped entries, every entry's own hash is what the table records. */
  lemma {:induction false} FoldRecordsOwnHash<V(!new)>(es: seq<Entry<V>>, e: Entry<V>)
    requires ServerShaped(es) && e in es
    ensures Get(Fold(map[], es), Key(e.path)) == Hash(e.path)
  {
    var init := es[..|es| - 1];
    var last := es[|es| - 1];
    assert es == init + [last];
    assert ServerShaped(init) by {
      forall x | x in init
        ensures |x.path| >= 2 && SlashFree(x.path)
      {
        assert x in es;
      }
    }
    var k := Key(e.path);
    if Key(last.path) == k {
      SameKeySameHash(last.path, e.path);
      LessIrreflexive(Hash(e.path).value);
      if e in init {
        FoldRecordsOwnHash(init, e);
      } else if x :| x in init && Key(x.path) == k {
        FoldRecordsOwnHash(init, x);
        SameKeySameHash(x.path, e.path);
      } else {
        FoldAbsent(init, k);
      }
    } else {
      FoldRecordsOwnHash(init, e);
    }
  }

  /**
   * As written, the hash filter never drops anything: when every entry up to the done
   * page is server-shaped, every entry of that page comes back, hash removed, in order.
   */
  lemma NothingDropped<V(!new)>(pages: seq<Page<V>>, d: nat)
    requires FirstDone(pages) == Some(d)
    requires ServerShaped(Flat(pages[..d + 1]))
    ensures ExtractSpec(pages) == Some(StripAll(pages[d].chunk))
  {
    var t := Fold(map[], Flat(pages[..d + 1]));
    assert pages[..d + 1][..d] == pages[..d];
    forall c | c in pages[d].chunk
      ensures Hash(c.path) == Get(t, Key(c.path))
    {
      assert c in Flat(pages[..d + 1]);
      FoldRecordsOwnHash(Flat(pages[..d + 1]), c);
    }
    SurvivorsAll(t, pages[d].chunk);
  }

  /** Every entry with its last segment removed. */
  function StripAll<V>(chunk: seq<Entry<V>>): (rs: seq<Entry<V>>)
    ensures |rs| == |chunk|
    ensures forall i :: 0 <= i < |chunk| ==> rs[i] == Entry(DropLast(chunk[i].path), chunk[i].value)
  {
    if |chunk| == 0 then []
    else StripAll(chunk[..|chunk| - 1]) + [Entry(DropLast(chunk[|chunk| - 1].path), chunk[|chunk| - 1].value)]
  }

  lemma {:induction false} SurvivorsAll<V>(t: Table, chunk: seq<Entry<V>>)
    requires forall c :: c in chunk ==> Hash(c.path) == Get(t, Key(c.path))
    ensures Survivors(t, chunk) == StripAll(chunk)
  {
    if |chunk| > 0 {
      var init := chunk[..|chunk| - 1];
      assert forall c :: c in init ==> c in chunk;
      SurvivorsAll(t, init);
      assert chunk[|chunk| - 1] in chunk;
    }
  }

  /** When no page is `done`, nothing is returned, whatever the table holds. */
  lemma NoDonePageNothing<V>(pages: seq<Page<V>>)
    requires forall j :: 0 <= j < |pages| ==> !pages[j].done
    ensures ExtractSpec(pages).None?
  {
    NoneDone(pages);
  }

  /** Earlier pages never contribute entries: the result comes from the `done` page only. */
  lemma ResultFromDonePage<V>(pages: seq<Page<V>>, r: Entry<V>)
    requires ExtractSpec(pages).Some? && r in ExtractSpec(pages).value
    ensures exists j :: 0 <= j < |pages[FirstDone(pages).value].chunk| &&
              r == Entry(DropLast(pages[FirstDone(pages).value].chunk[j].path), pages[FirstDone(pages).value].chunk[j].value)
  {
    var d := FirstDone(pages).value;
    var j := SurvivorFrom(Fold(map[], Flat(pages[..d + 1])), pages[d].chunk, r);
  }

  /** Each survivor is an entry of the chunk whose hash is the recorded one, stripped. */
  lemma {:induction false} SurvivorFrom<V>(t: Table, chunk: seq<Entry<V>>, r: Entry<V>) returns (j: nat)
    requires r in Survivors(t, chunk)
    ensures j < |chunk| && Hash(chunk[j].path) == Get(t, Key(chunk[j].path))
    ensures r == Entry(DropLast(chunk[j].path), chunk[j].value)
  {
    var init := chunk[..|chunk| - 1];
    var c := chunk[|chunk| - 1];
    if r in Survivors(t, init) {
      j := SurvivorFrom(t, init, r);
    } else {
      j := |chunk| - 1;
    }
  }

  /** A recorded "" is falsy, so the next hash replaces it even when it is larger. */
  lemma EmptyHashReplaced()
    ensures Pick(Some(""), Some("b")) == Some("b")
    ensures Pick(Some("a"), Some("b")) == Some("a")
  {
    assert Less("a", "b");
    assert !Less("b", "a");
  }
}
