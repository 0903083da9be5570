/**
 * The replicator, `db(config)` (index.ts): a batch counter shared by `push`, which
 * writes every entry of the given Nodes to the local store and, under the current
 * batch number and a write hash, to the server; `resetLocal`, which rebuilds the local
 * store from the server's canonical entries; and `pull`, which syncs and then moves
 * the counter forward while `probe` says the next batch is empty.
 *
 * The stores are maps from paths to facts, written in the order the source calls
 * `set`; the server listing is the function `list` from a prefix to the pages its
 * `list(...prefix)` call yields.
 */
module Replicator {
  import opened Js
  import opened Graph
  import opened Entries
  import opened Flatten
  import opened Canon
  import opened Materialize

  /** Which optional members of `DBConfig` are present. */
  datatype Config = Config(
    localSet: bool, localClear: bool, serverSet: bool, serverList: bool,
    publish: bool, onNode: bool)

  /** A store as `set(path, value, ref)` calls leave it: the last fact written per path. */
  type Store = map<seq<string>, Fact>

  /** `server.list(...prefix)`: the pages of the listing under a prefix. */
  type Lister<V> = seq<string> -> Listing<V>

  /** A settled job of `Promise.allSettled`. */
  datatype Outcome<V> = Fulfilled(entry: Entry<V>) | Rejected

  // ---------------------------------------------------------------------------
  // Paths
  // ---------------------------------------------------------------------------

  /** The server path of a pushed entry: `[String(batch), ...path, hash]`. */
  function ServerPath(batch: Num, path: seq<string>, hash: string): seq<string>
  {
    [NumToString(batch)] + path + [hash]
  }

  /** `path.slice(1)`. */
  function Tail(path: seq<string>): (t: seq<string>)
    ensures |path| > 0 ==> t == path[1..]
    ensures |path| == 0 ==> t == []
  {
    if |path| == 0 then [] else path[1..]
  }

  /**
   * What `push` writes to the server, once `extractChunks` has removed the hash, gives
   * back the batch number (`Number(res.path[0])`, as `resetLocal` reads it) and the
   * local path (`res.path.slice(1)`, as `resetLocal` and `getBatch` write it).
   */
  lemma ServerPathRoundTrip(batch: Num, path: seq<string>, hash: string)
    ensures DropLast(ServerPath(batch, path, hash)) == [NumToString(batch)] + path
    ensures Tail(DropLast(ServerPath(batch, path, hash))) == path
    ensures NumberOf(PathAt(DropLast(ServerPath(batch, path, hash)), 0)) == batch
  {
    var sp := ServerPath(batch, path, hash);
    assert sp[..|sp| - 1] == [NumToString(batch)] + path;
    NumberOfNumToString(batch);
  }

  /** Entries of one push with different paths have different server paths. */
  lemma ServerPathInjective(batch: Num, p: seq<string>, q: seq<string>, hash: string)
    requires ServerPath(batch, p, hash) == ServerPath(batch, q, hash)
    ensures p == q
  {
    var sp := ServerPath(batch, p, hash);
    assert |p| == |q|;
    assert p == sp[1..|sp| - 1];
    assert q == ServerPath(batch, q, hash)[1..|sp| - 1];
  }

  // ---------------------------------------------------------------------------
  // Stores
  // ---------------------------------------------------------------------------

  /** The store after `set(e.path, e.value)` of each entry, in order. */
  function Apply<V>(store: map<seq<string>, V>, es: seq<Entry<V>>): map<seq<string>, V>
  {
    if |es| == 0 then store else Apply(store, es[..|es| - 1])[es[|es| - 1].path := es[|es| - 1].value]
  }

  /** Writing a run of entries overrides the store with what the run alone leaves. */
  lemma {:induction false} ApplyOverrides<V>(store: map<seq<string>, V>, es: seq<Entry<V>>)
    ensures Apply(store, es) == store + Apply(map[], es)
  {
    if |es| > 0 {
      ApplyOverrides(store, es[..|es| - 1]);
    }
  }

  /** Writing the same run twice leaves what writing it once does. */
  lemma ApplyIdempotent<V>(store: map<seq<string>, V>, es: seq<Entry<V>>)
    ensures Apply(Apply(store, es), es) == Apply(store, es)
  {
    ApplyOverrides(store, es);
    ApplyOverrides(Apply(store, es), es);
    var w := Apply(map[], es);
    assert (store + w) + w == store + w;
  }

  /** Writing two runs one after the other is writing their concatenation. */
  lemma {:induction false} ApplyAppend<V>(store: map<seq<string>, V>, a: seq<Entry<V>>, b: seq<Entry<V>>)
    ensures Apply(Apply(store, a), b) == Apply(store, a + b)
    decreases |b|
  {
    if |b| == 0 {
      assert a + b == a;
    } else {
      assert (a + b)[..|a + b| - 1] == a + b[..|b| - 1];
      ApplyAppend(store, a, b[..|b| - 1]);
    }
  }

  /** The last write to a path is what the store holds there. */
  lemma {:induction false} ApplyLastWrite<V>(store: map<seq<string>, V>, es: seq<Entry<V>>, i: nat)
    requires i < |es| && forall j :: i < j < |es| ==> es[j].path != es[i].path
    ensures es[i].path in Apply(store, es) && Apply(store, es)[es[i].path] == es[i].value
  {
    if i < |es| - 1 {
      ApplyLastWrite(store, es[..|es| - 1], i);
    }
  }

  /** A path is in the store afterwards exactly when it was before or some entry wrote it. */
  lemma {:induction false} ApplyKeys<V>(store: map<seq<string>, V>, es: seq<Entry<V>>, p: seq<string>)
    ensures p in Apply(store, es) <==> p in store || exists i :: 0 <= i < |es| && es[i].path == p
  {
    if |es| > 0 {
      var init := es[..|es| - 1];
      ApplyKeys(store, init, p);
      if exists i :: 0 <= i < |es| && es[i].path == p {
        var i :| 0 <= i < |es| && es[i].path == p;
        if i < |es| - 1 {
          assert init[i].path == p;
        }
      }
      if exists i :: 0 <= i < |init| && init[i].path == p {
        var i :| 0 <= i < |init| && init[i].path == p;
        assert es[i].path == p;
      }
    }
  }

  // ---------------------------------------------------------------------------
  // push
  // ---------------------------------------------------------------------------

  /** `localFails` and `serverFails` are the paths whose `set` rejects. */
  predicate LocalFails<V>(cfg: Config, localFails: set<seq<string>>, e: Entry<V>)
  {
    cfg.localSet && e.path in localFails
  }

  predicate ServerFails<V>(cfg: Config, serverFails: set<seq<string>>, batch: Num, hash: string, e: Entry<V>)
  {
    cfg.serverSet && ServerPath(batch, e.path, hash) in serverFails
  }

  /** The job of one entry: the local write, then the server write, then `publish`; a
      missing `set` is skipped, a rejected one rejects the job and skips the rest. */
  function Settle<V>(cfg: Config, localFails: set<seq<string>>, serverFails: set<seq<string>>,
                  batch: Num, hash: string, e: Entry<V>): Outcome<V>
  {
    if LocalFails(cfg, localFails, e) || ServerFails(cfg, serverFails, batch, hash, e) then Rejected
    else Fulfilled(e)
  }

  /** The local write of one job, if it takes place and succeeds. */
  function LocalStep<V>(cfg: Config, localFails: set<seq<string>>, e: Entry<V>): seq<Entry<V>>
  {
    if cfg.localSet && e.path !in localFails then [e] else []
  }

  /** The server write of one job, if it takes place and succeeds. */
  function ServerStep<V>(cfg: Config, localFails: set<seq<string>>, serverFails: set<seq<string>>,
                      batch: Num, hash: string, e: Entry<V>): seq<Entry<V>>
  {
    if cfg.serverSet && !LocalFails(cfg, localFails, e) && !ServerFails(cfg, serverFails, batch, hash, e)
    then [Entry(ServerPath(batch, e.path, hash), e.value)] else []
  }

  /** The message one job publishes, if it gets that far. */
  function PublishStep<V>(cfg: Config, localFails: set<seq<string>>, serverFails: set<seq<string>>,
                       batch: Num, hash: string, e: Entry<V>): seq<Entry<V>>
  {
    if cfg.publish && Settle(cfg, localFails, serverFails, batch, hash, e).Fulfilled? then [e] else []
  }

  /** The entries the local store takes. */
  function LocalWrites<V>(cfg: Config, localFails: set<seq<string>>, es: seq<Entry<V>>): seq<Entry<V>>
  {
    if |es| == 0 then []
    else LocalWrites(cfg, localFails, es[..|es| - 1]) + LocalStep(cfg, localFails, es[|es| - 1])
  }

  /** The writes the server takes, under their server paths. */
  function ServerWrites<V>(cfg: Config, localFails: set<seq<string>>, serverFails: set<seq<string>>,
                        batch: Num, hash: string, es: seq<Entry<V>>): seq<Entry<V>>
  {
    if |es| == 0 then []
    else ServerWrites(cfg, localFails, serverFails, batch, hash, es[..|es| - 1]) +
         ServerStep(cfg, localFails, serverFails, batch, hash, es[|es| - 1])
  }

  /** The messages `publish('newbatch', ...)` sends. */
  function Published<V>(cfg: Config, localFails: set<seq<string>>, serverFails: set<seq<string>>,
                     batch: Num, hash: string, es: seq<Entry<V>>): seq<Entry<V>>
  {
    if |es| == 0 then []
    else Published(cfg, localFails, serverFails, batch, hash, es[..|es| - 1]) +
         PublishStep(cfg, localFails, serverFails, batch, hash, es[|es| - 1])
  }

  /** What `Promise.allSettled` resolves to: the outcome of each job, in order. */
  function Outcomes<V>(cfg: Config, localFails: set<seq<string>>, serverFails: set<seq<string>>,
                    batch: Num, hash: string, es: seq<Entry<V>>): seq<Outcome<V>>
  {
    if |es| == 0 then []
    else Outcomes(cfg, localFails, serverFails, batch, hash, es[..|es| - 1]) +
         [Settle(cfg, localFails, serverFails, batch, hash, es[|es| - 1])]
  }

  /** Outcome `i` is the one of job `i`. */
  lemma {:induction false} OutcomesAt<V>(cfg: Config, localFails: set<seq<string>>, serverFails: set<seq<string>>,
                                      batch: Num, hash: string, es: seq<Entry<V>>)
    ensures |Outcomes(cfg, localFails, serverFails, batch, hash, es)| == |es|
    ensures forall i :: 0 <= i < |es| ==>
              Outcomes(cfg, localFails, serverFails, batch, hash, es)[i] == Settle(cfg, localFails, serverFails, batch, hash, es[i])
  {
    if |es| > 0 {
      var init := es[..|es| - 1];
      OutcomesAt(cfg, localFails, serverFails, batch, hash, init);
      forall i | 0 <= i < |es|
        ensures Outcomes(cfg, localFails, serverFails, batch, hash, es)[i] == Settle(cfg, localFails, serverFails, batch, hash, es[i])
      {
        if i < |init| {
          assert es[i] == init[i];
        }
      }
    }
  }

  /** The local store after the jobs of `es`, one job at a time. */
  function LocalAfter<V>(cfg: Config, localFails: set<seq<string>>, store: map<seq<string>, V>, es: seq<Entry<V>>): map<seq<string>, V>
  {
    if |es| == 0 then store
    else Apply(LocalAfter(cfg, localFails, store, es[..|es| - 1]), LocalStep(cfg, localFails, es[|es| - 1]))
  }

  /** The server store after the jobs of `es`, one job at a time. */
  function ServerAfter<V>(cfg: Config, localFails: set<seq<string>>, serverFails: set<seq<string>>,
                       batch: Num, hash: string, store: map<seq<string>, V>, es: seq<Entry<V>>): map<seq<string>, V>
  {
    if |es| == 0 then store
    else Apply(ServerAfter(cfg, localFails, serverFails, batch, hash, store, es[..|es| - 1]),
               ServerStep(cfg, localFails, serverFails, batch, hash, es[|es| - 1]))
  }

  /** Running the jobs one at a time leaves the local store that writing all of
      `LocalWrites` in order does. */
  lemma {:induction false} LocalAfterIsApply<V>(cfg: Config, localFails: set<seq<string>>, store: map<seq<string>, V>, es: seq<Entry<V>>)
    ensures LocalAfter(cfg, localFails, store, es) == Apply(store, LocalWrites(cfg, localFails, es))
  {
    if |es| > 0 {
      var init := es[..|es| - 1];
      LocalAfterIsApply(cfg, localFails, store, init);
      ApplyAppend(store, LocalWrites(cfg, localFails, init), LocalStep(cfg, localFails, es[|es| - 1]));
    }
  }

  /** Running the jobs one at a time leaves the server store that writing all of
      `ServerWrites` in order does. */
  lemma {:induction false} ServerAfterIsApply<V>(cfg: Config, localFails: set<seq<string>>, serverFails: set<seq<string>>,
                                              batch: Num, hash: string, store: map<seq<string>, V>, es: seq<Entry<V>>)
    ensures ServerAfter(cfg, localFails, serverFails, batch, hash, store, es) ==
            Apply(store, ServerWrites(cfg, localFails, serverFails, batch, hash, es))
  {
    if |es| > 0 {
      var init := es[..|es| - 1];
      ServerAfterIsApply(cfg, localFails, serverFails, batch, hash, store, init);
      ApplyAppend(store, ServerWrites(cfg, localFails, serverFails, batch, hash, init),
                  ServerStep(cfg, localFails, serverFails, batch, hash, es[|es| - 1]));
    }
  }

  /** Every server write of a push is an entry of it, fulfilled, under
      `[String(batch), ...path, hash]`. */
  lemma {:induction false} ServerWritesSound<V>(cfg: Config, localFails: set<seq<string>>, serverFails: set<seq<string>>,
                                             batch: Num, hash: string, es: seq<Entry<V>>, w: Entry<V>)
    requires w in ServerWrites(cfg, localFails, serverFails, batch, hash, es)
    ensures exists i :: 0 <= i < |es| && Settle(cfg, localFails, serverFails, batch, hash, es[i]).Fulfilled? &&
              w == Entry(ServerPath(batch, es[i].path, hash), es[i].value)
  {
    var init := es[..|es| - 1];
    if w in ServerWrites(cfg, localFails, serverFails, batch, hash, init) {
      ServerWritesSound(cfg, localFails, serverFails, batch, hash, init, w);
      var i :| 0 <= i < |init| && Settle(cfg, localFails, serverFails, batch, hash, init[i]).Fulfilled? &&
               w == Entry(ServerPath(batch, init[i].path, hash), init[i].value);
      assert es[i] == init[i];
    } else {
      assert Settle(cfg, localFails, serverFails, batch, hash, es[|es| - 1]).Fulfilled?;
    }
  }

  /** With a server `set`, every fulfilled entry of a push reached the server. */
  lemma {:induction false} ServerWritesComplete<V>(cfg: Config, localFails: set<seq<string>>, serverFails: set<seq<string>>,
                                                batch: Num, hash: string, es: seq<Entry<V>>, i: nat)
    requires cfg.serverSet && i < |es| && Settle(cfg, localFails, serverFails, batch, hash, es[i]).Fulfilled?
    ensures Entry(ServerPath(batch, es[i].path, hash), es[i].value) in ServerWrites(cfg, localFails, serverFails, batch, hash, es)
  {
    if i < |es| - 1 {
      ServerWritesComplete(cfg, localFails, serverFails, batch, hash, es[..|es| - 1], i);
    }
  }

  // ---------------------------------------------------------------------------
  // resetLocal and pull
  // ---------------------------------------------------------------------------

  /** What `extractChunks(await config.server.list())` resolves to. */
  function Results<V>(list: Lister<V>): seq<Entry<V>>
  {
    var r := ExtractSpec(list([]));
    if r.Some? then r.value else []
  }

  /** `res.path.slice(1)` with `res.value` and `res.ref`: the local writes of a sync. */
  function LocalEntries<V>(rs: seq<Entry<V>>): (ls: seq<Entry<V>>)
    ensures |ls| == |rs|
    ensures forall i :: 0 <= i < |rs| ==> ls[i] == Entry(Tail(rs[i].path), rs[i].value)
  {
    seq(|rs|, i requires 0 <= i < |rs| => Entry(Tail(rs[i].path), rs[i].value))
  }

  /** The store after `set(res.path.slice(1), res.value)` for each result, in order. */
  function Synced<V>(store: map<seq<string>, V>, rs: seq<Entry<V>>): map<seq<string>, V>
  {
    if |rs| == 0 then store else Synced(store, rs[..|rs| - 1])[Tail(rs[|rs| - 1].path) := rs[|rs| - 1].value]
  }

  lemma SyncedStep<V>(store: map<seq<string>, V>, rs: seq<Entry<V>>, i: nat)
    requires i < |rs|
    ensures Synced(store, rs[..i + 1]) == Synced(store, rs[..i])[Tail(rs[i].path) := rs[i].value]
  {
    assert rs[..i + 1][..i] == rs[..i];
  }

  /** Writing the results one at a time is writing `LocalEntries` in order. */
  lemma {:induction false} SyncedIsApply<V>(store: map<seq<string>, V>, rs: seq<Entry<V>>)
    ensures Synced(store, rs) == Apply(store, LocalEntries(rs))
  {
    if |rs| > 0 {
      var init := rs[..|rs| - 1];
      SyncedIsApply(store, init);
      assert LocalEntries(rs)[..|rs| - 1] == LocalEntries(init);
    }
  }

  /** `Number(res.path[0])` of a result: its batch number. */
  function BatchOf<V>(r: Entry<V>): Num
  {
    NumberOf(PathAt(r.path, 0))
  }

  /** The counter after `currentBatchNumber = Math.max(currentBatchNumber, Number(res.path[0]))`
      for each result, in order. */
  function BatchMax<V>(c: Num, rs: seq<Entry<V>>): Num
  {
    if |rs| == 0 then c else Max(BatchMax(c, rs[..|rs| - 1]), BatchOf(rs[|rs| - 1]))
  }

  lemma BatchMaxStep<V>(c: Num, rs: seq<Entry<V>>, i: nat)
    requires i < |rs|
    ensures BatchMax(c, rs[..i + 1]) == Max(BatchMax(c, rs[..i]), NumberOf(PathAt(rs[i].path, 0)))
  {
    assert rs[..i + 1][..i] == rs[..i];
  }

  /** `resetLocal` never lowers a counter that stays a number, and the counter ends at
      least at every result's batch number. */
  lemma {:induction false} BatchMaxBounds<V>(c: Num, rs: seq<Entry<V>>)
    requires BatchMax(c, rs).Fin?
    ensures c.Fin? && c.n <= BatchMax(c, rs).n
    ensures forall i :: 0 <= i < |rs| ==> BatchOf(rs[i]).Fin? && BatchOf(rs[i]).n <= BatchMax(c, rs).n
  {
    if |rs| > 0 {
      BatchMaxBounds(c, rs[..|rs| - 1]);
    }
  }

  /** The counter stays a number exactly when it was one and every result's first
      segment is a digit string; otherwise `Math.max` makes it NaN. */
  lemma {:induction false} BatchMaxFinite<V>(c: Num, rs: seq<Entry<V>>)
    ensures BatchMax(c, rs).Fin? <==> c.Fin? && forall i :: 0 <= i < |rs| ==> BatchOf(rs[i]).Fin?
  {
    if |rs| > 0 {
      BatchMaxFinite(c, rs[..|rs| - 1]);
      if BatchMax(c, rs).Fin? {
        BatchMaxBounds(c, rs);
      }
    }
  }

  /** After a push's entries come back from the server, `resetLocal` raises the counter
      to at least their batch: results with their hash removed read back as the batch. */
  lemma ResetCoversPushedBatch<V>(c: Num, rs: seq<Entry<V>>, i: nat, batch: Num, path: seq<string>, hash: string)
    requires i < |rs| && rs[i].path == DropLast(ServerPath(batch, path, hash))
    requires BatchMax(c, rs).Fin?
    ensures batch.Fin? && batch.n <= BatchMax(c, rs).n
  {
    ServerPathRoundTrip(batch, path, hash);
    BatchMaxBounds(c, rs);
  }

  /** `probe(n)`: the first page of `list(String(n))` is `done` and has no entries. */
  predicate ProbeAt<V>(list: Lister<V>, n: Num)
  {
    var first := list([NumToString(n)])[0];
    first.done && |first.chunk| == 0
  }

  /** `n` incremented `k` times. */
  function IncBy(n: Num, k: nat): (r: Num)
    ensures n.Fin? <==> r.Fin?
    ensures n.Fin? ==> r.n == n.n + k
  {
    if k == 0 then n else Inc(IncBy(n, k - 1))
  }

  /** The Nodes one `entriesToNodes(rs).forEach(n => config.onNode?.(n))` hands out:
      none when it throws or there is no `onNode`. */
  function Delivered(config: Config, rs: seq<Entry<Fact>>): seq<seq<NodeObject>>
  {
    if config.onNode && RunOk(rs) then [Materialized(rs)] else []
  }

  /** What `n` such passes over the same `rs` hand out, one element per pass: the
      same Nodes every time, or nothing at all. */
  function Passes(config: Config, rs: seq<Entry<Fact>>, n: nat): (r: seq<seq<NodeObject>>)
    ensures config.onNode && RunOk(rs) ==> |r| == n
    ensures forall i :: 0 <= i < |r| ==> r[i] == Materialized(rs)
    ensures !config.onNode || !RunOk(rs) ==> r == []
  {
    if config.onNode && RunOk(rs) then seq(n, _ => Materialized(rs)) else []
  }

  /** One more pass appends what a single pass delivers. */
  lemma PassesNext(config: Config, rs: seq<Entry<Fact>>, n: nat)
    ensures Passes(config, rs, n) + Delivered(config, rs) == Passes(config, rs, n + 1)
  {
    if config.onNode && RunOk(rs) {
      assert forall i :: 0 <= i < n + 1 ==> (Passes(config, rs, n) + Delivered(config, rs))[i] == Materialized(rs);
    }
  }

  /** `prefix` followed by `s` appended `n` times over. */
  function Replay<T>(prefix: seq<T>, s: seq<T>, n: nat): (r: seq<T>)
    ensures |prefix| <= |r|
    ensures r[..|prefix|] == prefix
  {
    if n == 0 then prefix else Replay(prefix, s, n - 1) + s
  }

  lemma ReplayNext<T>(prefix: seq<T>, s: seq<T>, n: nat)
    ensures Replay(prefix, s, n + 1) == Replay(prefix, s, n) + s
  {
  }

  /** Replaying what one pass delivers `n` times is what `n` passes deliver. */
  lemma {:induction false} ReplayDelivered(config: Config, rs: seq<Entry<Fact>>, prefix: seq<seq<NodeObject>>, n: nat)
    ensures Replay(prefix, Delivered(config, rs), n) == prefix + Passes(config, rs, n)
  {
    if n > 0 {
      ReplayDelivered(config, rs, prefix, n - 1);
      PassesNext(config, rs, n - 1);
    } else {
      assert Passes(config, rs, 0) == [];
    }
  }

  /** `pull`'s local `probe(batchNum)`: whether the first page listed under
      `String(batchNum)` is done and empty. */
  function Probe<V>(list: Lister<V>): Num -> bool
  {
    n => ProbeAt(list, n)
  }

  /** The iterations `while (await probe(currentBatchNumber + 1))` runs from counter `c`,
      when at most `fuel` are allowed. */
  function Rounds(probe: Num -> bool, c: Num, fuel: nat): nat
    decreases fuel
  {
    if fuel == 0 || !probe(Inc(c)) then 0 else 1 + Rounds(probe, Inc(c), fuel - 1)
  }

  lemma RoundsStep(probe: Num -> bool, c: Num, fuel: nat)
    ensures fuel > 0 && probe(Inc(c)) ==> Rounds(probe, c, fuel) == 1 + Rounds(probe, Inc(c), fuel - 1)
    ensures fuel == 0 || !probe(Inc(c)) ==> Rounds(probe, c, fuel) == 0
  {
  }

  /** The loop stops once the fuel is spent or the probe finds the batch empty. */
  lemma RoundsDone(probe: Num -> bool, c: Num, left: nat)
    requires left == 0 || !probe(Inc(c))
    ensures Rounds(probe, c, left) == 0
  {
  }

  /** One more iteration leaves the total number of iterations as it was. */
  lemma RoundsAdvance(probe: Num -> bool, c: Num, left: nat, rounds: nat, total: nat)
    requires left > 0 && probe(Inc(c)) && total == rounds + Rounds(probe, c, left)
    ensures total == (rounds + 1) + Rounds(probe, Inc(c), left - 1)
  {
  }

  lemma {:induction false} IncByShift(n: Num, k: nat)
    ensures IncBy(Inc(n), k) == IncBy(n, k + 1)
  {
    if k > 0 {
      IncByShift(n, k - 1);
    }
  }

  /** The loop passes only through empty batches and stops at the first probe that
      finds the next batch non-empty (or when the fuel runs out). */
  lemma {:induction false} RoundsProbes(probe: Num -> bool, c: Num, fuel: nat)
    ensures Rounds(probe, c, fuel) <= fuel
    ensures forall j :: 1 <= j <= Rounds(probe, c, fuel) ==> probe(IncBy(c, j))
    ensures Rounds(probe, c, fuel) < fuel ==> !probe(IncBy(c, Rounds(probe, c, fuel) + 1))
    decreases fuel
  {
    if fuel > 0 && probe(Inc(c)) {
      RoundsProbes(probe, Inc(c), fuel - 1);
      var r := Rounds(probe, Inc(c), fuel - 1);
      forall j | 1 <= j <= r + 1
        ensures probe(IncBy(c, j))
      {
        if j > 1 {
          IncByShift(c, j - 1);
        }
      }
      IncByShift(c, r + 1);
    }
  }

  /**
   * As written, `pull` never stops once the batches above the counter are empty: a
   * server that holds finitely many batches makes every later probe true, so the
   * loop uses all the fuel it is given.
   */
  lemma {:induction false} RoundsNeverStop<V>(list: Lister<V>, c: Num, fuel: nat)
    requires c.Fin? && forall m: nat :: m > c.n ==> ProbeAt(list, Fin(m))
    ensures Rounds(Probe(list), c, fuel) == fuel
    decreases fuel
  {
    if fuel > 0 {
      assert Probe(list)(Inc(c));
      RoundsNeverStop(list, Inc(c), fuel - 1);
    }
  }

  /** `nodes.flatMap(n => [...collectPairs(n).values()])`: each Node is flattened with a
      Map and Set of its own, so a Node reachable from two arguments is emitted twice.
      `blocks` holds the separate results, one per argument. */
  method FlattenAll(heap: Heap, nodes: seq<Ref>) returns (entries: seq<Entry<Fact>>, ghost blocks: seq<seq<Entry<Fact>>>)
    requires Closed(heap) && forall i :: 0 <= i < |nodes| ==> nodes[i] in heap
    ensures forall i :: 0 <= i < |entries| ==> EmittedFrom(heap, heap.Keys, entries[i])
    ensures forall i :: 0 <= i < |nodes| ==> Covers(heap, nodes[i], entries)
    ensures |blocks| == |nodes| && entries == Concat(blocks)
    ensures forall i :: 0 <= i < |nodes| ==> FlattenedFrom(heap, nodes[i], blocks[i])
  {
    entries, blocks := [], [];
    var i := 0;
    while i < |nodes|
      invariant 0 <= i <= |nodes|
      invariant forall j :: 0 <= j < |entries| ==> EmittedFrom(heap, heap.Keys, entries[j])
      invariant forall j :: 0 <= j < i ==> Covers(heap, nodes[j], entries)
      invariant |blocks| == i && entries == Concat(blocks)
      invariant forall j :: 0 <= j < i ==> FlattenedFrom(heap, nodes[j], blocks[j])
    {
      entries, blocks := FlattenNext(heap, nodes, i, entries, blocks);
      i := i + 1;
    }
  }

  /** One step of the `flatMap`: the block of argument `i` joins the earlier ones. */
  method FlattenNext(heap: Heap, nodes: seq<Ref>, i: nat, entries: seq<Entry<Fact>>, ghost blocks: seq<seq<Entry<Fact>>>)
    returns (entries': seq<Entry<Fact>>, ghost blocks': seq<seq<Entry<Fact>>>)
    requires Closed(heap) && i < |nodes| && forall j :: 0 <= j < |nodes| ==> nodes[j] in heap
    requires forall j :: 0 <= j < |entries| ==> EmittedFrom(heap, heap.Keys, entries[j])
    requires forall j :: 0 <= j < i ==> Covers(heap, nodes[j], entries)
    requires |blocks| == i && entries == Concat(blocks)
    requires forall j :: 0 <= j < i ==> FlattenedFrom(heap, nodes[j], blocks[j])
    ensures forall j :: 0 <= j < |entries'| ==> EmittedFrom(heap, heap.Keys, entries'[j])
    ensures forall j :: 0 <= j < i + 1 ==> Covers(heap, nodes[j], entries')
    ensures |blocks'| == i + 1 && entries' == Concat(blocks')
    ensures forall j :: 0 <= j < i + 1 ==> FlattenedFrom(heap, nodes[j], blocks'[j])
  {
    var pairs := NodePairs(heap, nodes[i]);
    EmittedAppend(heap, entries, pairs);
    CoveredAppend(heap, nodes, i, entries, pairs);
    CoversSuffix(heap, nodes[i], entries, pairs);
    assert (blocks + [pairs])[..i] == blocks;
    FlattenedSnoc(heap, nodes, blocks, pairs);
    entries', blocks' := entries + pairs, blocks + [pairs];
  }

  /** `[...collectPairs(n).values()]` for one Node of the list: the entries set by the
      Nodes `n` reaches, covering each of their leaves, no key twice. */
  method NodePairs(heap: Heap, n: Ref) returns (pairs: seq<Entry<Fact>>)
    requires Closed(heap) && n in heap
    ensures forall j :: 0 <= j < |pairs| ==> EmittedFrom(heap, heap.Keys, pairs[j])
    ensures Covers(heap, n, pairs)
    ensures FlattenedFrom(heap, n, pairs)
  {
    ghost var visited, collection;
    pairs, visited, collection := PairsOf(heap, n);
    forall j | 0 <= j < |pairs|
      ensures EmittedFrom(heap, heap.Keys, pairs[j])
    {
      var r :| r in visited && r in heap && EmittedBy(heap, r, pairs[j]);
    }
  }

  /** One more node's block keeps every earlier node's block as it was. */
  lemma FlattenedSnoc(heap: Heap, nodes: seq<Ref>, blocks: seq<seq<Entry<Fact>>>, pairs: seq<Entry<Fact>>)
    requires |blocks| < |nodes| && FlattenedFrom(heap, nodes[|blocks|], pairs)
    requires forall j :: 0 <= j < |blocks| ==> FlattenedFrom(heap, nodes[j], blocks[j])
    ensures forall j :: 0 <= j < |blocks| + 1 ==> FlattenedFrom(heap, nodes[j], (blocks + [pairs])[j])
  {
    forall j | 0 <= j < |blocks| + 1
      ensures FlattenedFrom(heap, nodes[j], (blocks + [pairs])[j])
    {
      if j < |blocks| {
        assert (blocks + [pairs])[j] == blocks[j];
      }
    }
  }

  lemma CoversSuffix(heap: Heap, r: Ref, a: seq<Entry<Fact>>, b: seq<Entry<Fact>>)
    requires r in heap && Covers(heap, r, b)
    ensures Covers(heap, r, a + b)
  {
    assert forall i :: 0 <= i < |b| ==> (a + b)[|a| + i] == b[i];
    CoversGrows(heap, r, b, a + b);
  }

  lemma EmittedAppend(heap: Heap, a: seq<Entry<Fact>>, b: seq<Entry<Fact>>)
    requires forall j :: 0 <= j < |a| ==> EmittedFrom(heap, heap.Keys, a[j])
    requires forall j :: 0 <= j < |b| ==> EmittedFrom(heap, heap.Keys, b[j])
    ensures forall j :: 0 <= j < |a + b| ==> EmittedFrom(heap, heap.Keys, (a + b)[j])
  {
    forall j | 0 <= j < |a + b|
      ensures EmittedFrom(heap, heap.Keys, (a + b)[j])
    {
      if j >= |a| {
        assert (a + b)[j] == b[j - |a|];
      }
    }
  }

  lemma CoveredAppend(heap: Heap, ns: seq<Ref>, n: nat, a: seq<Entry<Fact>>, b: seq<Entry<Fact>>)
    requires n <= |ns| && forall j :: 0 <= j < n ==> ns[j] in heap && Covers(heap, ns[j], a)
    ensures forall j :: 0 <= j < n ==> Covers(heap, ns[j], a + b)
  {
    assert forall i :: 0 <= i < |a| ==> (a + b)[i] == a[i];
    forall j | 0 <= j < n
      ensures Covers(heap, ns[j], a + b)
    {
      CoversGrows(heap, ns[j], a, a + b);
    }
  }

  // ---------------------------------------------------------------------------
  // The object returned by db(config)
  // ---------------------------------------------------------------------------

  class Db {
    const config: Config
    /** `currentBatchNumber`. */
    var counter: Num
    var local: Store
    var server: Store
    /** The messages sent with `publish`, in order. */
    var published: seq<Entry<Fact>>
    /** The Nodes handed to `onNode`, in order, each with the objects it links to; one
        element per `entriesToNodes` pass. */
    var notified: seq<seq<NodeObject>>

    /** `db(config)`: the counter starts at 0. */
    constructor (config: Config, local: Store, server: Store)
      ensures this.config == config && counter == Fin(0)
      ensures this.local == local && this.server == server && published == [] && notified == []
    {
      this.config := config;
      counter := Fin(0);
      this.local := local;
      this.server := server;
      published := [];
      notified := [];
    }

    /**
     * `push(...nodes)`: reserves the current counter as the batch, increments the
     * counter once, flattens each Node with a fresh Map and Set, and settles one job
     * per flattened entry. `hash` is the write hash `getBatchHash()` draws; `blocks`
     * holds what each argument flattens to.
     */
    method Push(heap: Heap, nodes: seq<Ref>, hash: string, localFails: set<seq<string>>, serverFails: set<seq<string>>)
      returns (batch: Num, entries: seq<Entry<Fact>>, outcomes: seq<Outcome<Fact>>, ghost blocks: seq<seq<Entry<Fact>>>)
      requires Closed(heap) && forall i :: 0 <= i < |nodes| ==> nodes[i] in heap
      modifies this
      ensures batch == old(counter) && counter == Inc(old(counter))
      ensures forall i :: 0 <= i < |entries| ==> EmittedFrom(heap, heap.Keys, entries[i])
      ensures forall i :: 0 <= i < |nodes| ==> Covers(heap, nodes[i], entries)
      ensures |blocks| == |nodes| && entries == Concat(blocks)
      ensures forall i :: 0 <= i < |nodes| ==> FlattenedFrom(heap, nodes[i], blocks[i])
      ensures |outcomes| == |entries|
      ensures forall i :: 0 <= i < |entries| ==> outcomes[i] == Settle(config, localFails, serverFails, batch, hash, entries[i])
      ensures local == Apply(old(local), LocalWrites(config, localFails, entries))
      ensures server == Apply(old(server), ServerWrites(config, localFails, serverFails, batch, hash, entries))
      ensures published == old(published) + Published(config, localFails, serverFails, batch, hash, entries)
      ensures notified == old(notified)
    {
      batch := counter;
      counter := Inc(counter);
      entries, blocks := FlattenAll(heap, nodes);
      ghost var local0, server0 := local, server;
      outcomes := SettleAll(batch, hash, localFails, serverFails, entries);
      OutcomesAt(config, localFails, serverFails, batch, hash, entries);
      LocalAfterIsApply(config, localFails, local0, entries);
      ServerAfterIsApply(config, localFails, serverFails, batch, hash, server0, entries);
    }

    /** `Promise.allSettled(allEntries.map(...))`, the jobs taken one after another. */
    method SettleAll(batch: Num, hash: string, localFails: set<seq<string>>, serverFails: set<seq<string>>,
                     entries: seq<Entry<Fact>>) returns (outcomes: seq<Outcome<Fact>>)
      modifies this
      ensures outcomes == Outcomes(config, localFails, serverFails, batch, hash, entries)
      ensures local == LocalAfter(config, localFails, old(local), entries)
      ensures server == ServerAfter(config, localFails, serverFails, batch, hash, old(server), entries)
      ensures published == old(published) + Published(config, localFails, serverFails, batch, hash, entries)
      ensures counter == old(counter) && notified == old(notified)
    {
      ghost var local0, server0, published0 := local, server, published;
      outcomes := [];
      var k := 0;
      while k < |entries|
        invariant 0 <= k <= |entries|
        invariant outcomes == Outcomes(config, localFails, serverFails, batch, hash, entries[..k])
        invariant local == LocalAfter(config, localFails, local0, entries[..k])
        invariant server == ServerAfter(config, localFails, serverFails, batch, hash, server0, entries[..k])
        invariant published == published0 + Published(config, localFails, serverFails, batch, hash, entries[..k])
        invariant counter == old(counter) && notified == old(notified)
      {
        var o := SettleNext(batch, hash, localFails, serverFails, entries, k, local0, server0, published0);
        outcomes := outcomes + [o];
        k := k + 1;
      }
      assert entries[..k] == entries;
    }

    /** Job number `k`, which carries the stores from `entries[..k]` to `entries[..k + 1]`. */
    method SettleNext(batch: Num, hash: string, localFails: set<seq<string>>, serverFails: set<seq<string>>,
                      entries: seq<Entry<Fact>>, k: nat, ghost local0: Store, ghost server0: Store,
                      ghost published0: seq<Entry<Fact>>) returns (o: Outcome<Fact>)
      requires k < |entries|
      requires local == LocalAfter(config, localFails, local0, entries[..k])
      requires server == ServerAfter(config, localFails, serverFails, batch, hash, server0, entries[..k])
      requires published == published0 + Published(config, localFails, serverFails, batch, hash, entries[..k])
      modifies this
      ensures o == Settle(config, localFails, serverFails, batch, hash, entries[k])
      ensures Outcomes(config, localFails, serverFails, batch, hash, entries[..k + 1]) ==
              Outcomes(config, localFails, serverFails, batch, hash, entries[..k]) + [o]
      ensures local == LocalAfter(config, localFails, local0, entries[..k + 1])
      ensures server == ServerAfter(config, localFails, serverFails, batch, hash, server0, entries[..k + 1])
      ensures published == published0 + Published(config, localFails, serverFails, batch, hash, entries[..k + 1])
      ensures counter == old(counter) && notified == old(notified)
    {
      ghost var pub := Published(config, localFails, serverFails, batch, hash, entries[..k]);
      ghost var step := PublishStep(config, localFails, serverFails, batch, hash, entries[k]);
      assert entries[..k + 1][..k] == entries[..k];
      o := PushEntry(batch, hash, localFails, serverFails, entries[k]);
      assert published0 + pub + step == published0 + (pub + step);
    }

    /** The async job of one entry. */
    method PushEntry(batch: Num, hash: string, localFails: set<seq<string>>, serverFails: set<seq<string>>, e: Entry<Fact>)
      returns (o: Outcome<Fact>)
      modifies this
      ensures o == Settle(config, localFails, serverFails, batch, hash, e)
      ensures local == Apply(old(local), LocalStep(config, localFails, e))
      ensures server == Apply(old(server), ServerStep(config, localFails, serverFails, batch, hash, e))
      ensures published == old(published) + PublishStep(config, localFails, serverFails, batch, hash, e)
      ensures counter == old(counter) && notified == old(notified)
    {
      if config.localSet {
        if e.path in localFails {
          return Rejected;
        }
        local := local[e.path := e.value];
      }
      if config.serverSet {
        var sp := ServerPath(batch, e.path, hash);
        if sp in serverFails {
          return Rejected;
        }
        server := server[sp := e.value];
      }
      if config.publish {
        published := published + [e];
      }
      o := Fulfilled(e);
    }

    /** `results.forEach(res => config.local?.set?.(res.path.slice(1), res.value, res.ref))`.
        Every write is taken to land: a failing local write is not modelled here. */
    method SyncLocal(rs: seq<Entry<Fact>>)
      modifies this
      ensures local == (if config.localSet then Apply(old(local), LocalEntries(rs)) else old(local))
      ensures counter == old(counter) && server == old(server)
      ensures published == old(published) && notified == old(notified)
    {
      if !config.localSet {
        return;
      }
      ghost var local0 := local;
      var i := 0;
      while i < |rs|
        invariant 0 <= i <= |rs|
        invariant local == Synced(local0, rs[..i])
        invariant counter == old(counter) && server == old(server)
        invariant published == old(published) && notified == old(notified)
      {
        SyncedStep(local0, rs, i);
        local := local[Tail(rs[i].path) := rs[i].value];
        i := i + 1;
      }
      assert rs[..i] == rs;
      SyncedIsApply(local0, rs);
    }

    /** `entriesToNodes(results).forEach(n => config.onNode?.(n))`; `completed` is false
        where `entriesToNodes` throws, and then no Node is delivered. */
    method Deliver(rs: seq<Entry<Fact>>) returns (completed: bool, nodes: seq<NodeObject>)
      modifies this
      ensures completed == RunOk(rs)
      ensures completed ==> nodes == Materialized(rs)
      ensures completed ==> forall i :: 0 <= i < |rs| ==> EntryOk(rs[i])
      ensures completed ==> |nodes| == |NodeKeyOrder(rs)|
      ensures completed ==> forall i, j :: 0 <= i < j < |nodes| ==> nodes[i].id != nodes[j].id
      ensures notified == old(notified) + Delivered(config, rs)
      ensures counter == old(counter) && local == old(local) && server == old(server) && published == old(published)
    {
      completed, nodes := Build(rs);
      if completed && config.onNode {
        notified := notified + [nodes];
      }
    }

    /**
     * `resetLocal()`: without `clear`, `set` or `list` nothing happens; otherwise the
     * local store is cleared and refilled from the server's canonical entries, the
     * counter is raised to each result's batch number, and the Nodes are delivered.
     */
    method ResetLocal(list: Lister<Fact>) returns (ran: bool, completed: bool)
      modifies this
      ensures ran == (config.localClear && config.localSet && config.serverList)
      ensures !ran ==> counter == old(counter) && local == old(local) && notified == old(notified) && !completed
      ensures ran ==> counter == BatchMax(old(counter), Results(list))
      ensures ran ==> local == Apply(map[], LocalEntries(Results(list)))
      ensures ran ==> completed == RunOk(Results(list))
      ensures ran ==> notified == old(notified) + Delivered(config, Results(list))
      ensures server == old(server) && published == old(published)
    {
      if !config.localClear || !config.localSet || !config.serverList {
        return false, false;
      }
      var results := ExtractChunks(list([]));
      Rebuild(results);
      var nodes;
      completed, nodes := Deliver(results);
      ran := true;
    }

    /** `await config.local.clear()`, then for each result the counter update and the
        local write of `resetLocal`'s loop. */
    method Rebuild(rs: seq<Entry<Fact>>)
      modifies this
      ensures counter == BatchMax(old(counter), rs)
      ensures local == Apply(map[], LocalEntries(rs))
      ensures server == old(server) && published == old(published) && notified == old(notified)
    {
      ghost var counter0 := counter;
      local := map[];
      var i := 0;
      while i < |rs|
        invariant 0 <= i <= |rs|
        invariant counter == BatchMax(counter0, rs[..i])
        invariant local == Synced(map[], rs[..i])
        invariant server == old(server) && published == old(published) && notified == old(notified)
      {
        SyncedStep(map[], rs, i);
        BatchMaxStep(counter0, rs, i);
        counter := Max(counter, NumberOf(PathAt(rs[i].path, 0)));
        local := local[Tail(rs[i].path) := rs[i].value];
        i := i + 1;
      }
      assert rs[..i] == rs;
      SyncedIsApply(map[], rs);
    }

    /** `getBatch()`: sync the local store with the full canonical listing and deliver
        its Nodes. */
    method GetBatch(list: Lister<Fact>) returns (completed: bool)
      requires config.serverList && config.localSet
      modifies this
      ensures local == Apply(old(local), LocalEntries(Results(list)))
      ensures completed == RunOk(Results(list))
      ensures notified == old(notified) + Delivered(config, Results(list))
      ensures counter == old(counter) && server == old(server) && published == old(published)
    {
      var results := ExtractChunks(list([]));
      SyncLocal(results);
      var nodes;
      completed, nodes := Deliver(results);
    }

    /** The body of `pull`'s loop, `currentBatchNumber++; await getBatch()`, once a
        first `getBatch` has returned: `w` and `ms` are what that call wrote to local
        and handed to `onNode`, and this one does the same, in round `n`. */
    method NextBatch(list: Lister<Fact>, ghost w: seq<Entry<Fact>>, ghost ms: seq<seq<NodeObject>>,
                     ghost base: Store, ghost prefix: seq<seq<NodeObject>>, ghost n: nat)
      requires config.serverList && config.localSet
      requires w == LocalEntries(Results(list)) && ms == Delivered(config, Results(list))
      requires local == Apply(base, w) && notified == Replay(prefix, ms, n)
      modifies this
      ensures counter == Inc(old(counter))
      ensures local == old(local) && notified == Replay(prefix, ms, n + 1)
      ensures server == old(server) && published == old(published)
    {
      ApplyIdempotent(base, w);
      ReplayNext(prefix, ms, n);
      counter := Inc(counter);
      var _ := GetBatch(list);
    }

    /** One iteration of `Drain`'s loop, from counter `c0` after `rounds` iterations,
        with `left` more allowed and `total` to run in all. */
    method Round(list: Lister<Fact>, probe: Num -> bool, ghost w: seq<Entry<Fact>>, ghost ms: seq<seq<NodeObject>>,
                 ghost base: Store, ghost prefix: seq<seq<NodeObject>>, ghost n: nat,
                 ghost c0: Num, ghost rounds: nat, ghost left: nat, ghost total: nat)
      requires config.serverList && config.localSet
      requires w == LocalEntries(Results(list)) && ms == Delivered(config, Results(list))
      requires local == Apply(base, w) && notified == Replay(prefix, ms, n)
      requires left > 0 && probe(Inc(counter)) && total == rounds + Rounds(probe, counter, left)
      requires counter == IncBy(c0, rounds)
      modifies this
      ensures counter == IncBy(c0, rounds + 1) && total == (rounds + 1) + Rounds(probe, counter, left - 1)
      ensures local == old(local) && notified == Replay(prefix, ms, n + 1)
      ensures server == old(server) && published == old(published)
    {
      RoundsAdvance(probe, counter, left, rounds, total);
      NextBatch(list, w, ms, base, prefix, n);
    }

    /** `while (await probe(currentBatchNumber + 1)) { currentBatchNumber++; await
        getBatch() }`, with at most `fuel` iterations, once a first `getBatch` has
        returned: local stays as that call left it, and `onNode` gets its Nodes again
        in each round. Every `getBatch` here reads the listing the first one read, so
        none of them throws and the loop does not look at their results. */
    method Drain(list: Lister<Fact>, probe: Num -> bool, fuel: nat, ghost w: seq<Entry<Fact>>, ghost ms: seq<seq<NodeObject>>,
                 ghost base: Store, ghost prefix: seq<seq<NodeObject>>, ghost k: nat) returns (rounds: nat)
      requires config.serverList && config.localSet
      requires w == LocalEntries(Results(list)) && ms == Delivered(config, Results(list))
      requires local == Apply(base, w) && notified == Replay(prefix, ms, k)
      modifies this
      ensures rounds == Rounds(probe, old(counter), fuel) && counter == IncBy(old(counter), rounds)
      ensures local == old(local) && notified == Replay(prefix, ms, rounds + k)
      ensures server == old(server) && published == old(published)
    {
      ghost var c0, total, left, n := counter, Rounds(probe, counter, fuel), fuel, k;
      rounds := 0;
      while rounds < fuel && probe(Inc(counter))
        invariant counter == IncBy(c0, rounds)
        invariant rounds <= fuel
        invariant left == fuel - rounds && total == rounds + Rounds(probe, counter, left)
        invariant n == rounds + k && local == old(local) && notified == Replay(prefix, ms, n)
        invariant server == old(server) && published == old(published)
        decreases left
      {
        Round(list, probe, w, ms, base, prefix, n, c0, rounds, left, total);
        rounds, left, n := rounds + 1, left - 1, n + 1;
      }
      RoundsDone(probe, counter, left);
    }

    /**
     * `pull()`, with at most `fuel` iterations of its loop. Without `list` or `set`
     * nothing happens. `resync` says whether the un-awaited `resetLocal()` is started
     * (the first probe found the current batch non-empty); that call is a separate
     * step, `ResetLocal`. `rounds` is the number of increments; `completed` is false
     * where a `getBatch` throws, which ends the pull.
     */
    method Pull(list: Lister<Fact>, fuel: nat) returns (ran: bool, resync: bool, rounds: nat, completed: bool)
      modifies this
      ensures ran == (config.serverList && config.localSet)
      ensures !ran ==> counter == old(counter) && local == old(local) && notified == old(notified)
      ensures ran ==> resync == !ProbeAt(list, old(counter))
      ensures ran ==> counter == IncBy(old(counter), rounds)
      // every getBatch reads the same listing, so either all of them return or the first throws
      ensures ran ==> completed == RunOk(Results(list))
      ensures ran ==> rounds == if completed then Rounds(Probe(list), old(counter), fuel) else 0
      ensures ran ==> notified == Replay(old(notified), Delivered(config, Results(list)), rounds + 1)
      // every getBatch writes the same entries, so the store ends as after one sync
      ensures ran ==> local == Apply(old(local), LocalEntries(Results(list)))
      ensures server == old(server) && published == old(published)
    {
      if !config.serverList || !config.localSet {
        return false, false, 0, false;
      }
      ran := true;
      var probe := Probe(list);
      resync := !probe(counter);
      ghost var local0, notified0 := local, notified;
      completed := GetBatch(list);
      rounds := 0;
      if !completed {
        return;
      }
      ghost var w, ms := LocalEntries(Results(list)), Delivered(config, Results(list));
      ReplayNext(notified0, ms, 0);
      rounds := Drain(list, probe, fuel, w, ms, local0, notified0, 1);
    }
  }
}
