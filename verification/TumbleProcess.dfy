/** processRoot, from the query to the deletes after the commit (tumble/process.go:284-458,
    tumble/model_mutation.go:135-167). */
module TumbleProcess {

  import opened TumbleKeys
  import opened TumbleStore
  import opened TumbleBatch

  /** The datastore; its journal also remembers what became of every mutation. */
  class Datastore {
    var journal: Journal

    constructor ()
      ensures journal == EMPTY
    {
      journal := EMPTY;
    }
  }

  /** A ban set: mutations its processor has finished and does not want to see again. */
  class BanSet {
    var keys: set<MutKey>

    constructor ()
      ensures keys == {}
    {
      keys := {};
    }
  }

  // ----- The batch -----

  function Free(results: seq<MutKey>, banned: set<MutKey>): (r: seq<MutKey>)
    ensures |r| <= |results|
  {
    if results == [] then []
    else
      Free(results[..|results| - 1], banned)
      + if results[|results| - 1] in banned then [] else [results[|results| - 1]]
  }

  /** The mutations a batch is made of: as many free ones as fit; but without a limit, only the first
      result is looked at. */
  function Batched(max: int, results: seq<MutKey>, banned: set<MutKey>): seq<MutKey> {
    if max > 0 then
      var free := Free(results, banned);
      if |free| <= max then free else free[..max]
    else Free(if results == [] then [] else results[..1], banned)
  }

  lemma {:induction false} FreePrefix(results: seq<MutKey>, banned: set<MutKey>, i: nat)
    requires i <= |results|
    ensures Free(results[..i], banned) <= Free(results, banned)
  {
    if i < |results| {
      FreePrefix(results[..|results| - 1], banned, i);
      assert results[..|results| - 1][..i] == results[..i];
    } else {
      assert results[..i] == results;
    }
  }

  lemma {:induction false} FreeIsFilter(results: seq<MutKey>, banned: set<MutKey>, k: MutKey)
    ensures k in Free(results, banned) <==> k in results && k !in banned
  {
    if results != [] {
      var last := |results| - 1;
      assert results == results[..last] + [results[last]];
      FreeIsFilter(results[..last], banned, k);
    }
  }

  /** The free ones are taken in the order of the query. */
  lemma {:induction false} FreeConcat(a: seq<MutKey>, b: seq<MutKey>, k: MutKey, banned: set<MutKey>)
    ensures Free(a + b, banned) == Free(a, banned) + Free(b, banned)
    ensures Free([k], banned) == if k in banned then [] else [k]
  {
    assert [k][..0] == [];
    if b == [] {
      assert a + b == a;
    } else {
      assert (a + b)[..|a + b| - 1] == a + b[..|b| - 1];
      FreeConcat(a, b[..|b| - 1], k, banned);
    }
  }

  /** With a limit an empty batch means there is nothing left to do for the root; without one a
      single banned mutation in front hides all the others. */
  lemma EmptyBatch(max: int, results: seq<MutKey>, banned: set<MutKey>)
    ensures max > 0 ==> (Batched(max, results, banned) == [] <==> forall k | k in results :: k in banned)
    ensures max <= 0 ==> (Batched(max, results, banned) == [] <==> results == [] || results[0] in banned)
  {
    if max > 0 {
      var free := Free(results, banned);
      assert Batched(max, results, banned) == [] <==> free == [];
      forall k ensures k in free <==> k in results && k !in banned {
        FreeIsFilter(results, banned, k);
      }
      assert free != [] ==> free[0] in free;
    } else if results != [] {
      assert results[..1] == [results[0]] && results[..1][..0] == [];
    }
  }

  /** What a processing task has banned it does not run again, however often the query still shows it;
      and if the limit allows, it takes everything else, otherwise as much of it as it allows, in order. */
  lemma BatchExact(max: int, results: seq<MutKey>, banned: set<MutKey>, k: MutKey)
    ensures k in Batched(max, results, banned) ==> k in results && k !in banned
    ensures max >= |Free(results, banned)| > 0 ==>
      (k in Batched(max, results, banned) <==> k in results && k !in banned)
    ensures max > 0 ==>
      && Batched(max, results, banned) <= Free(results, banned)
      && |Batched(max, results, banned)| == if max <= |Free(results, banned)| then max else |Free(results, banned)|
  {
    FreeIsFilter(results, banned, k);
    FreeIsFilter(if results == [] then [] else results[..1], banned, k);
  }

  /** getBatchByRoot. `results` are the keys the query yields. A full slice ends the query; a slice
      made without capacity is full from the start. */
  method GetBatchByRoot(max: int, results: seq<MutKey>, banned: BanSet) returns (toFetch: seq<MutKey>)
    ensures toFetch == Batched(max, results, banned.keys)
  {
    var capacity := if max < 0 then 0 else max;
    toFetch := [];
    var i := 0;
    while i < |results|
      invariant 0 <= i <= |results|
      invariant toFetch == Free(results[..i], banned.keys)
      invariant capacity == if max < 0 then 0 else max
      invariant i > 0 ==> |toFetch| < capacity
    {
      FreePrefix(results, banned.keys, i + 1);
      assert results[..i + 1][..i] == results[..i];
      if results[i] !in banned.keys {
        toFetch := toFetch + [results[i]];
      }
      if capacity < |toFetch| {
        capacity := |toFetch|;
      }
      if !(|toFetch| < capacity) {
        return;
      }
      i := i + 1;
    }
    assert results[..i] == results;
  }

  // ----- Loading -----

  function Loadable(store: map<MutKey, Record>, keys: seq<MutKey>, undecodable: set<MutKey>): seq<Work> {
    if keys == [] then []
    else
      var k := keys[|keys| - 1];
      Loadable(store, keys[..|keys| - 1], undecodable)
      + if k in store && k !in undecodable then [Work(store[k].mutation, k)] else []
  }

  /** What is loaded is exactly what was stored at the time and can be decoded. */
  lemma {:induction false} LoadableExact(store: map<MutKey, Record>, keys: seq<MutKey>, undecodable: set<MutKey>,
                                         w: Work)
    ensures w in Loadable(store, keys, undecodable) <==>
            w.key in keys && w.key in store && w.key !in undecodable && w.mutation == store[w.key].mutation
  {
    if keys != [] {
      var last := |keys| - 1;
      assert keys == keys[..last] + [keys[last]];
      LoadableExact(store, keys[..last], undecodable, w);
    }
  }

  /** In order. */
  lemma {:induction false} LoadableConcat(store: map<MutKey, Record>, a: seq<MutKey>, b: seq<MutKey>,
                                          undecodable: set<MutKey>)
    ensures Loadable(store, a + b, undecodable) == Loadable(store, a, undecodable) + Loadable(store, b, undecodable)
  {
    if b == [] {
      assert a + b == a;
    } else {
      assert (a + b)[..|a + b| - 1] == a + b[..|b| - 1];
      LoadableConcat(store, a, b[..|b| - 1], undecodable);
    }
  }

  function Zip(muts: seq<Mutation>, keys: seq<MutKey>): (w: seq<Work>)
    requires |muts| == |keys|
    ensures |w| == |muts| && forall x | 0 <= x < |w| :: w[x] == Work(muts[x], keys[x])
  {
    seq(|muts|, x requires 0 <= x < |muts| => Work(muts[x], keys[x]))
  }

  /** loadFilteredMutations: mutations that are gone or cannot be decoded are passed over, any other
      datastore error fails the batch. */
  method LoadFilteredMutations(db: Datastore, keys: seq<MutKey>, unreadable: set<MutKey>, undecodable: set<MutKey>)
    returns (ok: bool, mutKeys: seq<MutKey>, muts: seq<Mutation>)
    ensures ok <==> forall k | k in keys :: k !in unreadable
    ensures ok ==> |mutKeys| == |muts| && Zip(muts, mutKeys) == Loadable(db.journal.store, keys, undecodable)
  {
    mutKeys, muts := [], [];
    var i := 0;
    while i < |keys|
      invariant 0 <= i <= |keys| && |mutKeys| == |muts|
      invariant forall x | 0 <= x < i :: keys[x] !in unreadable
      invariant Zip(muts, mutKeys) == Loadable(db.journal.store, keys[..i], undecodable)
    {
      var k := keys[i];
      assert keys[..i + 1][..i] == keys[..i];
      if k in unreadable {
        return false, [], [];
      }
      if k in db.journal.store && k !in undecodable {
        ghost var before := Zip(muts, mutKeys);
        muts := muts + [db.journal.store[k].mutation];
        mutKeys := mutKeys + [k];
        assert Zip(muts, mutKeys) == before + [Work(db.journal.store[k].mutation, k)];
      }
      i := i + 1;
    }
    assert keys[..i] == keys;
    ok := true;
  }

  // ----- One attempt -----

  lemma OneMoreShard(cfg: Config, j: Journal, ms: seq<Mutation>, now: int, n: nat)
    requires n < |ms|
    ensures ShardsUpTo(cfg, j, ms, now, n + 1)
         == ShardsUpTo(cfg, j, ms, now, n) + {ShardOf(cfg, NewRecord(cfg, ms[n].(tag := |j.log| + n), now))}
  {
    hide ShardOf, NewRecord;
    assert ShardOf(cfg, Stored(cfg, j, ms, now, n)) in ShardsUpTo(cfg, j, ms, now, n + 1);
  }

  lemma NoShards(cfg: Config, j: Journal, ms: seq<Mutation>, now: int)
    ensures ShardsUpTo(cfg, j, ms, now, 0) == {}
  {
  }

  lemma NewShardsAll(cfg: Config, j: Journal, o: Outcome)
    requires o.Succeeded?
    ensures NewShards(cfg, j, o) == ShardsUpTo(cfg, j, Mutations(o.emitted), o.now, |o.emitted|)
  {
  }

  lemma OneMorePut(cfg: Config, j: Journal, k: MutKey, m: Mutation, now: int)
    ensures |Write(cfg, j, k, m, now).log| == |j.log| + 1
  {
  }

  function Tagged(ms: seq<Mutation>, base: nat, n: nat): (r: seq<Mutation>)
    requires n <= |ms|
    ensures |r| == n && forall x | 0 <= x < n :: r[x] == ms[x].(tag := base + x)
  {
    seq(n, x requires 0 <= x < n => ms[x].(tag := base + x))
  }

  function RoundKeys(root: Path, version: nat, round: nat, n: nat): (r: seq<MutKey>)
    ensures |r| == n && forall x: nat | x < n :: r[x] == Anon(root, version, round, x)
  {
    seq(n, x requires 0 <= x => Anon(root, version, round, x))
  }

  lemma OneMoreEntry(ms: seq<Mutation>, base: nat, root: Path, version: nat, round: nat, n: nat)
    requires n < |ms|
    ensures Tagged(ms, base, n + 1) == Tagged(ms, base, n) + [ms[n].(tag := base + n)]
    ensures RoundKeys(root, version, round, n + 1)
         == RoundKeys(root, version, round, n) + [Anon(root, version, round, n)]
  {
  }

  /** putMutations. */
  method PutAll(cfg: Config, j: Journal, root: Path, version: nat, round: nat, o: Outcome)
    returns (j': Journal, shardSet: set<TaskShard>, newMuts: seq<Mutation>, newMutKeys: seq<MutKey>)
    requires o.Succeeded?
    ensures j' == Put(cfg, root, version, j, round, o)
    ensures shardSet == NewShards(cfg, j, o)
    ensures |newMuts| == |newMutKeys| == |o.emitted|
    ensures forall x: nat | x < |o.emitted| :: newMuts[x] == o.emitted[x].mutation.(tag := |j.log| + x)
    ensures forall x: nat | x < |o.emitted| :: newMutKeys[x] == Anon(root, version, round, x)
  {
    hide ShardOf, NewRecord, ShardsUpTo, Stored, NewShards;
    NewShardsAll(cfg, j, o);
    var ms := Mutations(o.emitted);
    NoShards(cfg, j, ms, o.now);
    j', shardSet, newMuts, newMutKeys := j, {}, [], [];
    var i := 0;
    while i < |ms|
      invariant 0 <= i <= |ms| && |newMuts| == |newMutKeys| == i
      invariant j' == PutMutations(cfg, j, root, version, round, ms, o.now, i)
      invariant |j'.log| == |j.log| + i
      invariant shardSet == ShardsUpTo(cfg, j, ms, o.now, i)
      invariant newMuts == Tagged(ms, |j.log|, i) && newMutKeys == RoundKeys(root, version, round, i)
    {
      hide Tagged, RoundKeys;
      var key := Anon(root, version, round, i);
      var m := ms[i].(tag := |j'.log|);
      OneMoreShard(cfg, j, ms, o.now, i);
      OneMorePut(cfg, j', key, ms[i], o.now);
      OneMoreEntry(ms, |j.log|, root, version, round, i);
      hide Write;
      shardSet := shardSet + {ShardOf(cfg, NewRecord(cfg, m, o.now))};
      j' := Write(cfg, j', key, ms[i], o.now);
      newMuts, newMutKeys := newMuts + [m], newMutKeys + [key];
      i := i + 1;
    }
  }

  /** The transaction's body, over the two lists that grow while they are walked. */
  method RunAttempt(cfg: Config, root: Path, version: nat, found: Journal, muts: seq<Mutation>, mutKeys: seq<MutKey>,
                    script: seq<Outcome>, allShards: set<TaskShard>)
    returns (j: Journal, toDel: seq<MutKey>, shards: set<TaskShard>)
    requires |muts| == |mutKeys|
    ensures var f := RunFrom(cfg, root, version, Start(found, Zip(muts, mutKeys), allShards), 0, script);
      j == f.j && toDel == f.toDel && shards == f.shards
  {
    ghost var f := RunFrom(cfg, root, version, Start(found, Zip(muts, mutKeys), allShards), 0, script);
    j, toDel, shards := found, [], allShards;
    var iterMuts, iterMutKeys := muts, mutKeys;
    var i := 0;
    while i < |iterMuts|
      invariant 0 <= i <= |iterMuts| == |iterMutKeys|
      invariant RunFrom(cfg, root, version, Batch(j, Zip(iterMuts, iterMutKeys), toDel, shards), i, script) == f
      decreases if i < |script| then |script| - i else 0, |iterMuts| - i
    {
      ghost var b := Batch(j, Zip(iterMuts, iterMutKeys), toDel, shards);
      var o := At(script, i);
      if o.Succeeded? {
        var rolled := RolledForward(cfg, j, iterMuts[i].tag, o);
        var put, shardSet, newMuts, newMutKeys := PutAll(cfg, rolled, root, version, i, o);
        iterMuts, iterMutKeys := AppendDue(cfg, root, version, i, o, |rolled.log|, newMuts, newMutKeys, iterMuts,
                                           iterMutKeys);
        var key := iterMutKeys[i];
        assert key == b.work[i].key;
        if HasAncestor(Render(key), root) && o.deletes {
          j := Remove(put, key);
        } else {
          j := put;
          toDel := toDel + [key];
        }
        shards := shards + shardSet;
      }
      ghost var b' := RunOne(cfg, root, version, b, i, o);
      assert b' == Batch(j, Zip(iterMuts, iterMutKeys), toDel, shards);
      i := i + 1;
    }
  }

  method AppendDue(cfg: Config, root: Path, version: nat, round: nat, o: Outcome, base: nat, newMuts: seq<Mutation>,
                   newMutKeys: seq<MutKey>, muts: seq<Mutation>, keys: seq<MutKey>)
    returns (iterMuts: seq<Mutation>, iterMutKeys: seq<MutKey>)
    requires o.Succeeded? && |newMuts| == |newMutKeys| == |o.emitted| && |muts| == |keys|
    requires forall x: nat | x < |o.emitted| :: newMuts[x] == o.emitted[x].mutation.(tag := base + x)
    requires forall x: nat | x < |o.emitted| :: newMutKeys[x] == Anon(root, version, round, x)
    ensures |iterMuts| == |iterMutKeys|
    ensures Zip(iterMuts, iterMutKeys)
         == Zip(muts, keys) + Tail(cfg, root, version, round, o.emitted, base, |o.emitted|)
  {
    iterMuts, iterMutKeys := muts, keys;
    var n := 0;
    while n < |newMuts|
      invariant 0 <= n <= |newMuts| && |iterMuts| == |iterMutKeys|
      invariant Zip(iterMuts, iterMutKeys) == Zip(muts, keys) + Tail(cfg, root, version, round, o.emitted, base, n)
    {
      var nm := newMuts[n];
      if HasAncestor(nm.root, root) {
        var runNow := !cfg.delayed;
        if !runNow {
          runNow := nm.after.None? || o.emitted[n].seenAt > nm.after.value;
        }
        if runNow {
          ghost var before := Zip(iterMuts, iterMutKeys);
          iterMuts, iterMutKeys := iterMuts + [nm], iterMutKeys + [newMutKeys[n]];
          assert Zip(iterMuts, iterMutKeys) == before + [Work(nm, newMutKeys[n])];
        }
      }
      n := n + 1;
    }
  }

  // ----- All attempts -----

  /** An attempt finds the store as other processes have left it, and is committed or not. */
  datatype Attempt = Attempt(found: Journal, version: nat, script: seq<Outcome>, commits: bool)

  /** The shards collected by the first n attempts. */
  function Collected(cfg: Config, root: Path, work: seq<Work>, attempts: seq<Attempt>, n: nat): set<TaskShard>
    requires n <= |attempts|
    decreases n, 0
  {
    if n == 0 then {}
    else Outcomes(cfg, root, work, attempts, n - 1).shards
  }

  /** What attempt number n comes to. */
  function Outcomes(cfg: Config, root: Path, work: seq<Work>, attempts: seq<Attempt>, n: nat): Batch
    requires n < |attempts|
    decreases n, 1
  {
    RunFrom(cfg, root, attempts[n].version,
            Start(attempts[n].found, work, Collected(cfg, root, work, attempts, n)), 0, attempts[n].script)
  }

  ghost predicate FirstCommit(attempts: seq<Attempt>, n: nat) {
    n < |attempts| && attempts[n].commits && forall x | 0 <= x < n :: !attempts[x].commits
  }

  /** The deletes after the commit; some of them may fail. */
  function DeleteAll(j: Journal, toDel: seq<MutKey>, deleted: set<MutKey>): Journal {
    if toDel == [] then j
    else
      var k := toDel[|toDel| - 1];
      var before := DeleteAll(j, toDel[..|toDel| - 1], deleted);
      if k in deleted then Remove(before, k) else before
  }

  /** Exactly the keys whose delete went through are gone, and nothing else has changed. */
  lemma {:induction false} DeleteAllExact(j: Journal, toDel: seq<MutKey>, deleted: set<MutKey>, k: MutKey)
    ensures var after := DeleteAll(j, toDel, deleted);
      && (k in after.store <==> k in j.store && !(k in toDel && k in deleted))
      && (k in after.store ==> after.store[k] == j.store[k])
      && after.log == j.log && after.done == j.done
  {
    if toDel != [] {
      assert toDel == toDel[..|toDel| - 1] + [toDel[|toDel| - 1]];
      DeleteAllExact(j, toDel[..|toDel| - 1], deleted, k);
    }
  }

  /** The transaction with its retries: the store is what the last attempt found, or, if that one
      commits, what it made of it. */
  method RunInTransaction(db: Datastore, cfg: Config, root: Path, muts: seq<Mutation>, mutKeys: seq<MutKey>,
                          attempts: seq<Attempt>)
    returns (ok: bool, n: nat, toDel: seq<MutKey>, allShards: set<TaskShard>)
    requires |muts| == |mutKeys|
    modifies db
    ensures ok ==> FirstCommit(attempts, n)
    ensures ok ==> var f := Outcomes(cfg, root, Zip(muts, mutKeys), attempts, n);
      db.journal == f.j && toDel == f.toDel && allShards == f.shards
    ensures !ok ==> forall a | a in attempts :: !a.commits
    ensures !ok && attempts != [] ==> db.journal == attempts[|attempts| - 1].found
  {
    hide RunFrom;
    ok, n, toDel, allShards := false, 0, [], {};
    while n < |attempts|
      invariant 0 <= n <= |attempts| && !ok
      invariant forall x | 0 <= x < n :: !attempts[x].commits
      invariant allShards == Collected(cfg, root, Zip(muts, mutKeys), attempts, n)
      invariant n > 0 ==> db.journal == attempts[n - 1].found
    {
      var attempt := attempts[n];
      db.journal := attempt.found;
      var j;
      j, toDel, allShards := RunAttempt(cfg, root, attempt.version, db.journal, muts, mutKeys, attempt.script,
                                        allShards);
      if attempt.commits {
        db.journal := j;
        ok := true;
        return;
      }
      n := n + 1;
    }
  }

  /** processRoot. Whatever is aborted first, only the committed attempt changes the store; its left
      over mutations are banned and deleted; and tasks are fired for the shards of every attempt. */
  method ProcessRoot(db: Datastore, cfg: Config, root: Path, max: int, results: seq<MutKey>, banned: BanSet,
                     unreadable: set<MutKey>, undecodable: set<MutKey>, lostLock: bool, attempts: seq<Attempt>,
                     deleted: set<MutKey>)
    returns (ok: bool, fired: set<TaskShard>)
    modifies db, banned
    ensures var batch := Batched(max, results, old(banned.keys));
      var work := Loadable(old(db.journal.store), batch, undecodable);
      if batch == [] || (exists k | k in batch :: k in unreadable) || lostLock then
        && db.journal == old(db.journal) && banned.keys == old(banned.keys) && fired == {}
        && (ok <==> batch == [] || forall k | k in batch :: k !in unreadable)
      else if ok then
        exists n :: FirstCommit(attempts, n)
          && var f := Outcomes(cfg, root, work, attempts, n);
             && db.journal == DeleteAll(f.j, f.toDel, deleted)
             && banned.keys == old(banned.keys) + (set k | k in f.toDel)
             && fired == f.shards
      else
        && (forall a | a in attempts :: !a.commits)
        && banned.keys == old(banned.keys) && fired == {}
        && (attempts != [] ==> db.journal == attempts[|attempts| - 1].found)
  {
    hide *;
    var toFetch := GetBatchByRoot(max, results, banned);
    if toFetch == [] {
      return true, {};
    }
    var loaded, mutKeys, muts := LoadFilteredMutations(db, toFetch, unreadable, undecodable);
    if !loaded {
      return false, {};
    }
    if lostLock {
      return true, {};
    }
    var n, toDel;
    ok, n, toDel, fired := RunInTransaction(db, cfg, root, muts, mutKeys, attempts);
    if !ok {
      return false, {};
    }
    assert FirstCommit(attempts, n);
    DeleteLeftover(db, banned, toDel, deleted);
  }

  method DeleteLeftover(db: Datastore, banned: BanSet, toDel: seq<MutKey>, deleted: set<MutKey>)
    modifies db, banned
    ensures db.journal == DeleteAll(old(db.journal), toDel, deleted)
    ensures banned.keys == old(banned.keys) + (set k | k in toDel)
  {
    var i := 0;
    while i < |toDel|
      invariant 0 <= i <= |toDel|
      invariant db.journal == DeleteAll(old(db.journal), toDel[..i], deleted)
      invariant banned.keys == old(banned.keys) + (set k | k in toDel[..i])
    {
      assert toDel[..i + 1][..i] == toDel[..i];
      assert toDel[..i + 1] == toDel[..i] + [toDel[i]];
      banned.keys := banned.keys + {toDel[i]};
      if toDel[i] in deleted {
        db.journal := Remove(db.journal, toDel[i]);
      }
      i := i + 1;
    }
    assert toDel[..i] == toDel;
  }
}
