/** One attempt at processing a batch of mutations of one entity group (tumble/process.go:392-444,
    tumble/tumble.go:62-93). */
module TumbleBatch {

  import opened TumbleKeys
  import opened TumbleStore

  /** A mutation returned by RollForward, and the clock when the processor looks at it. */
  datatype Emitted = Emitted(mutation: Mutation, seenAt: int)

  /** What running a mutation comes to: an error rolls its own transaction back; otherwise RollForward
      has put or cancelled named mutations, returned the `emitted` ones, and `deletes` says whether the
      delete of the mutation that ran was accepted. */
  datatype Outcome = Failed | Succeeded(named: seq<NamedOp>, emitted: seq<Emitted>, now: int, deletes: bool)

  /** An entry of the two parallel lists iterMuts and iterMutKeys. */
  datatype Work = Work(mutation: Mutation, key: MutKey)

  datatype Batch = Batch(j: Journal, work: seq<Work>, toDel: seq<MutKey>, shards: set<TaskShard>)

  /** A script is what happens to the items of one attempt, in order. */
  function At(script: seq<Outcome>, i: nat): Outcome {
    if i < |script| then script[i] else Failed
  }

  function Mutations(emitted: seq<Emitted>): (ms: seq<Mutation>)
    ensures |ms| == |emitted| && forall x | 0 <= x < |ms| :: ms[x] == emitted[x].mutation
  {
    seq(|emitted|, x requires 0 <= x < |emitted| => emitted[x].mutation)
  }

  /** A new mutation is run in the same transaction if it is due and in the same entity group. */
  predicate Chains(cfg: Config, root: Path, e: Emitted) {
    && HasAncestor(e.mutation.root, root)
    && (!cfg.delayed || e.mutation.after.None? || e.seenAt > e.mutation.after.value)
  }

  function Tail(cfg: Config, root: Path, version: nat, round: nat, emitted: seq<Emitted>, base: nat, n: nat): seq<Work>
    requires n <= |emitted|
  {
    if n == 0 then []
    else
      Tail(cfg, root, version, round, emitted, base, n - 1)
      + if Chains(cfg, root, emitted[n - 1])
        then [Work(emitted[n - 1].mutation.(tag := base + n - 1), Anon(root, version, round, n - 1))]
        else []
  }

  predicate DeletesNow(o: Outcome, key: MutKey, root: Path) {
    o.Succeeded? && o.deletes && HasAncestor(Render(key), root)
  }

  /** The store when RollForward of mutation `tag` has returned, and when its results are put. */
  function RolledForward(cfg: Config, j: Journal, tag: nat, o: Outcome): Journal
    requires o.Succeeded?
  {
    ApplyNamed(cfg, Ran(j, tag), o.named, o.now)
  }

  function Put(cfg: Config, root: Path, version: nat, j: Journal, i: nat, o: Outcome): Journal
    requires o.Succeeded?
  {
    PutMutations(cfg, j, root, version, i, Mutations(o.emitted), o.now, |o.emitted|)
  }

  /** The shards of the first n of the mutations put. */
  function ShardsUpTo(cfg: Config, j: Journal, ms: seq<Mutation>, now: int, n: nat): set<TaskShard>
    requires n <= |ms|
  {
    set x | 0 <= x < n :: ShardOf(cfg, Stored(cfg, j, ms, now, x))
  }

  function NewShards(cfg: Config, j: Journal, o: Outcome): set<TaskShard>
    requires o.Succeeded?
  {
    ShardsUpTo(cfg, j, Mutations(o.emitted), o.now, |o.emitted|)
  }

  /** One turn of the loop over iterMuts. */
  function RunOne(cfg: Config, root: Path, version: nat, b: Batch, i: nat, o: Outcome): Batch
    requires i < |b.work|
  {
    if o.Failed? then b
    else
      var rolled := RolledForward(cfg, b.j, b.work[i].mutation.tag, o);
      var put := Put(cfg, root, version, rolled, i, o);
      var key := b.work[i].key;
      Batch(if DeletesNow(o, key, root) then Remove(put, key) else put,
            b.work + Tail(cfg, root, version, i, o.emitted, |rolled.log|, |o.emitted|),
            if DeletesNow(o, key, root) then b.toDel else b.toDel + [key],
            b.shards + NewShards(cfg, rolled, o))
  }

  /** The loop from item i on. Items past the end of the script fail, so a script stands for every
      attempt that comes to an end. */
  function RunFrom(cfg: Config, root: Path, version: nat, b: Batch, i: nat, script: seq<Outcome>): Batch
    decreases if i < |script| then |script| - i else 0, |b.work| - i
  {
    if i >= |b.work| then b
    else RunFrom(cfg, root, version, RunOne(cfg, root, version, b, i, At(script, i)), i + 1, script)
  }

  // ----- What holds between two turns -----

  ghost predicate HasKey(work: seq<Work>, k: MutKey) {
    exists x | 0 <= x < |work| :: work[x].key == k
  }

  /** Before round i no key of this transaction's later rounds is in use. */
  ghost predicate Unused(b: Batch, root: Path, version: nat, i: nat) {
    && RoundsBefore(b.j.log, root, version, i)
    && (forall w | w in b.work :: Logged(b.j.log, w))
    && (forall k | k in b.toDel :: k in b.j.log)
  }

  /** A work item is a mutation that was written under its key. */
  ghost predicate Logged(log: seq<MutKey>, w: Work) {
    w.mutation.tag < |log| && log[w.mutation.tag] == w.key
  }

  ghost predicate Ready(b: Batch, root: Path, version: nat, i: nat) {
    Sound(b.j) && NoReuse(b.j.log) && Unused(b, root, version, i)
  }

  // ----- One turn keeps the invariants -----

  lemma {:induction false} TailEntries(cfg: Config, root: Path, version: nat, round: nat, emitted: seq<Emitted>,
                                       base: nat, n: nat)
    requires n <= |emitted|
    ensures forall w | w in Tail(cfg, root, version, round, emitted, base, n) ::
              && IsNew(w.key, root, version, round, n)
              && Chains(cfg, root, emitted[w.key.index])
              && w.mutation == emitted[w.key.index].mutation.(tag := base + w.key.index)
    ensures forall x: nat | x < n && Chains(cfg, root, emitted[x]) ::
              HasKey(Tail(cfg, root, version, round, emitted, base, n), Anon(root, version, round, x))
  {
    if n > 0 {
      TailEntries(cfg, root, version, round, emitted, base, n - 1);
      var before := Tail(cfg, root, version, round, emitted, base, n - 1);
      var tail := Tail(cfg, root, version, round, emitted, base, n);
      forall x: nat | x < n && Chains(cfg, root, emitted[x])
        ensures HasKey(tail, Anon(root, version, round, x))
      {
        if x < n - 1 {
          var y :| 0 <= y < |before| && before[y].key == Anon(root, version, round, x);
          assert tail[y].key == Anon(root, version, round, x);
        } else {
          assert tail[|before|].key == Anon(root, version, round, x);
        }
      }
    }
  }

  lemma RolledForwardSound(cfg: Config, j: Journal, tag: nat, o: Outcome)
    requires o.Succeeded? && Sound(j) && tag < |j.log|
    ensures Sound(RolledForward(cfg, j, tag, o)) && Later(j, RolledForward(cfg, j, tag, o))
    ensures RolledForward(cfg, j, tag, o).lost == j.lost
    ensures RolledForward(cfg, j, tag, o).done == j.done + {tag}
    ensures forall k | k in RolledForward(cfg, j, tag, o).log[|j.log|..] :: k.Named?
  {
    RanSound(j, tag);
    ApplyNamedSound(cfg, Ran(j, tag), o.named, o.now);
  }

  lemma NamedExtends(a: seq<MutKey>, b: seq<MutKey>, root: Path, version: nat, i: nat)
    requires a <= b && forall k | k in b[|a|..] :: k.Named?
    ensures NoReuse(a) ==> NoReuse(b)
    ensures RoundsBefore(a, root, version, i) ==> RoundsBefore(b, root, version, i)
  {
    forall x: nat | x < |b| ensures b[x].Named? || (x < |a| && b[x] == a[x]) {
      if x >= |a| {
        assert b[x] == b[|a|..][x - |a|];
      }
    }
    forall k | k in b && k.Anon? ensures k in a {
      var x :| 0 <= x < |b| && b[x] == k;
    }
  }

  lemma PutKeeps(cfg: Config, root: Path, version: nat, j: Journal, i: nat, o: Outcome)
    requires o.Succeeded? && Sound(j) && NoReuse(j.log) && RoundsBefore(j.log, root, version, i)
    ensures var put := Put(cfg, root, version, j, i, o);
      && Sound(put) && NoReuse(put.log) && RoundsBefore(put.log, root, version, i + 1) && Later(j, put)
      && Journalled(cfg, j, put, root, version, i, Mutations(o.emitted), o.now, |o.emitted|)
      && (forall x: nat | x < |o.emitted| ::
            Logged(put.log, Work(o.emitted[x].mutation.(tag := |j.log| + x), Anon(root, version, i, x))))
      && (forall k | k in put.log && k !in j.log :: IsNew(k, root, version, i, |o.emitted|))
  {
    hide IsNew, Journalled, Mutations, NoReuse, PutMutations, RoundsBefore, Sound;
    var ms := Mutations(o.emitted);
    PutMutationsEffect(cfg, j, root, version, i, ms, o.now, |ms|);
    PutMutationsSound(cfg, j, root, version, i, ms, o.now, |ms|);
    LogAfter(cfg, j, Put(cfg, root, version, j, i, o), root, version, i, ms, o.now, |ms|);
  }

  lemma LogAfter(cfg: Config, j: Journal, j': Journal, root: Path, version: nat, i: nat, ms: seq<Mutation>, now: int,
                 n: nat)
    requires n <= |ms| && Journalled(cfg, j, j', root, version, i, ms, now, n)
    requires RoundsBefore(j.log, root, version, i)
    ensures RoundsBefore(j'.log, root, version, i + 1)
    ensures j.log <= j'.log && j'.done == j.done && j'.lost == j.lost
    ensures forall x: nat | x < n :: |j.log| + x < |j'.log| && j'.log[|j.log| + x] == Anon(root, version, i, x)
    ensures forall k | k in j'.log && k !in j.log :: IsNew(k, root, version, i, n)
  {
    forall t: nat | t < |j'.log| ensures j'.log[t] in j.log || IsNew(j'.log[t], root, version, i, n) {
      if t < |j.log| {
        assert j'.log[t] == j.log[t];
      } else {
        assert j'.log[|j.log| + (t - |j.log|)] == Anon(root, version, i, t - |j.log|);
      }
    }
    forall k | k in j'.log ensures k in j.log || IsNew(k, root, version, i, n) {
      var t :| 0 <= t < |j'.log| && j'.log[t] == k;
    }
  }

  /** A successful turn, taken apart. */
  lemma RunOneParts(cfg: Config, root: Path, version: nat, b: Batch, i: nat, o: Outcome)
    returns (rolled: Journal, put: Journal, tail: seq<Work>)
    requires i < |b.work| && o.Succeeded? && Ready(b, root, version, i)
    ensures rolled == RolledForward(cfg, b.j, b.work[i].mutation.tag, o)
    ensures Sound(rolled) && Later(b.j, rolled) && rolled.lost == b.j.lost
    ensures rolled.done == b.j.done + {b.work[i].mutation.tag}
    ensures forall k | k in rolled.log && k !in b.j.log :: k.Named?
    ensures RoundsBefore(rolled.log, root, version, i)
    ensures put == Put(cfg, root, version, rolled, i, o)
    ensures Sound(put) && NoReuse(put.log) && RoundsBefore(put.log, root, version, i + 1) && Later(rolled, put)
    ensures Journalled(cfg, rolled, put, root, version, i, Mutations(o.emitted), o.now, |o.emitted|)
    ensures forall x: nat | x < |o.emitted| ::
              Logged(put.log, Work(o.emitted[x].mutation.(tag := |rolled.log| + x), Anon(root, version, i, x)))
    ensures forall k | k in put.log && k !in rolled.log :: IsNew(k, root, version, i, |o.emitted|)
    ensures tail == Tail(cfg, root, version, i, o.emitted, |rolled.log|, |o.emitted|)
    ensures forall w | w in tail ::
              && IsNew(w.key, root, version, i, |o.emitted|) && Chains(cfg, root, o.emitted[w.key.index])
              && w.mutation == o.emitted[w.key.index].mutation.(tag := |rolled.log| + w.key.index)
    ensures RunOne(cfg, root, version, b, i, o)
         == (var key := b.work[i].key;
             Batch(if DeletesNow(o, key, root) then Remove(put, key) else put, b.work + tail,
                   if DeletesNow(o, key, root) then b.toDel else b.toDel + [key],
                   b.shards + NewShards(cfg, rolled, o)))
  {
    hide Sound, Journalled, RolledForward, Put, Tail, NoReuse, RoundsBefore, Chains, NewShards;
    rolled := RolledForward(cfg, b.j, b.work[i].mutation.tag, o);
    assert Logged(b.j.log, b.work[i]);
    RolledForwardSound(cfg, b.j, b.work[i].mutation.tag, o);
    NamedExtends(b.j.log, rolled.log, root, version, i);
    OnlyNamed(b.j.log, rolled.log);
    put := Put(cfg, root, version, rolled, i, o);
    PutKeeps(cfg, root, version, rolled, i, o);
    tail := Tail(cfg, root, version, i, o.emitted, |rolled.log|, |o.emitted|);
    TailEntries(cfg, root, version, i, o.emitted, |rolled.log|, |o.emitted|);
  }

  lemma OnlyNamed(a: seq<MutKey>, b: seq<MutKey>)
    requires a <= b && forall k | k in b[|a|..] :: k.Named?
    ensures forall k | k in b && k !in a :: k.Named?
  {
    assert b == a + b[|a|..];
  }

  lemma RunOneReady(cfg: Config, root: Path, version: nat, b: Batch, i: nat, o: Outcome)
    requires i < |b.work| && Ready(b, root, version, i)
    ensures Ready(RunOne(cfg, root, version, b, i, o), root, version, i + 1)
    ensures Later(b.j, RunOne(cfg, root, version, b, i, o).j)
    ensures b.work <= RunOne(cfg, root, version, b, i, o).work
    ensures forall k | k in RunOne(cfg, root, version, b, i, o).j.log && k !in b.j.log ::
              k.Named? || (k.parent == root && k.version == version)
  {
    hide Chains, DeletesNow, Journalled, Logged, Mutations, NewShards, NoReuse, Put, Remove, RolledForward, Sound,
         Tail;
    if o.Succeeded? {
      var rolled, put, tail := RunOneParts(cfg, root, version, b, i, o);
      RemoveKeeps(put, b.work[i].key);
      KeysUsed(cfg, b, rolled, tail, put.log, root, version, i, o);
    } else {
    }
  }

  lemma RemoveKeeps(j: Journal, k: MutKey)
    requires Sound(j)
    ensures Sound(Remove(j, k)) && Later(j, Remove(j, k)) && Remove(j, k).log == j.log
  {
    RemoveSound(j, k);
  }

  lemma KeysUsed(cfg: Config, b: Batch, rolled: Journal, tail: seq<Work>, log: seq<MutKey>, root: Path, version: nat,
                 i: nat, o: Outcome)
    requires Unused(b, root, version, i) && b.j.log <= log && o.Succeeded?
    requires forall w | w in tail ::
               && IsNew(w.key, root, version, i, |o.emitted|)
               && w.mutation == o.emitted[w.key.index].mutation.(tag := |rolled.log| + w.key.index)
    requires forall x: nat | x < |o.emitted| ::
               Logged(log, Work(o.emitted[x].mutation.(tag := |rolled.log| + x), Anon(root, version, i, x)))
    ensures forall w | w in b.work + tail :: Logged(log, w)
    ensures forall k | k in b.toDel :: k in log
    ensures i < |b.work| ==> b.work[i].key in log
  {
    forall w | w in b.work ensures Logged(log, w) {
      assert Logged(b.j.log, w);
    }
    forall w | w in tail ensures Logged(log, w) {
      assert w == Work(o.emitted[w.key.index].mutation.(tag := |rolled.log| + w.key.index),
                       Anon(root, version, i, w.key.index));
    }
    if i < |b.work| {
      assert b.work[i] in b.work;
      assert Logged(log, b.work[i]);
    }
  }

  /** The key of a later round is not in use yet. */
  lemma NotYetUsed(b: Batch, root: Path, version: nat, i: nat, k: MutKey)
    requires Ready(b, root, version, i)
    requires k.Anon? && IsNew(k, root, version, i, k.index + 1)
    ensures k !in b.j.log && k !in b.j.store
    ensures forall x | 0 <= x < |b.work| :: b.work[x].key != k
  {
    assert forall x | 0 <= x < |b.work| :: b.work[x] in b.work && Logged(b.j.log, b.work[x]);
  }

  lemma RemoveAt(j: Journal, key: MutKey, k: MutKey)
    ensures k in Remove(j, key).store <==> k in j.store && k != key
    ensures k in Remove(j, key).store ==> Remove(j, key).store[k] == j.store[k]
  {
  }

  // ----- A whole attempt -----

  lemma WorkAfterScript(cfg: Config, root: Path, version: nat, b: Batch, i: nat, script: seq<Outcome>)
    requires i < |b.work|
    ensures i >= |script| ==> RunOne(cfg, root, version, b, i, At(script, i)) == b
  {
  }

  lemma {:induction false} RunFromReady(cfg: Config, root: Path, version: nat, b: Batch, i: nat, script: seq<Outcome>)
    requires i <= |b.work| && Ready(b, root, version, i)
    ensures var f := RunFrom(cfg, root, version, b, i, script);
      && Ready(f, root, version, |f.work|) && Later(b.j, f.j) && b.work <= f.work
      && forall k | k in f.j.log && k !in b.j.log :: k.Named? || (k.parent == root && k.version == version)
    decreases if i < |script| then |script| - i else 0, |b.work| - i
  {
    hide At, Ready, RunOne;
    if i < |b.work| {
      RunOneReady(cfg, root, version, b, i, At(script, i));
      WorkAfterScript(cfg, root, version, b, i, script);
      RunFromReady(cfg, root, version, RunOne(cfg, root, version, b, i, At(script, i)), i + 1, script);
    }
  }

  /** A batch as an attempt starts on it: the mutations loaded, nothing done yet. */
  function Start(j: Journal, work: seq<Work>, shards: set<TaskShard>): Batch {
    Batch(j, work, [], shards)
  }

  /** The shards collected by earlier attempts are kept. */
  lemma {:induction false} ShardsAccumulate(cfg: Config, root: Path, version: nat, b: Batch, i: nat,
                                            script: seq<Outcome>)
    ensures b.shards <= RunFrom(cfg, root, version, b, i, script).shards
    decreases if i < |script| then |script| - i else 0, |b.work| - i
  {
    if i < |b.work| {
      WorkAfterScript(cfg, root, version, b, i, script);
      ShardsAccumulate(cfg, root, version, RunOne(cfg, root, version, b, i, At(script, i)), i + 1, script);
    }
  }
}
