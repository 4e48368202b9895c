/** What one attempt does to one key: whether a mutation stored there can be deleted without having
    run (tumble/process.go:392-444). */
module TumbleAttempt {

  import opened TumbleKeys
  import opened TumbleStore
  import opened TumbleBatch

  /** The mutation stored at k, unless it has run, is the one a pending work item for k will run;
      and k does not wait to be deleted. */
  ghost predicate CleanBatch(b: Batch, i: nat, k: MutKey) {
    k in b.j.store && b.j.Tag(k) !in b.j.done ==>
      && (forall x | i <= x < |b.work| && b.work[x].key == k :: b.work[x].mutation.tag == b.j.Tag(k))
      && k !in b.toDel
  }

  ghost predicate Absent(b: Batch, k: MutKey) {
    (forall w | w in b.work :: w.key != k) && k !in b.toDel
  }

  predicate OutcomePuts(o: Outcome, k: MutKey) {
    o.Succeeded? && Puts(o.named, k)
  }

  lemma RemoveLosesNothing(j: Journal, key: MutKey, k: MutKey)
    requires Sound(j)
    requires key == k && k in j.store ==> j.Tag(k) in j.done
    ensures NothingLostAt(j, Remove(j, key), k)
  {
  }

  lemma PutsNamed(ops: seq<NamedOp>, k: MutKey)
    requires Puts(ops, k)
    ensures k.Named?
  {
  }

  lemma PutKeepsLost(cfg: Config, root: Path, version: nat, j: Journal, i: nat, o: Outcome)
    requires o.Succeeded?
    ensures Put(cfg, root, version, j, i, o).lost == j.lost && Put(cfg, root, version, j, i, o).done == j.done
  {
    PutMutationsEffect(cfg, j, root, version, i, Mutations(o.emitted), o.now, |o.emitted|);
  }

  /** A turn that puts a named mutation at k, which no item is about. */
  lemma TurnPuts(cfg: Config, root: Path, version: nat, b: Batch, i: nat, o: Outcome, k: MutKey)
    requires i < |b.work| && Ready(b, root, version, i) && o.Succeeded?
    requires k.Named? && Absent(b, k)
    ensures var b' := RunOne(cfg, root, version, b, i, o);
      Absent(b', k) && CleanBatch(b', i + 1, k) && NothingLostAt(b.j, b'.j, k)
  {
    hide Chains, DeletesNow, Journalled, Later, Logged, Mutations, NewShards, NoReuse, Put, Ready, Remove,
         RolledForward, RoundsBefore, RunOne, Sound, Tail;
    var rolled, put, tail := RunOneParts(cfg, root, version, b, i, o);
    var b' := RunOne(cfg, root, version, b, i, o);
    assert b.work[i] in b.work;
    forall w | w in b'.work ensures w.key != k {
      assert w in b.work || w in tail;
    }
    PutKeepsLost(cfg, root, version, rolled, i, o);
    RemoveLosesNothing(put, b.work[i].key, k);
  }

  /** A turn that journals a mutation at k. */
  lemma TurnJournals(cfg: Config, root: Path, version: nat, b: Batch, i: nat, o: Outcome, k: MutKey)
    requires i < |b.work| && Ready(b, root, version, i) && o.Succeeded?
    requires IsNew(k, root, version, i, |o.emitted|)
    ensures var b' := RunOne(cfg, root, version, b, i, o);
      CleanBatch(b', i + 1, k) && NothingLostAt(b.j, b'.j, k)
  {
    hide Chains, DeletesNow, Journalled, Later, Logged, Mutations, NewShards, NoReuse, Put, Ready, Remove,
         RolledForward, RoundsBefore, RunOne, Sound, Tail;
    var rolled, put, tail := RunOneParts(cfg, root, version, b, i, o);
    var b' := RunOne(cfg, root, version, b, i, o);
    NotYetUsed(b, root, version, i, k);
    NotWaiting(b, root, version, i, k);
    NewTag(cfg, rolled, put, root, version, i, o, k);
    RemoveAt(put, b.work[i].key, k);
    assert forall x | 0 <= x < |b.work| :: b'.work[x] == b.work[x];
    assert forall x | |b.work| <= x < |b'.work| :: b'.work[x] in tail;
    PutKeepsLost(cfg, root, version, rolled, i, o);
    RemoveLosesNothing(put, b.work[i].key, k);
  }

  lemma NotWaiting(b: Batch, root: Path, version: nat, i: nat, k: MutKey)
    requires Ready(b, root, version, i) && k !in b.j.log
    ensures k !in b.toDel
  {
  }

  lemma NewTag(cfg: Config, j: Journal, put: Journal, root: Path, version: nat, i: nat, o: Outcome, k: MutKey)
    requires o.Succeeded? && IsNew(k, root, version, i, |o.emitted|)
    requires Journalled(cfg, j, put, root, version, i, Mutations(o.emitted), o.now, |o.emitted|)
    ensures k in put.store && put.Tag(k) == |j.log| + k.index
  {
    assert MapsTo(put.store, Anon(root, version, i, k.index), Stored(cfg, j, Mutations(o.emitted), o.now, k.index));
  }

  /** A turn that writes nothing at k. */
  lemma TurnElsewhere(cfg: Config, root: Path, version: nat, b: Batch, i: nat, o: Outcome, k: MutKey)
    requires i < |b.work| && Ready(b, root, version, i) && o.Succeeded? && CleanBatch(b, i, k)
    requires !IsNew(k, root, version, i, |o.emitted|) && !Puts(o.named, k)
    ensures var b' := RunOne(cfg, root, version, b, i, o);
      CleanBatch(b', i + 1, k) && NothingLostAt(b.j, b'.j, k) && NotRewritten(b.j, b'.j, k)
  {
    hide Chains, DeletesNow, Journalled, Later, Logged, Mutations, NewShards, NoReuse, Put, Puts, Ready, Remove,
         RolledForward, RoundsBefore, RunOne, Sound, Tail;
    var rolled, put, tail := RunOneParts(cfg, root, version, b, i, o);
    var b' := RunOne(cfg, root, version, b, i, o);
    var key := b.work[i].key;
    RolledAt(cfg, b.j, b.work[i].mutation.tag, o, k);
    PutAt(cfg, rolled, put, root, version, i, o, k);
    PutKeepsLost(cfg, root, version, rolled, i, o);
    RemoveAt(put, key, k);
    RemoveDone(put, key);
    RemoveLosesNothing(put, key, k);
    assert forall x | 0 <= x < |b.work| :: b'.work[x] == b.work[x];
    assert forall x | |b.work| <= x < |b'.work| :: b'.work[x] in tail;
  }

  lemma RolledAt(cfg: Config, j: Journal, tag: nat, o: Outcome, k: MutKey)
    requires o.Succeeded? && !Puts(o.named, k)
    ensures NotRewritten(j, RolledForward(cfg, j, tag, o), k)
  {
    ApplyNamedAt(cfg, Ran(j, tag), o.named, o.now, k);
  }

  lemma PutAt(cfg: Config, j: Journal, put: Journal, root: Path, version: nat, i: nat, o: Outcome, k: MutKey)
    requires o.Succeeded? && !IsNew(k, root, version, i, |o.emitted|)
    requires Journalled(cfg, j, put, root, version, i, Mutations(o.emitted), o.now, |o.emitted|)
    ensures NotRewritten(j, put, k)
  {
    assert SameAt(j.store, put.store, k);
  }

  lemma RemoveDone(j: Journal, key: MutKey)
    ensures Remove(j, key).done == j.done
  {
  }

  lemma RunOneClean(cfg: Config, root: Path, version: nat, b: Batch, i: nat, o: Outcome, k: MutKey)
    requires i < |b.work| && Ready(b, root, version, i) && CleanBatch(b, i, k)
    requires OutcomePuts(o, k) ==> Absent(b, k)
    ensures CleanBatch(RunOne(cfg, root, version, b, i, o), i + 1, k)
    ensures NothingLostAt(b.j, RunOne(cfg, root, version, b, i, o).j, k)
    ensures !OutcomePuts(o, k) && k in b.j.log ==> NotRewritten(b.j, RunOne(cfg, root, version, b, i, o).j, k)
    ensures k.Named? && Absent(b, k) ==> Absent(RunOne(cfg, root, version, b, i, o), k)
  {
    hide Absent, DeletesNow, NewShards, Put, Puts, Ready, Remove, RolledForward, Tail;
    if o.Failed? {
    } else if k.Named? && Absent(b, k) {
      TurnPuts(cfg, root, version, b, i, o, k);
      if !OutcomePuts(o, k) {
        NamedIsOld(k, root, version, i, |o.emitted|);
        TurnElsewhere(cfg, root, version, b, i, o, k);
      }
    } else if IsNew(k, root, version, i, |o.emitted|) {
      TurnJournals(cfg, root, version, b, i, o, k);
      NotYetUsed(b, root, version, i, k);
    } else {
      if Puts(o.named, k) { PutsNamed(o.named, k); }
      TurnElsewhere(cfg, root, version, b, i, o, k);
    }
  }

  lemma NamedIsOld(k: MutKey, root: Path, version: nat, i: nat, n: nat)
    requires k.Named?
    ensures !IsNew(k, root, version, i, n)
  {
  }

  predicate ScriptPuts(script: seq<Outcome>, k: MutKey) {
    exists o | o in script :: OutcomePuts(o, k)
  }

  lemma AtPuts(script: seq<Outcome>, i: nat, k: MutKey)
    requires OutcomePuts(At(script, i), k)
    ensures ScriptPuts(script, k) && k.Named?
  {
  }

  /** Over a whole attempt: a key without a put loses nothing, and neither does a key that no item is about. */
  lemma {:induction false} RunFromClean(cfg: Config, root: Path, version: nat, b: Batch, i: nat, script: seq<Outcome>,
                                        k: MutKey)
    requires i <= |b.work| && Ready(b, root, version, i) && CleanBatch(b, i, k)
    requires ScriptPuts(script, k) ==> Absent(b, k)
    ensures var f := RunFrom(cfg, root, version, b, i, script);
      && CleanBatch(f, |f.work|, k) && NothingLostAt(b.j, f.j, k)
      && (!ScriptPuts(script, k) && k in b.j.log ==> NotRewritten(b.j, f.j, k))
    decreases if i < |script| then |script| - i else 0, |b.work| - i
  {
    hide Absent, At, OutcomePuts, Ready, RunOne, ScriptPuts;
    if i < |b.work| {
      var o := At(script, i);
      var b' := RunOne(cfg, root, version, b, i, o);
      var f := RunFrom(cfg, root, version, b', i + 1, script);
      if OutcomePuts(o, k) { AtPuts(script, i, k); }
      if ScriptPuts(script, k) { ScriptPutsNamed(script, k); }
      RunOneClean(cfg, root, version, b, i, o, k);
      RunOneReady(cfg, root, version, b, i, o);
      WorkAfterScript(cfg, root, version, b, i, script);
      RunFromClean(cfg, root, version, b', i + 1, script, k);
      RunFromReady(cfg, root, version, b', i + 1, script);
      StillLogged(b.j, b'.j, k);
    } else {
    }
  }

  lemma StillLogged(j: Journal, j': Journal, k: MutKey)
    requires Later(j, j')
    ensures k in j.log ==> k in j'.log
  {
  }

  lemma ScriptPutsNamed(script: seq<Outcome>, k: MutKey)
    requires ScriptPuts(script, k)
    ensures k.Named?
  {
  }
}
