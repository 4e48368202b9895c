/** The effect of an attempt on the store, without following it turn by turn (tumble/process.go:392-444,
    tumble/tumble.go:95-148). */
module TumbleEffect {

  import opened Text
  import opened TumbleKeys
  import opened TumbleShards
  import opened TumbleStore
  import opened TumbleBatch

  // ----- What an attempt leaves -----

  predicate Mentions(ops: seq<NamedOp>, k: MutKey) {
    exists op | op in ops :: op.Key() == k
  }

  /** Some RollForward among the first i puts or cancels the name k. */
  ghost predicate IsNamed(k: MutKey, i: nat, script: seq<Outcome>) {
    exists x: nat | x < i :: At(script, x).Succeeded? && Mentions(At(script, x).named, k)
  }

  /** Key k is journalled by one of the first i items. */
  predicate IsJournalled(k: MutKey, root: Path, version: nat, i: nat, script: seq<Outcome>) {
    && k.Anon? && k.parent == root && k.version == version && k.round < i
    && At(script, k.round).Succeeded? && k.index < |At(script, k.round).emitted|
  }

  /** r is what m is stored as: for the root of the key it is about, with the time to process it. That is now;
      or, with delayed mutations, the time m asks for if it lies in the future or has a high priority. */
  predicate Records(cfg: Config, r: Record, m: Mutation, now: int) {
    && r.mutation == m.(tag := r.mutation.tag)
    && r.target == [m.root[0]]
    && r.expandedShard == cfg.hash([m.root[0]])
    && (!cfg.delayed || m.after.None? ==> r.processAfter == now)
    && (cfg.delayed && m.after.Some? && m.high ==> r.processAfter == m.after.value)
    && (cfg.delayed && m.after.Some? && !m.high && m.after.value > now ==> r.processAfter == m.after.value)
    && (cfg.delayed && m.after.Some? && !m.high && m.after.value <= now ==> r.processAfter == now)
  }

  lemma NewRecordIs(cfg: Config, m: Mutation, tag: nat, now: int)
    ensures Records(cfg, NewRecord(cfg, m.(tag := tag), now), m, now)
  {
    assert m.root[..1] == [m.root[0]];
  }

  /** The tasks for the shard of r, at the time it is to be processed. */
  function TaskFor(cfg: Config, r: Record): TaskShard {
    TaskShard(Shard(cfg.numShards, r.expandedShard), cfg.slot(r.processAfter))
  }

  /** A new mutation is in this group, and its time has come. */
  predicate IsDue(cfg: Config, root: Path, e: Emitted) {
    && root <= e.mutation.root
    && (cfg.delayed && e.mutation.after.Some? ==> e.seenAt > e.mutation.after.value)
  }

  /** The item has run, its key is in this group, and its delete is accepted. */
  predicate IsTakenOut(o: Outcome, k: MutKey, root: Path) {
    o.Succeeded? && o.deletes && root <= Render(k)
  }

  /** Record r is what the mutation behind k is stored as. */
  predicate RecordOf(cfg: Config, k: MutKey, script: seq<Outcome>, r: Record)
    requires k.Anon? && At(script, k.round).Succeeded? && k.index < |At(script, k.round).emitted|
  {
    var o := At(script, k.round);
    Records(cfg, r, o.emitted[k.index].mutation, o.now)
  }

  ghost predicate IsDeleted(k: MutKey, root: Path, work: seq<Work>, i: nat, script: seq<Outcome>) {
    exists x: nat | x < i && x < |work| :: work[x].key == k && IsTakenOut(At(script, x), k, root)
  }

  function Leftover(root: Path, work: seq<Work>, i: nat, script: seq<Outcome>): seq<MutKey>
    requires i <= |work|
  {
    if i == 0 then []
    else
      Leftover(root, work, i - 1, script)
      + if At(script, i - 1).Succeeded? && !IsTakenOut(At(script, i - 1), work[i - 1].key, root)
        then [work[i - 1].key]
        else []
  }

  lemma DueExactly(cfg: Config, root: Path, e: Emitted)
    ensures IsDue(cfg, root, e) <==> Chains(cfg, root, e)
  {
  }

  lemma TakenOutExactly(o: Outcome, k: MutKey, root: Path)
    ensures IsTakenOut(o, k, root) <==> DeletesNow(o, k, root)
  {
  }

  /** The store differs from the old one by what was journalled and what was deleted. */
  ghost predicate EffectAt(cfg: Config, root: Path, version: nat, j: Journal, b: Batch, i: nat,
                           script: seq<Outcome>, k: MutKey) {
    && (k in b.j.store <==>
        (k in j.store || IsJournalled(k, root, version, i, script)) && !IsDeleted(k, root, b.work, i, script))
    && (k in b.j.store ==>
        if IsJournalled(k, root, version, i, script)
        then RecordOf(cfg, k, script, b.j.store[k]) && TaskFor(cfg, b.j.store[k]) in b.shards
        else b.j.store[k] == j.store[k])
  }

  /** The entries added to the work lists are the journalled mutations that are due in this group. */
  ghost predicate Aligned(cfg: Config, root: Path, version: nat, initial: nat, work: seq<Work>, i: nat,
                          script: seq<Outcome>) {
    && (forall x | initial <= x < |work| ::
        && IsJournalled(work[x].key, root, version, i, script)
        && var e := At(script, work[x].key.round).emitted[work[x].key.index];
           IsDue(cfg, root, e) && work[x].mutation == e.mutation.(tag := work[x].mutation.tag))
    && (forall k |
          IsJournalled(k, root, version, i, script) && IsDue(cfg, root, At(script, k.round).emitted[k.index]) ::
        HasKey(work, k))
  }

  /** The last operation on k. */
  function LastAt(ops: seq<NamedOp>, k: MutKey): (r: Option<NamedOp>)
    ensures r.None? <==> !Mentions(ops, k)
    ensures r.Some? ==> exists p | 0 <= p < |ops| ::
              ops[p] == r.value && r.value.Key() == k && forall q | p < q < |ops| :: ops[q].Key() != k
  {
    if ops == [] then None
    else
      var last := ops[|ops| - 1];
      assert ops == ops[..|ops| - 1] + [last];
      if last.Key() == k then Some(last) else LastAt(ops[..|ops| - 1], k)
  }

  /** Item x puts, cancels or deletes what is stored at the name k. */
  predicate Touches(root: Path, work: seq<Work>, x: nat, script: seq<Outcome>, k: MutKey)
    requires x < |work|
  {
    At(script, x).Succeeded? && (Mentions(At(script, x).named, k) || Deletes(root, work, x, script, k))
  }

  predicate Deletes(root: Path, work: seq<Work>, x: nat, script: seq<Outcome>, k: MutKey)
    requires x < |work|
  {
    work[x].key == k && IsTakenOut(At(script, x), k, root)
  }

  /** What a turn that touches k leaves there: nothing if it also deletes k, for that comes last;
      otherwise what the last operation on k made of it. */
  predicate LeavesAt(cfg: Config, root: Path, work: seq<Work>, x: nat, script: seq<Outcome>, k: MutKey,
                     store: map<MutKey, Record>)
    requires x < |work| && Touches(root, work, x, script, k)
  {
    if Deletes(root, work, x, script, k) then k !in store
    else
      match LastAt(At(script, x).named, k).value
      case PutNamed(_, _, m) => k in store && Records(cfg, store[k], m, At(script, x).now)
      case CancelNamed(_, _) => k !in store
  }

  /** A name holds what the last turn to touch it has left, or what it held before. */
  ghost predicate NameAt(cfg: Config, root: Path, j: Journal, b: Batch, i: nat, script: seq<Outcome>, k: MutKey)
    requires i <= |b.work|
  {
    && ((forall x: nat | x < i :: !Touches(root, b.work, x, script, k)) ==> SameAt(j.store, b.j.store, k))
    && (forall x: nat | x < i && Touches(root, b.work, x, script, k)
                        && (forall y: nat | x < y < i :: !Touches(root, b.work, y, script, k)) ::
          LeavesAt(cfg, root, b.work, x, script, k, b.j.store))
  }

  // ----- One turn -----

  lemma {:induction false} NamedAt(cfg: Config, j: Journal, ops: seq<NamedOp>, now: int, k: MutKey)
    ensures var store := ApplyNamed(cfg, j, ops, now).store;
      match LastAt(ops, k)
      case None => SameAt(j.store, store, k)
      case Some(PutNamed(_, _, m)) => k in store && Records(cfg, store[k], m, now)
      case Some(CancelNamed(_, _)) => k !in store
  {
    if ops != [] {
      NamedAt(cfg, j, ops[..|ops| - 1], now, k);
    }
  }

  lemma DeletedStep(k: MutKey, root: Path, work: seq<Work>, work': seq<Work>, i: nat, script: seq<Outcome>)
    requires i < |work| && work <= work'
    ensures IsDeleted(k, root, work', i + 1, script) <==>
      IsDeleted(k, root, work, i, script) || (work[i].key == k && IsTakenOut(At(script, i), k, root))
  {
    if IsDeleted(k, root, work, i, script) {
      var x: nat :| x < i && x < |work| && work[x].key == k && IsTakenOut(At(script, x), k, root);
      assert work'[x].key == k;
    }
    if work[i].key == k && IsTakenOut(At(script, i), k, root) {
      assert work'[i].key == k;
    }
    if IsDeleted(k, root, work', i + 1, script) {
      var x: nat :| x < i + 1 && x < |work'| && work'[x].key == k && IsTakenOut(At(script, x), k, root);
      assert work[x].key == k;
    }
  }

  lemma PutEffect(cfg: Config, root: Path, version: nat, j: Journal, put: Journal, i: nat, script: seq<Outcome>,
                  k: MutKey)
    requires At(script, i).Succeeded?
    requires Journalled(cfg, j, put, root, version, i, Mutations(At(script, i).emitted), At(script, i).now,
                        |At(script, i).emitted|)
    ensures IsNew(k, root, version, i, |At(script, i).emitted|) ==>
      && k in put.store && RecordOf(cfg, k, script, put.store[k])
      && TaskFor(cfg, put.store[k]) in NewShards(cfg, j, At(script, i))
    ensures !IsNew(k, root, version, i, |At(script, i).emitted|) ==> SameAt(j.store, put.store, k)
  {
    var o := At(script, i);
    if IsNew(k, root, version, i, |o.emitted|) {
      var r := Stored(cfg, j, Mutations(o.emitted), o.now, k.index);
      assert MapsTo(put.store, Anon(root, version, i, k.index), r);
      assert r == NewRecord(cfg, o.emitted[k.index].mutation.(tag := |j.log| + k.index), o.now);
      NewRecordIs(cfg, o.emitted[k.index].mutation, |j.log| + k.index, o.now);
    }
  }

  /** One turn, for one key. */
  lemma RunOneEffect(cfg: Config, root: Path, version: nat, j: Journal, b: Batch, i: nat, script: seq<Outcome>,
                     k: MutKey)
    requires i < |b.work| && Ready(b, root, version, i)
    requires At(script, i).Succeeded? ==> !Mentions(At(script, i).named, k)
    requires j.log <= b.j.log && Sound(j)
    requires EffectAt(cfg, root, version, j, b, i, script, k)
    ensures EffectAt(cfg, root, version, j, RunOne(cfg, root, version, b, i, At(script, i)), i + 1, script, k)
  {
    hide At, Chains, HasAncestor, IsDeleted, Journalled, Later, Logged, Mutations, NewShards, NoReuse, Put, Ready,
         RecordOf, Remove, Render, RolledForward, RoundsBefore, TaskFor, Sound, Tail;
    var o := At(script, i);
    var b' := RunOne(cfg, root, version, b, i, o);
    RunOneReady(cfg, root, version, b, i, o);
    DeletedStep(k, root, b.work, b'.work, i, script);
    TakenOutExactly(o, b.work[i].key, root);
    hide IsTakenOut;
    if o.Succeeded? {
      var rolled, put, tail := RunOneParts(cfg, root, version, b, i, o);
      RolledAt(cfg, b.j, b.work[i].mutation.tag, o, k);
      PutEffect(cfg, root, version, rolled, put, i, script, k);
      RemoveAt(put, b.work[i].key, k);
      if IsNew(k, root, version, i, |o.emitted|) {
        NotYetUsed(b, root, version, i, k);
        NotDeleted(k, root, b.work, i, script);
      }
    } else {
    }
  }

  lemma NotDeleted(k: MutKey, root: Path, work: seq<Work>, i: nat, script: seq<Outcome>)
    requires forall x | 0 <= x < |work| :: work[x].key != k
    ensures !IsDeleted(k, root, work, i, script)
  {
  }

  lemma RolledAt(cfg: Config, j: Journal, tag: nat, o: Outcome, k: MutKey)
    requires o.Succeeded?
    ensures var store := RolledForward(cfg, j, tag, o).store;
      match LastAt(o.named, k)
      case None => SameAt(j.store, store, k)
      case Some(PutNamed(_, _, m)) => k in store && Records(cfg, store[k], m, o.now)
      case Some(CancelNamed(_, _)) => k !in store
  {
    hide LastAt, Records;
    NamedAt(cfg, Ran(j, tag), o.named, o.now, k);
  }

  /** One turn, for one name. */
  lemma RunOneNamed(cfg: Config, root: Path, version: nat, j: Journal, b: Batch, i: nat, script: seq<Outcome>,
                    k: MutKey)
    requires i < |b.work| && Ready(b, root, version, i) && k.Named?
    requires NameAt(cfg, root, j, b, i, script, k)
    ensures i + 1 <= |RunOne(cfg, root, version, b, i, At(script, i)).work|
    ensures NameAt(cfg, root, j, RunOne(cfg, root, version, b, i, At(script, i)), i + 1, script, k)
  {
    hide At, Chains, DeletesNow, Journalled, LastAt, Later, LeavesAt, Logged, Mentions, NewShards, NoReuse, Put, Ready,
         Records, Remove, RolledForward, RoundsBefore, Sound, Tail;
    var o := At(script, i);
    var b' := RunOne(cfg, root, version, b, i, o);
    RunOneReady(cfg, root, version, b, i, o);
    assert forall x: nat | x < i + 1 :: b'.work[x] == b.work[x];
    assert forall x: nat | x < i + 1 :: Touches(root, b'.work, x, script, k) <==> Touches(root, b.work, x, script, k);
    TurnNamed(cfg, root, version, b, i, script, k);
    if !Touches(root, b'.work, i, script, k) {
      forall x: nat | x < i && Touches(root, b'.work, x, script, k)
                        && (forall y: nat | x < y < i + 1 :: !Touches(root, b'.work, y, script, k))
        ensures LeavesAt(cfg, root, b'.work, x, script, k, b'.j.store)
      {
        assert LeavesAt(cfg, root, b.work, x, script, k, b.j.store);
        LeavesSame(cfg, root, b.work, b'.work, x, script, k, b.j.store, b'.j.store);
      }
    }
  }

  lemma LeavesSame(cfg: Config, root: Path, work: seq<Work>, work': seq<Work>, x: nat, script: seq<Outcome>, k: MutKey,
                   store: map<MutKey, Record>, store': map<MutKey, Record>)
    requires x < |work| && work <= work' && Touches(root, work, x, script, k)
    requires LeavesAt(cfg, root, work, x, script, k, store) && SameAt(store, store', k)
    ensures Touches(root, work', x, script, k) && LeavesAt(cfg, root, work', x, script, k, store')
  {
  }

  lemma TurnNamed(cfg: Config, root: Path, version: nat, b: Batch, i: nat, script: seq<Outcome>, k: MutKey)
    requires i < |b.work| && Ready(b, root, version, i) && k.Named?
    ensures var b' := RunOne(cfg, root, version, b, i, At(script, i));
      && b.work <= b'.work
      && if Touches(root, b'.work, i, script, k) then LeavesAt(cfg, root, b'.work, i, script, k, b'.j.store)
         else SameAt(b.j.store, b'.j.store, k)
  {
    hide At, Chains, DeletesNow, Journalled, LastAt, Later, Logged, Mentions, Mutations, NewShards, NoReuse, Put, Ready,
         Records, Remove, RolledForward, RoundsBefore, Sound, Tail;
    var o := At(script, i);
    RunOneReady(cfg, root, version, b, i, o);
    TakenOutExactly(o, b.work[i].key, root);
    if o.Succeeded? {
      var rolled, put, tail := RunOneParts(cfg, root, version, b, i, o);
      RolledAt(cfg, b.j, b.work[i].mutation.tag, o, k);
      PutEffect(cfg, root, version, rolled, put, i, script, k);
      RemoveAt(put, b.work[i].key, k);
    } else {
    }
  }

  /** One turn, for the lists. */
  lemma RunOneLists(cfg: Config, root: Path, version: nat, initial: nat, b: Batch, i: nat, script: seq<Outcome>)
    requires i < |b.work| && Ready(b, root, version, i) && initial <= |b.work|
    requires Aligned(cfg, root, version, initial, b.work, i, script)
    requires b.toDel == Leftover(root, b.work, i, script)
    ensures var b' := RunOne(cfg, root, version, b, i, At(script, i));
      && i + 1 <= |b'.work|
      && Aligned(cfg, root, version, initial, b'.work, i + 1, script)
      && b'.toDel == Leftover(root, b'.work, i + 1, script)
  {
    hide Aligned, At, Chains, HasAncestor, HasKey, IsNew, Journalled, Later, Logged, Mutations, NewShards, NoReuse,
         Put, Ready, Remove, Render, RolledForward, RoundsBefore, Sound, Tail;
    var o := At(script, i);
    var b' := RunOne(cfg, root, version, b, i, o);
    if o.Succeeded? {
      var rolled, put, tail := RunOneParts(cfg, root, version, b, i, o);
      TailEntries(cfg, root, version, i, o.emitted, |rolled.log|, |o.emitted|);
      AlignedStep(cfg, root, version, initial, b.work, tail, |rolled.log|, i, script);
    } else {
      AlignedAfterFailure(cfg, root, version, initial, b.work, i, script);
    }
    LeftoverPrefix(root, b.work, b'.work, i, script);
    TakenOutExactly(o, b.work[i].key, root);
  }

  lemma AlignedAfterFailure(cfg: Config, root: Path, version: nat, initial: nat, work: seq<Work>, i: nat,
                            script: seq<Outcome>)
    requires At(script, i).Failed? && Aligned(cfg, root, version, initial, work, i, script)
    ensures Aligned(cfg, root, version, initial, work, i + 1, script)
  {
    hide IsDue;
    assert forall k | IsJournalled(k, root, version, i + 1, script) :: IsJournalled(k, root, version, i, script);
    assert forall k | IsJournalled(k, root, version, i, script) :: IsJournalled(k, root, version, i + 1, script);
  }

  lemma AlignedStep(cfg: Config, root: Path, version: nat, initial: nat, work: seq<Work>, tail: seq<Work>, base: nat,
                    i: nat, script: seq<Outcome>)
    requires initial <= |work| && Aligned(cfg, root, version, initial, work, i, script)
    requires At(script, i).Succeeded?
    requires tail == Tail(cfg, root, version, i, At(script, i).emitted, base, |At(script, i).emitted|)
    ensures Aligned(cfg, root, version, initial, work + tail, i + 1, script)
  {
    hide IsDue, Chains, Tail;
    var o := At(script, i);
    forall e ensures IsDue(cfg, root, e) <==> Chains(cfg, root, e) {
      DueExactly(cfg, root, e);
    }
    TailEntries(cfg, root, version, i, o.emitted, base, |o.emitted|);
    assert forall k | IsJournalled(k, root, version, i, script) :: IsJournalled(k, root, version, i + 1, script);
    forall x | initial <= x < |work + tail|
      ensures var w := (work + tail)[x];
        && IsJournalled(w.key, root, version, i + 1, script)
        && var e := At(script, w.key.round).emitted[w.key.index];
           IsDue(cfg, root, e) && w.mutation == e.mutation.(tag := w.mutation.tag)
    {
      if x >= |work| {
        assert (work + tail)[x] in tail;
      }
    }
    forall k | IsJournalled(k, root, version, i + 1, script) && IsDue(cfg, root, At(script, k.round).emitted[k.index])
      ensures HasKey(work + tail, k)
    {
      if k.round < i {
        assert IsJournalled(k, root, version, i, script);
        var x :| 0 <= x < |work| && work[x].key == k;
        assert (work + tail)[x].key == k;
      } else {
        var x :| 0 <= x < |tail| && tail[x].key == Anon(root, version, i, k.index);
        assert (work + tail)[|work| + x].key == k;
      }
    }
  }

  lemma {:induction false} LeftoverPrefix(root: Path, work: seq<Work>, work': seq<Work>, i: nat, script: seq<Outcome>)
    requires work <= work' && i <= |work|
    ensures Leftover(root, work, i, script) == Leftover(root, work', i, script)
  {
    if i > 0 {
      LeftoverPrefix(root, work, work', i - 1, script);
    }
  }

  /** The loop keeps the store sound, and its list of work and of deletes is what it should be. */
  lemma {:induction false} RunFromLists(cfg: Config, root: Path, version: nat, initial: nat, b: Batch, i: nat,
                                        script: seq<Outcome>)
    requires i <= |b.work| && Ready(b, root, version, i) && initial <= |b.work|
    requires Aligned(cfg, root, version, initial, b.work, i, script)
    requires b.toDel == Leftover(root, b.work, i, script)
    ensures var f := RunFrom(cfg, root, version, b, i, script);
      && b.work <= f.work
      && Aligned(cfg, root, version, initial, f.work, |f.work|, script)
      && f.toDel == Leftover(root, f.work, |f.work|, script)
    decreases if i < |script| then |script| - i else 0, |b.work| - i
  {
    hide Aligned, At, Later, Leftover, Ready, RunOne;
    if i < |b.work| {
      var b' := RunOne(cfg, root, version, b, i, At(script, i));
      RunOneLists(cfg, root, version, initial, b, i, script);
      RunOneReady(cfg, root, version, b, i, At(script, i));
      WorkAfterScript(cfg, root, version, b, i, script);
      RunFromLists(cfg, root, version, initial, b', i + 1, script);
    }
  }

  lemma {:induction false} RunFromEffect(cfg: Config, root: Path, version: nat, j: Journal, b: Batch, i: nat,
                                         script: seq<Outcome>, k: MutKey)
    requires i <= |b.work| && Ready(b, root, version, i) && Sound(j) && j.log <= b.j.log
    requires !IsNamed(k, |RunFrom(cfg, root, version, b, i, script).work|, script)
    requires EffectAt(cfg, root, version, j, b, i, script, k)
    ensures var f := RunFrom(cfg, root, version, b, i, script);
      EffectAt(cfg, root, version, j, f, |f.work|, script, k)
    decreases if i < |script| then |script| - i else 0, |b.work| - i
  {
    hide At, EffectAt, Mentions, Ready, RunOne, Sound;
    if i < |b.work| {
      RunFromReady(cfg, root, version, b, i, script);
      RunOneEffect(cfg, root, version, j, b, i, script, k);
      RunOneReady(cfg, root, version, b, i, At(script, i));
      WorkAfterScript(cfg, root, version, b, i, script);
      RunFromEffect(cfg, root, version, j, RunOne(cfg, root, version, b, i, At(script, i)), i + 1, script, k);
    }
  }

  lemma {:induction false} RunFromNamed(cfg: Config, root: Path, version: nat, j: Journal, b: Batch, i: nat,
                                        script: seq<Outcome>, k: MutKey)
    requires i <= |b.work| && Ready(b, root, version, i) && k.Named?
    requires NameAt(cfg, root, j, b, i, script, k)
    ensures var f := RunFrom(cfg, root, version, b, i, script);
      NameAt(cfg, root, j, f, |f.work|, script, k)
    decreases if i < |script| then |script| - i else 0, |b.work| - i
  {
    hide At, NameAt, Ready, RunOne;
    if i < |b.work| {
      RunOneNamed(cfg, root, version, j, b, i, script, k);
      RunOneReady(cfg, root, version, b, i, At(script, i));
      WorkAfterScript(cfg, root, version, b, i, script);
      RunFromNamed(cfg, root, version, j, RunOne(cfg, root, version, b, i, At(script, i)), i + 1, script, k);
    }
  }

  // ----- The tasks -----

  /** What one of the first i items journalled is stored as a record for this task. */
  ghost predicate IsWoken(cfg: Config, root: Path, version: nat, i: nat, script: seq<Outcome>, task: TaskShard) {
    exists k, r | IsJournalled(k, root, version, i, script) && RecordOf(cfg, k, script, r) :: task == TaskFor(cfg, r)
  }

  lemma NewTasks(cfg: Config, root: Path, version: nat, j: Journal, i: nat, script: seq<Outcome>, task: TaskShard)
    requires At(script, i).Succeeded?
    ensures IsWoken(cfg, root, version, i + 1, script, task) <==>
            IsWoken(cfg, root, version, i, script, task) || task in NewShards(cfg, j, At(script, i))
  {
    hide At, RecordOf, TaskFor, NewShards;
    if IsWoken(cfg, root, version, i + 1, script, task) && !IsWoken(cfg, root, version, i, script, task) {
      var k, r :| IsJournalled(k, root, version, i + 1, script) && RecordOf(cfg, k, script, r)
        && task == TaskFor(cfg, r);
      TaskIsNew(cfg, j, i, script, k, r);
    }
    if task in NewShards(cfg, j, At(script, i)) {
      NewTask(cfg, root, version, j, i, script, task);
    }
    if IsWoken(cfg, root, version, i, script, task) {
      var k, r :| IsJournalled(k, root, version, i, script) && RecordOf(cfg, k, script, r) && task == TaskFor(cfg, r);
      assert IsJournalled(k, root, version, i + 1, script);
    }
  }

  lemma TaskIsNew(cfg: Config, j: Journal, i: nat, script: seq<Outcome>, k: MutKey, r: Record)
    requires At(script, i).Succeeded? && k.Anon? && k.round == i && k.index < |At(script, i).emitted|
    requires RecordOf(cfg, k, script, r)
    ensures TaskFor(cfg, r) in NewShards(cfg, j, At(script, i))
  {
    hide At, Records, NewRecord, TaskFor, ShardOf;
    var o := At(script, i);
    SameTask(cfg, o.emitted[k.index].mutation, o.now, r, |j.log| + k.index);
    assert ShardOf(cfg, Stored(cfg, j, Mutations(o.emitted), o.now, k.index)) in NewShards(cfg, j, o);
  }

  lemma NewTask(cfg: Config, root: Path, version: nat, j: Journal, i: nat, script: seq<Outcome>, task: TaskShard)
    requires At(script, i).Succeeded? && task in NewShards(cfg, j, At(script, i))
    ensures IsWoken(cfg, root, version, i + 1, script, task)
  {
    hide At, Records, NewRecord, TaskFor, ShardOf;
    var o := At(script, i);
    var x: nat :| x < |o.emitted| && task == ShardOf(cfg, Stored(cfg, j, Mutations(o.emitted), o.now, x));
    var k, r := Anon(root, version, i, x), Stored(cfg, j, Mutations(o.emitted), o.now, x);
    NewRecordIs(cfg, o.emitted[x].mutation, |j.log| + x, o.now);
    SameTask(cfg, o.emitted[x].mutation, o.now, r, |j.log| + x);
    assert IsJournalled(k, root, version, i + 1, script) && RecordOf(cfg, k, script, r);
  }

  /** The task does not depend on which mutation of the same contents it is for. */
  lemma SameTask(cfg: Config, m: Mutation, now: int, r: Record, tag: nat)
    requires Records(cfg, r, m, now)
    ensures ShardOf(cfg, NewRecord(cfg, m.(tag := tag), now)) == TaskFor(cfg, r)
  {
    NewRecordIs(cfg, m, tag, now);
  }

  lemma NoNewTasks(cfg: Config, root: Path, version: nat, i: nat, script: seq<Outcome>, task: TaskShard)
    requires At(script, i).Failed?
    ensures IsWoken(cfg, root, version, i + 1, script, task) <==> IsWoken(cfg, root, version, i, script, task)
  {
    hide At, Records, TaskFor;
    forall k ensures IsJournalled(k, root, version, i + 1, script) <==> IsJournalled(k, root, version, i, script) {
    }
  }

  lemma NothingWoken(cfg: Config, root: Path, version: nat, script: seq<Outcome>, task: TaskShard)
    ensures !IsWoken(cfg, root, version, 0, script, task)
  {
  }

  lemma {:induction false} RunFromTasks(cfg: Config, root: Path, version: nat, before: set<TaskShard>, b: Batch, i: nat,
                                        script: seq<Outcome>, task: TaskShard)
    requires i <= |b.work|
    requires task in b.shards <==> task in before || IsWoken(cfg, root, version, i, script, task)
    ensures var f := RunFrom(cfg, root, version, b, i, script);
      task in f.shards <==> task in before || IsWoken(cfg, root, version, |f.work|, script, task)
    decreases if i < |script| then |script| - i else 0, |b.work| - i
  {
    hide At, IsWoken, NewShards, RolledForward, Put, Tail, DeletesNow, Remove;
    if i < |b.work| {
      var o := At(script, i);
      if o.Succeeded? {
        NewTasks(cfg, root, version, RolledForward(cfg, b.j, b.work[i].mutation.tag, o), i, script, task);
      } else {
        NoNewTasks(cfg, root, version, i, script, task);
      }
      WorkAfterScript(cfg, root, version, b, i, script);
      RunFromTasks(cfg, root, version, before, RunOne(cfg, root, version, b, i, o), i + 1, script, task);
    }
  }

  // ----- What has run -----

  /** One of the first i items succeeded, and it is mutation t. */
  ghost predicate HasRun(work: seq<Work>, i: nat, script: seq<Outcome>, t: nat) {
    exists x: nat | x < i && x < |work| && At(script, x).Succeeded? :: work[x].mutation.tag == t
  }

  lemma RanStep(work: seq<Work>, work': seq<Work>, i: nat, script: seq<Outcome>, t: nat)
    requires i < |work| && work <= work'
    ensures HasRun(work', i + 1, script, t) <==>
            HasRun(work, i, script, t) || (At(script, i).Succeeded? && work[i].mutation.tag == t)
  {
    hide At;
    assert forall x: nat | x < i + 1 :: work'[x] == work[x];
    if HasRun(work, i, script, t) {
      var x: nat :| x < i && x < |work| && At(script, x).Succeeded? && work[x].mutation.tag == t;
      assert work'[x].mutation.tag == t;
    }
    if At(script, i).Succeeded? && work[i].mutation.tag == t {
      assert work'[i].mutation.tag == t;
    }
  }

  lemma {:induction false} RunFromDone(cfg: Config, root: Path, version: nat, before: set<nat>, b: Batch, i: nat,
                                       script: seq<Outcome>, t: nat)
    requires i <= |b.work| && Ready(b, root, version, i)
    requires t in b.j.done <==> t in before || HasRun(b.work, i, script, t)
    ensures var f := RunFrom(cfg, root, version, b, i, script);
      t in f.j.done <==> t in before || HasRun(f.work, |f.work|, script, t)
    decreases if i < |script| then |script| - i else 0, |b.work| - i
  {
    hide At, HasRun, Ready, RunOne;
    if i < |b.work| {
      var b' := RunOne(cfg, root, version, b, i, At(script, i));
      TurnDone(cfg, root, version, b, i, At(script, i));
      RunOneReady(cfg, root, version, b, i, At(script, i));
      RanStep(b.work, b'.work, i, script, t);
      WorkAfterScript(cfg, root, version, b, i, script);
      RunFromDone(cfg, root, version, before, b', i + 1, script, t);
    }
  }

  lemma NothingRun(work: seq<Work>, script: seq<Outcome>, t: nat)
    ensures !HasRun(work, 0, script, t)
  {
  }

  lemma TurnDone(cfg: Config, root: Path, version: nat, b: Batch, i: nat, o: Outcome)
    requires i < |b.work| && Ready(b, root, version, i)
    ensures RunOne(cfg, root, version, b, i, o).j.done
         == b.j.done + if o.Succeeded? then {b.work[i].mutation.tag} else {}
  {
    hide Chains, DeletesNow, NewShards, NoReuse, Put, Ready, RolledForward, RoundsBefore, Sound, Tail;
    if o.Succeeded? {
      var rolled, put, tail := RunOneParts(cfg, root, version, b, i, o);
    } else {
    }
  }

  /** The effect of an attempt. At every anonymous key, and every name that no RollForward puts or
      cancels: the old contents, plus what successful items journalled, minus the successful items of
      this group whose delete was accepted. At every name: what the last turn to touch it left. Every
      success that could not be deleted is left for after the commit, in order; the entries added to
      the lists are the journalled mutations that are due; the tasks for all of them are to be fired; and exactly
      the successful items have run. */
  lemma CommitEffect(cfg: Config, root: Path, version: nat, b: Batch, script: seq<Outcome>)
    requires Ready(b, root, version, 0) && b.toDel == []
    ensures var f := RunFrom(cfg, root, version, b, 0, script);
      && (forall k: MutKey | k.Anon? || !IsNamed(k, |f.work|, script) ::
            EffectAt(cfg, root, version, b.j, f, |f.work|, script, k))
      && (forall k: MutKey | k.Named? :: NameAt(cfg, root, b.j, f, |f.work|, script, k))
      && f.toDel == Leftover(root, f.work, |f.work|, script)
      && b.work <= f.work && Aligned(cfg, root, version, |b.work|, f.work, |f.work|, script)
      && forall task ::
        task in f.shards <==> task in b.shards || IsWoken(cfg, root, version, |f.work|, script, task)
    ensures var f := RunFrom(cfg, root, version, b, 0, script);
      forall t :: t in f.j.done <==> t in b.j.done || HasRun(f.work, |f.work|, script, t)
  {
    hide RunFrom, Chains, IsWoken, HasRun;
    var f := RunFrom(cfg, root, version, b, 0, script);
    assert Aligned(cfg, root, version, |b.work|, b.work, 0, script);
    RunFromLists(cfg, root, version, |b.work|, b, 0, script);
    forall k: MutKey | k.Anon? || !IsNamed(k, |f.work|, script)
      ensures EffectAt(cfg, root, version, b.j, f, |f.work|, script, k)
    {
      assert EffectAt(cfg, root, version, b.j, b, 0, script, k);
      RunFromEffect(cfg, root, version, b.j, b, 0, script, k);
    }
    forall task ensures task in f.shards <==> task in b.shards || IsWoken(cfg, root, version, |f.work|, script, task) {
      NothingWoken(cfg, root, version, script, task);
      RunFromTasks(cfg, root, version, b.shards, b, 0, script, task);
    }
    forall t ensures t in f.j.done <==> t in b.j.done || HasRun(f.work, |f.work|, script, t) {
      NothingRun(b.work, script, t);
      RunFromDone(cfg, root, version, b.j.done, b, 0, script, t);
    }
    forall k: MutKey | k.Named? ensures NameAt(cfg, root, b.j, f, |f.work|, script, k) {
      assert NameAt(cfg, root, b.j, b, 0, script, k);
      RunFromNamed(cfg, root, version, b.j, b, 0, script, k);
    }
  }
}
