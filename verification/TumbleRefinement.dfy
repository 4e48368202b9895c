/** What processRoot does, with its retries and with other actors coming between, is a run of the
    system (tumble/process.go:356-458). */
module TumbleRefinement {

  import opened TumbleKeys
  import opened TumbleStore
  import opened TumbleBatch
  import opened TumbleProcess
  import opened TumbleSystem

  lemma {:induction false} ShardsDoNotMatter(cfg: Config, root: Path, version: nat, b: Batch, shards: set<TaskShard>,
                                             i: nat, script: seq<Outcome>)
    ensures var f := RunFrom(cfg, root, version, b, i, script);
      var g := RunFrom(cfg, root, version, b.(shards := shards), i, script);
      f.j == g.j && f.work == g.work && f.toDel == g.toDel
    decreases if i < |script| then |script| - i else 0, |b.work| - i
  {
    hide RolledForward, Put, Tail, NewShards, DeletesNow, Remove;
    if i < |b.work| {
      var b' := RunOne(cfg, root, version, b, i, At(script, i));
      WorkAfterScript(cfg, root, version, b, i, script);
      var c := RunOne(cfg, root, version, b.(shards := shards), i, At(script, i));
      assert c == b'.(shards := c.shards);
      ShardsDoNotMatter(cfg, root, version, b', c.shards, i + 1, script);
    }
  }

  lemma {:induction false} Append(cfg: Config, s: State, run: seq<Action>, a: Action)
    requires Legal(cfg, s, run) && Enabled(End(cfg, s, run), a)
    ensures Legal(cfg, s, run + [a]) && End(cfg, s, run + [a]) == Next(cfg, End(cfg, s, run), a)
    decreases |run|
  {
    hide Next, Enabled;
    if run == [] {
      assert run + [a] == [a] && [a][1..] == [];
    } else {
      Append(cfg, Next(cfg, s, run[0]), run[1..], a);
      assert (run + [a])[1..] == run[1..] + [a];
    }
  }

  /** The keys that the deletes after the commit have removed from the store are the accepted ones. */
  lemma {:induction false} DeleteAllAt(j: Journal, toDel: seq<MutKey>, deleted: set<MutKey>, k: MutKey)
    ensures k in DeleteAll(j, toDel, deleted).store <==> k in j.store && !(k in toDel && k in deleted)
    ensures k in DeleteAll(j, toDel, deleted).store ==> DeleteAll(j, toDel, deleted).store[k] == j.store[k]
  {
    if toDel != [] {
      assert toDel == toDel[..|toDel| - 1] + [toDel[|toDel| - 1]];
      DeleteAllAt(j, toDel[..|toDel| - 1], deleted, k);
    }
  }

  // ----- Loading -----

  function WithProc(s: State, p: nat, pr: Proc): State {
    s.(procs := s.procs[p := pr])
  }

  lemma LoadedTwice(s: State, p: nat, a: Proc, b: Proc)
    ensures WithProc(WithProc(s, p, a), p, b) == WithProc(s, p, b) && ProcOf(WithProc(s, p, a), p) == a
  {
    assert s.procs[p := a][p := b] == s.procs[p := b];
  }

  lemma {:induction false} LoadRuns(cfg: Config, s: State, p: nat, root: Path, keys: seq<MutKey>,
                                    undecodable: set<MutKey>)
    returns (run: seq<Action>)
    requires ProcOf(s, p).Idle? && IsRoot(root)
    requires forall k | k in keys && k in s.j.store :: s.j.store[k].target == root
    ensures Legal(cfg, s, run)
    ensures End(cfg, s, run) == WithProc(s, p, Loaded(root, Loadable(s.j.store, keys, undecodable)))
  {
    hide Legal, End;
    if keys == [] {
      EmptyRun(cfg, s);
      Append(cfg, s, [], Begin(p, root));
      run := [] + [Begin(p, root)];
    } else {
      var k := keys[|keys| - 1];
      var before := Loadable(s.j.store, keys[..|keys| - 1], undecodable);
      run := LoadRuns(cfg, s, p, root, keys[..|keys| - 1], undecodable);
      if k in s.j.store && k !in undecodable {
        Append(cfg, s, run, Fetch(p, k));
        run := run + [Fetch(p, k)];
        LoadedTwice(s, p, Loaded(root, before), Loaded(root, before + [Work(s.j.store[k].mutation, k)]));
      } else {
        assert before + [] == before;
      }
    }
  }

  // ----- Others coming between -----

  predicate IsStepOf(a: Action, p: nat) {
    !a.Transact? && a.p == p
  }

  lemma {:induction false} OthersKeep(cfg: Config, s: State, run: seq<Action>, p: nat)
    requires Legal(cfg, s, run) && forall a | a in run :: !IsStepOf(a, p)
    ensures ProcOf(End(cfg, s, run), p) == ProcOf(s, p)
    decreases |run|
  {
    if run != [] {
      assert run[0] in run && forall a | a in run[1..] :: a in run;
      StepKeeps(cfg, s, run[0], p);
      OthersKeep(cfg, Next(cfg, s, run[0]), run[1..], p);
    }
  }

  lemma StepKeeps(cfg: Config, s: State, a: Action, p: nat)
    requires Enabled(s, a) && !IsStepOf(a, p)
    ensures ProcOf(Next(cfg, s, a), p) == ProcOf(s, p)
  {
    hide Attempted, Remove, Transacted;
  }

  // ----- Deleting -----

  ghost predicate DeletesTo(cfg: Config, s: State, p: nat, keys: set<MutKey>, j: Journal, run: seq<Action>) {
    Legal(cfg, s, run) && End(cfg, s, run).j == j && ProcOf(End(cfg, s, run), p) == Deleting(keys)
  }

  function Waiting(toDel: seq<MutKey>, deleted: set<MutKey>, n: nat): set<MutKey>
    requires n <= |toDel|
  {
    set k | k in toDel && !(k in toDel[..n] && k in deleted)
  }

  lemma {:induction false} DeleteRuns(cfg: Config, s: State, p: nat, toDel: seq<MutKey>, deleted: set<MutKey>, n: nat)
    returns (run: seq<Action>)
    requires n <= |toDel| && ProcOf(s, p) == Deleting(set k | k in toDel)
    ensures DeletesTo(cfg, s, p, Waiting(toDel, deleted, n), DeleteAll(s.j, toDel[..n], deleted), run)
  {
    if n == 0 {
      run := [];
    } else {
      hide Legal, End;
      var k := toDel[n - 1];
      assert toDel[..n] == toDel[..n - 1] + [k] && toDel[..n][..n - 1] == toDel[..n - 1];
      run := DeleteRuns(cfg, s, p, toDel, deleted, n - 1);
      if k in deleted && k !in toDel[..n - 1] {
        assert Waiting(toDel, deleted, n) == Waiting(toDel, deleted, n - 1) - {k};
        Append(cfg, s, run, Action.Delete(p, k));
        run := run + [Action.Delete(p, k)];
      } else {
        assert Waiting(toDel, deleted, n) == Waiting(toDel, deleted, n - 1);
        DeleteAllAt(s.j, toDel[..n - 1], deleted, k);
      }
    }
  }

  lemma {:induction false} Concat(cfg: Config, s: State, run: seq<Action>, more: seq<Action>)
    requires Legal(cfg, s, run) && Legal(cfg, End(cfg, s, run), more)
    ensures Legal(cfg, s, run + more) && End(cfg, s, run + more) == End(cfg, End(cfg, s, run), more)
    decreases |run|
  {
    if run == [] {
      assert run + more == more;
    } else {
      Concat(cfg, Next(cfg, s, run[0]), run[1..], more);
      assert (run + more)[1..] == run[1..] + more;
    }
  }

  /** What ProcessRoot leaves in the store is what some run of the system leaves there, so all that
      holds of every run holds of it: `between` is what others did after it had loaded its batch and
      before the attempt that commits, and any number of attempts may have been aborted meanwhile. */
  lemma ProcessRootIsRun(cfg: Config, s: State, p: nat, root: Path, batch: seq<MutKey>, undecodable: set<MutKey>,
                         between: seq<Action>, attempts: seq<Attempt>, n: nat, deleted: set<MutKey>)
    returns (run: seq<Action>)
    requires ProcOf(s, p).Idle? && IsRoot(root)
    requires forall k | k in batch && k in s.j.store :: s.j.store[k].target == root
    requires FirstCommit(attempts, n)
    requires var loaded := WithProc(s, p, Loaded(root, Loadable(s.j.store, batch, undecodable)));
      && Legal(cfg, loaded, between) && (forall a | a in between :: !IsStepOf(a, p))
      && attempts[n].found == End(cfg, loaded, between).j
      && attempts[n].version == Version(End(cfg, loaded, between), root)
    ensures var f := Outcomes(cfg, root, Loadable(s.j.store, batch, undecodable), attempts, n);
      Legal(cfg, s, run) && End(cfg, s, run).j == DeleteAll(f.j, f.toDel, deleted)
  {
    hide Collected, End, Legal, Loadable, RunFrom, Version;
    var work := Loadable(s.j.store, batch, undecodable);
    var loaded := WithProc(s, p, Loaded(root, work));
    var load := LoadRuns(cfg, s, p, root, batch, undecodable);
    Concat(cfg, s, load, between);
    OthersKeep(cfg, loaded, between, p);
    var before := End(cfg, loaded, between);
    var f := Outcomes(cfg, root, work, attempts, n);
    var rest := CommitAndDelete(cfg, before, p, work, attempts[n].script, Collected(cfg, root, work, attempts, n),
                                deleted);
    run := load + between + rest;
    Concat(cfg, s, load + between, rest);
  }

  lemma CommitAndDelete(cfg: Config, s: State, p: nat, work: seq<Work>, script: seq<Outcome>, shards: set<TaskShard>,
                        deleted: set<MutKey>)
    returns (run: seq<Action>)
    requires ProcOf(s, p).Loaded? && ProcOf(s, p).work == work
    ensures var root := ProcOf(s, p).root;
      var f := RunFrom(cfg, root, Version(s, root), Start(s.j, work, shards), 0, script);
      Legal(cfg, s, run) && End(cfg, s, run).j == DeleteAll(f.j, f.toDel, deleted)
  {
    hide DeleteAll, End, Legal, RunFrom, Version;
    var root := ProcOf(s, p).root;
    ShardsDoNotMatter(cfg, root, Version(s, root), Start(s.j, work, shards), {}, 0, script);
    var f := Attempted(cfg, s, ProcOf(s, p), script);
    EmptyRun(cfg, s);
    Append(cfg, s, [], Commit(p, script, 1));
    var rest := DeleteRuns(cfg, Next(cfg, s, Commit(p, script, 1)), p, f.toDel, deleted, |f.toDel|);
    assert f.toDel[..|f.toDel|] == f.toDel;
    run := [] + [Commit(p, script, 1)] + rest;
    Concat(cfg, s, [] + [Commit(p, script, 1)], rest);
  }

  lemma EmptyRun(cfg: Config, s: State)
    ensures Legal(cfg, s, []) && End(cfg, s, []) == s
  {
  }
}
