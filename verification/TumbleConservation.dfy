/** No mutation is lost: which mutations stay until they have run, over every run of the system, and
    exactly when one does not (tumble/process.go:356-458, tumble/tumble.go:95-148). */
module TumbleConservation {

  import opened TumbleKeys
  import opened TumbleStore
  import opened TumbleBatch
  import opened TumbleEffect
  import opened TumbleAttempt
  import opened TumbleSystem

  predicate PutsAt(a: Action, k: MutKey) {
    match a
    case Transact(_, named, _, _, _) => Puts(named, k)
    case Commit(_, script, _) => ScriptPuts(script, k)
    case _ => false
  }

  ghost predicate Holds(pr: Proc, k: MutKey) {
    || (pr.Loaded? && exists w | w in pr.work :: w.key == k)
    || (pr.Deleting? && k in pr.keys)
  }

  /** A processor has loaded the mutation called k, or still has to delete it. */
  ghost predicate InFlight(s: State, k: MutKey) {
    exists p | p in s.procs :: Holds(s.procs[p], k)
  }

  /** The mutation stored at k has run, or is not the one this processor would delete unrun. */
  ghost predicate CleanProc(j: Journal, pr: Proc, k: MutKey) {
    k in j.store && j.Tag(k) !in j.done ==>
      && (pr.Loaded? ==> forall w | w in pr.work && w.key == k :: w.mutation.tag == j.Tag(k))
      && (pr.Deleting? ==> k !in pr.keys)
  }

  /** No processor holds another mutation under the key k than the one that is stored there. */
  ghost predicate CleanAt(s: State, k: MutKey) {
    forall p | p in s.procs :: CleanProc(s.j, s.procs[p], k)
  }

  // ----- One step -----

  lemma UnheldClean(j: Journal, pr: Proc, k: MutKey)
    requires !Holds(pr, k)
    ensures CleanProc(j, pr, k)
  {
  }

  lemma KeptClean(j: Journal, j': Journal, pr: Proc, k: MutKey)
    requires CleanProc(j, pr, k) && NotRewritten(j, j', k) && j.done <= j'.done
    ensures CleanProc(j', pr, k)
  {
  }

  /** Other processors, when the store grows and k is not written. */
  lemma OthersClean(s: State, j': Journal, k: MutKey)
    requires Inv(s) && CleanAt(s, k) && Later(s.j, j')
    requires k in s.j.log && InFlight(s, k) ==> NotRewritten(s.j, j', k)
    ensures forall p | p in s.procs :: CleanProc(j', s.procs[p], k)
  {
    forall p | p in s.procs ensures CleanProc(j', s.procs[p], k) {
      if !Holds(s.procs[p], k) {
        UnheldClean(j', s.procs[p], k);
      } else {
        assert Known(s.j.log, s.procs[p]);
        KeptClean(s.j, j', s.procs[p], k);
      }
    }
  }

  lemma TransactAt(cfg: Config, s: State, parent: Path, named: seq<NamedOp>, muts: seq<Mutation>, now: int, k: MutKey)
    requires Inv(s) && !Puts(named, k) && k in s.j.log
    ensures NotRewritten(s.j, Transacted(cfg, s, parent, named, muts, now), k)
  {
    hide ApplyNamed, Group, Inv, IsRoot, Journalled, PutMutations, Puts, RoundsBefore, Version;
    var version := Version(s, Group(parent));
    var applied := ApplyNamed(cfg, s.j, named, now);
    ApplyNamedAt(cfg, s.j, named, now, k);
    PutMutationsEffect(cfg, applied, parent, version, 0, muts, now, |muts|);
    GroupRoundsBefore(s, parent);
    NotThisRound(s.j.log, parent, version, k);
    ElsewhereSame(cfg, applied, Transacted(cfg, s, parent, named, muts, now), parent, version, muts, now, k);
  }

  lemma ElsewhereSame(cfg: Config, j: Journal, j': Journal, parent: Path, version: nat, muts: seq<Mutation>, now: int,
                      k: MutKey)
    requires Journalled(cfg, j, j', parent, version, 0, muts, now, |muts|)
    requires !IsNew(k, parent, version, 0, |muts|)
    ensures NotRewritten(j, j', k)
  {
    assert SameAt(j.store, j'.store, k);
  }

  lemma NotThisRound(log: seq<MutKey>, parent: Path, version: nat, k: MutKey)
    requires RoundsBefore(log, parent, version, 0) && k in log
    ensures forall n :: !IsNew(k, parent, version, 0, n)
  {
  }

  lemma TransactClean(cfg: Config, s: State, a: Action, k: MutKey)
    requires a.Transact? && Inv(s) && Enabled(s, a) && CleanAt(s, k)
    requires PutsAt(a, k) ==> !InFlight(s, k)
    ensures CleanAt(Next(cfg, s, a), k) && Next(cfg, s, a).j.lost == s.j.lost
  {
    hide Attempted, CleanProc, Enabled, Group, InFlight, Inv, Later, NoReuse, NotRewritten, ProcOf, Puts, Remove,
         ScriptPuts, Sound, Transacted, Version;
    TransactGrows(cfg, s, a.parent, a.named, a.muts, a.now);
    var j' := Transacted(cfg, s, a.parent, a.named, a.muts, a.now);
    if k in s.j.log && InFlight(s, k) {
      TransactAt(cfg, s, a.parent, a.named, a.muts, a.now, k);
    }
    OthersClean(s, j', k);
  }

  lemma StartClean(s: State, p: nat, k: MutKey)
    requires CleanAt(s, k) && ProcOf(s, p).Loaded?
    ensures CleanBatch(Start(s.j, ProcOf(s, p).work, {}), 0, k)
    ensures !InFlight(s, k) ==> Absent(Start(s.j, ProcOf(s, p).work, {}), k)
  {
    var pr := ProcOf(s, p);
    assert p in s.procs && CleanProc(s.j, s.procs[p], k);
    assert forall x | 0 <= x < |pr.work| :: pr.work[x] in pr.work;
    if !InFlight(s, k) {
      assert !Holds(s.procs[p], k);
    }
  }

  lemma AfterClean(f: Batch, k: MutKey)
    requires CleanBatch(f, |f.work|, k)
    ensures CleanProc(f.j, Deleting(set k | k in f.toDel), k)
  {
  }

  lemma CommitClean(cfg: Config, s: State, a: Action, k: MutKey)
    requires a.Commit? && Inv(s) && Enabled(s, a) && CleanAt(s, k)
    requires PutsAt(a, k) ==> !InFlight(s, k)
    ensures CleanAt(Next(cfg, s, a), k) && NothingLostAt(s.j, Next(cfg, s, a).j, k)
  {
    hide Absent, CleanBatch, CleanProc, Group, InFlight, Inv, IsRoot, Known, Later, NoReuse, NotRewritten,
         NothingLostAt, ProcOf, Puts, Ready, Remove, RunFrom, ScriptPuts, Sound, Start, Transacted, Version;
    var pr := ProcOf(s, a.p);
    var b := Start(s.j, pr.work, {});
    var f := Attempted(cfg, s, pr, a.script);
    CommitGrows(cfg, s, a.p, a.script);
    BatchReady(s, a.p);
    StartClean(s, a.p, k);
    StartJournal(s.j, pr.work);
    RunFromClean(cfg, pr.root, Version(s, pr.root), b, 0, a.script, k);
    AfterClean(f, k);
    OthersClean(s, f.j, k);
  }

  lemma StartJournal(j: Journal, work: seq<Work>)
    ensures Start(j, work, {}).j == j && Start(j, work, {}).work == work && Start(j, work, {}).toDel == []
    ensures Start(j, work, {}).shards == {}
  {
  }

  lemma DeleteClean(cfg: Config, s: State, a: Action, k: MutKey)
    requires a.Delete? && Inv(s) && Enabled(s, a) && CleanAt(s, k)
    ensures CleanAt(Next(cfg, s, a), k) && NothingLostAt(s.j, Next(cfg, s, a).j, k)
  {
    assert CleanProc(s.j, s.procs[a.p], k);
    RemoveLosesNothing(s.j, a.key, k);
    var s' := Next(cfg, s, a);
    forall p | p in s'.procs ensures CleanProc(s'.j, s'.procs[p], k) {
      assert CleanProc(s.j, if p in s.procs then s.procs[p] else Idle, k);
    }
  }

  /** Without a put at a key in flight, a step loses nothing there and leaves it clean. */
  lemma StepClean(cfg: Config, s: State, a: Action, k: MutKey)
    requires Inv(s) && Enabled(s, a) && CleanAt(s, k)
    requires PutsAt(a, k) ==> !InFlight(s, k)
    ensures CleanAt(Next(cfg, s, a), k) && NothingLostAt(s.j, Next(cfg, s, a).j, k)
  {
    hide Attempted, Group, InFlight, Inv, IsRoot, PutsAt, Remove, Transacted, Version;
    if a.Transact? {
      TransactClean(cfg, s, a, k);
    } else if a.Commit? {
      CommitClean(cfg, s, a, k);
    } else if a.Delete? {
      DeleteClean(cfg, s, a, k);
    } else {
    }
  }

  // ----- Every run -----

  /** Never is a named mutation put again while a processor holds an earlier one of the same name. */
  ghost predicate Disciplined(cfg: Config, s: State, run: seq<Action>, k: MutKey)
    requires Legal(cfg, s, run)
    decreases |run|
  {
    run != [] ==>
      && (PutsAt(run[0], k) ==> !InFlight(s, k))
      && Disciplined(cfg, Next(cfg, s, run[0]), run[1..], k)
  }

  lemma {:induction false} RunClean(cfg: Config, s: State, run: seq<Action>, k: MutKey)
    requires Inv(s) && CleanAt(s, k) && Legal(cfg, s, run) && Disciplined(cfg, s, run, k)
    ensures CleanAt(End(cfg, s, run), k) && NothingLostAt(s.j, End(cfg, s, run).j, k)
    decreases |run|
  {
    hide CleanAt, Enabled, InFlight, Inv, Later, Next, PutsAt;
    if run != [] {
      var s' := Next(cfg, s, run[0]);
      StepInv(cfg, s, run[0]);
      StepClean(cfg, s, run[0], k);
      RunClean(cfg, s', run[1..], k);
      RunInv(cfg, s', run[1..]);
      LostChain(s.j, s'.j, End(cfg, s, run).j, k);
    } else {
    }
  }

  lemma LostChain(a: Journal, b: Journal, c: Journal, k: MutKey)
    requires NothingLostAt(a, b, k) && NothingLostAt(b, c, k) && Later(b, c)
    ensures NothingLostAt(a, c, k)
  {
  }

  lemma {:induction false} AnonymousDisciplined(cfg: Config, s: State, run: seq<Action>, k: MutKey)
    requires Legal(cfg, s, run) && k.Anon?
    ensures Disciplined(cfg, s, run, k)
    decreases |run|
  {
    if run != [] {
      NoPutsAtAnonymous(run[0], k);
      AnonymousDisciplined(cfg, Next(cfg, s, run[0]), run[1..], k);
    }
  }

  lemma NoPutsAtAnonymous(a: Action, k: MutKey)
    requires k.Anon?
    ensures !PutsAt(a, k)
  {
  }

  lemma InitClean(k: MutKey)
    ensures Inv(INIT) && CleanAt(INIT, k)
  {
  }

  /** In every run whatsoever, an anonymous mutation is stored until its RollForward is committed:
      crashes, aborted attempts and failures can only make it run again. */
  lemma AnonymousNeverLost(cfg: Config, run: seq<Action>, t: nat)
    requires Legal(cfg, INIT, run)
    requires t < |End(cfg, INIT, run).j.log| && End(cfg, INIT, run).j.log[t].Anon?
    ensures var j := End(cfg, INIT, run).j;
      t in j.done || (j.log[t] in j.store && j.Tag(j.log[t]) == t)
  {
    hide Legal, End, Disciplined, CleanAt, RoundsBefore, NoReuse;
    var s := End(cfg, INIT, run);
    var k := s.j.log[t];
    InitClean(k);
    AnonymousDisciplined(cfg, INIT, run, k);
    RunInv(cfg, INIT, run);
    RunClean(cfg, INIT, run, k);
    assert Accounted(s.j, t);
  }

  /** In every run that never puts a named mutation over one in flight, nothing is lost: every
      mutation is stored, has run, was cancelled by name, or was replaced by one of the same name. */
  lemma NoneLost(cfg: Config, run: seq<Action>)
    requires Legal(cfg, INIT, run)
    requires forall k :: Disciplined(cfg, INIT, run, k)
    ensures End(cfg, INIT, run).j.lost == {}
    ensures var j := End(cfg, INIT, run).j;
      forall t: nat | t < |j.log| ::
        t in j.done + j.cancelled + j.overwritten || (j.log[t] in j.store && j.Tag(j.log[t]) == t)
  {
    hide Legal, End, Disciplined, CleanAt, RoundsBefore, NoReuse;
    var j := End(cfg, INIT, run).j;
    InitClean(Named([Element("", "")], ""));
    RunInv(cfg, INIT, run);
    forall t | t in j.lost ensures false {
      InitClean(j.log[t]);
      RunClean(cfg, INIT, run, j.log[t]);
    }
    forall t: nat | t < |j.log|
      ensures t in j.done + j.cancelled + j.overwritten || (j.log[t] in j.store && j.Tag(j.log[t]) == t)
    {
      assert Accounted(j, t);
    }
  }

  // ----- Exactly when a mutation can be lost -----

  ghost predicate NoPuts(run: seq<Action>, k: MutKey) {
    forall a | a in run :: !PutsAt(a, k)
  }

  ghost predicate Loses(cfg: Config, s: State, run: seq<Action>, k: MutKey) {
    && Legal(cfg, s, run) && NoPuts(run, k)
    && !NothingLostAt(s.j, End(cfg, s, run).j, k)
  }

  lemma {:induction false} NoPutsDisciplined(cfg: Config, s: State, run: seq<Action>, k: MutKey)
    requires Legal(cfg, s, run) && NoPuts(run, k)
    ensures Disciplined(cfg, s, run, k)
    decreases |run|
  {
    if run != [] {
      assert run[0] in run && forall a | a in run[1..] :: a in run;
      NoPutsDisciplined(cfg, Next(cfg, s, run[0]), run[1..], k);
    }
  }

  /** With no further put of the name, a mutation stored at k can be lost if and only if now some
      processor holds an earlier mutation of that name, or has one to delete. */
  lemma LossExact(cfg: Config, s: State, k: MutKey)
    requires Inv(s)
    ensures (exists run :: Loses(cfg, s, run, k)) <==> !CleanAt(s, k)
  {
    hide CleanAt, CleanProc, Disciplined, End, Inv, Legal, NoPuts, NothingLostAt;
    if CleanAt(s, k) {
      forall run ensures !Loses(cfg, s, run, k) {
        if Legal(cfg, s, run) && NoPuts(run, k) {
          NoPutsDisciplined(cfg, s, run, k);
          RunClean(cfg, s, run, k);
        }
      }
    } else {
      var p := Culprit(s, k);
      if s.procs[p].Deleting? {
        DeleteLoses(cfg, s, p, k);
      } else {
        CommitLoses(cfg, s, p, k);
      }
    }
  }

  lemma Culprit(s: State, k: MutKey) returns (p: nat)
    requires !CleanAt(s, k)
    ensures p in s.procs && !CleanProc(s.j, s.procs[p], k)
    ensures s.procs[p].Deleting? || s.procs[p].Loaded?
  {
    p :| p in s.procs && !CleanProc(s.j, s.procs[p], k);
  }

  lemma RemoveLoses(j: Journal, k: MutKey)
    requires Sound(j) && k in j.store && j.Tag(k) !in j.done
    ensures !NothingLostAt(j, Remove(j, k), k)
  {
    assert j.Tag(k) in Remove(j, k).lost;
  }

  lemma DeleteLoses(cfg: Config, s: State, p: nat, k: MutKey)
    requires Inv(s) && p in s.procs && s.procs[p].Deleting? && !CleanProc(s.j, s.procs[p], k)
    ensures exists run :: Loses(cfg, s, run, k)
  {
    var a := Action.Delete(p, k);
    RemoveLoses(s.j, k);
    OneStep(cfg, s, a);
    assert Loses(cfg, s, [a], k);
  }

  lemma OneStep(cfg: Config, s: State, a: Action)
    requires Enabled(s, a)
    ensures Legal(cfg, s, [a]) && End(cfg, s, [a]) == Next(cfg, s, a)
  {
    assert [a][1..] == [];
  }

  lemma TwoSteps(cfg: Config, s: State, a: Action, b: Action)
    requires Enabled(s, a) && Enabled(Next(cfg, s, a), b)
    ensures Legal(cfg, s, [a, b]) && End(cfg, s, [a, b]) == Next(cfg, Next(cfg, s, a), b)
  {
    OneStep(cfg, Next(cfg, s, a), b);
    assert [a, b][1..] == [b];
  }

  /** The attempt in which only item x succeeds, returning nothing. */
  function OnlyItem(x: nat): seq<Outcome> {
    seq(x + 1, i => if i < x then Failed else Succeeded([], [], 0, true))
  }

  lemma {:induction false} OnlyItemRuns(cfg: Config, root: Path, version: nat, b: Batch, i: nat, x: nat)
    requires i <= x < |b.work|
    ensures RunFrom(cfg, root, version, b, i, OnlyItem(x))
         == RunOne(cfg, root, version, b, x, Succeeded([], [], 0, true))
    decreases x - i
  {
    hide RunOne;
    if i < x {
      FailedTurn(cfg, root, version, b, i);
      OnlyItemRuns(cfg, root, version, b, i + 1, x);
    } else {
      NothingMore(cfg, root, version, RunOne(cfg, root, version, b, x, Succeeded([], [], 0, true)), x + 1, OnlyItem(x));
    }
  }

  lemma FailedTurn(cfg: Config, root: Path, version: nat, b: Batch, i: nat)
    requires i < |b.work|
    ensures RunOne(cfg, root, version, b, i, Failed) == b
  {
  }

  lemma {:induction false} NothingMore(cfg: Config, root: Path, version: nat, b: Batch, i: nat, script: seq<Outcome>)
    requires |script| <= i
    ensures RunFrom(cfg, root, version, b, i, script) == b
    decreases |b.work| - i
  {
    if i < |b.work| {
      FailedTurn(cfg, root, version, b, i);
      NothingMore(cfg, root, version, b, i + 1, script);
    }
  }

  lemma CommitLoses(cfg: Config, s: State, p: nat, k: MutKey)
    requires Inv(s) && p in s.procs && s.procs[p].Loaded? && !CleanProc(s.j, s.procs[p], k)
    ensures exists run :: Loses(cfg, s, run, k)
  {
    hide CleanProc, Enabled, End, HasAncestor, Inv, Legal, Next, NothingLostAt, OnlyItem, ProcOf, Puts, Ran, Remove,
         Render, ScriptPuts, Sound;
    var x := OtherItem(s.j, s.procs[p], k);
    var a := Commit(p, OnlyItem(x), 1);
    CommitOnly(cfg, s, p, x);
    InvSound(s);
    StaleRemoved(s.j, s.procs[p].work[x].mutation.tag, k);
    NoPutsInItem(x, k);
    OneStep(cfg, s, a);
    if HasAncestor(Render(k), s.procs[p].root) {
      assert Loses(cfg, s, [a], k);
    } else {
      DeleteNext(cfg, Next(cfg, s, a), p, k);
      TwoSteps(cfg, s, a, Action.Delete(p, k));
      assert Loses(cfg, s, [a, Action.Delete(p, k)], k);
    }
  }

  lemma InvSound(s: State)
    requires Inv(s)
    ensures Sound(s.j)
  {
  }

  /** The commit in which only item x succeeds. */
  lemma CommitOnly(cfg: Config, s: State, p: nat, x: nat)
    requires p in s.procs && s.procs[p].Loaded? && x < |s.procs[p].work|
    ensures var pr := s.procs[p];
      var a := Commit(p, OnlyItem(x), 1);
      var ran := Ran(s.j, pr.work[x].mutation.tag);
      var key := pr.work[x].key;
      && Enabled(s, a)
      && (if HasAncestor(Render(key), pr.root) then Next(cfg, s, a).j == Remove(ran, key)
          else Next(cfg, s, a).j == ran && ProcOf(Next(cfg, s, a), p) == Deleting({key}))
  {
    hide RunOne;
    var pr := s.procs[p];
    OnlyItemRuns(cfg, pr.root, Version(s, pr.root), Start(s.j, pr.work, {}), 0, x);
    OneTurn(cfg, pr.root, Version(s, pr.root), s.j, pr.work, x);
    assert (set k | k in [pr.work[x].key]) == {pr.work[x].key};
  }

  lemma DeleteNext(cfg: Config, s: State, p: nat, k: MutKey)
    requires ProcOf(s, p) == Deleting({k})
    ensures Enabled(s, Action.Delete(p, k)) && Next(cfg, s, Action.Delete(p, k)).j == Remove(s.j, k)
  {
  }

  lemma OtherItem(j: Journal, pr: Proc, k: MutKey) returns (x: nat)
    requires pr.Loaded? && !CleanProc(j, pr, k)
    ensures x < |pr.work| && pr.work[x].key == k && k in j.store && j.Tag(k) !in j.done
    ensures pr.work[x].mutation.tag != j.Tag(k)
  {
    var w :| w in pr.work && w.key == k && w.mutation.tag != j.Tag(k);
    x :| 0 <= x < |pr.work| && pr.work[x] == w;
  }

  lemma OneTurn(cfg: Config, root: Path, version: nat, j: Journal, work: seq<Work>, x: nat)
    requires x < |work|
    ensures var f := RunOne(cfg, root, version, Start(j, work, {}), x, Succeeded([], [], 0, true));
      var ran := Ran(j, work[x].mutation.tag);
      if HasAncestor(Render(work[x].key), root) then f.j == Remove(ran, work[x].key) && f.toDel == []
      else f.j == ran && f.toDel == [work[x].key]
  {
  }

  lemma StaleRemoved(j: Journal, tag: nat, k: MutKey)
    requires Sound(j) && k in j.store && j.Tag(k) !in j.done && tag != j.Tag(k)
    ensures !NothingLostAt(j, Remove(Ran(j, tag), k), k)
  {
    assert j.Tag(k) in Remove(Ran(j, tag), k).lost;
  }

  lemma NoPutsInItem(x: nat, k: MutKey)
    ensures !ScriptPuts(OnlyItem(x), k)
  {
  }

  // ----- Names put by their own predecessor -----

  lemma {:induction false} PutTag(cfg: Config, j: Journal, ops: seq<NamedOp>, now: int, k: MutKey)
    requires Sound(j) && LastAt(ops, k).Some? && LastAt(ops, k).value.PutNamed?
    ensures var j' := ApplyNamed(cfg, j, ops, now);
      k in j'.store && j'.Tag(k) >= |j.log|
  {
    hide Sound;
    var rest := ops[..|ops| - 1];
    ApplyNamedSound(cfg, j, rest, now);
    if ops[|ops| - 1].Key() != k {
      PutTag(cfg, j, rest, now, k);
    }
  }

  /** The turn puts the name anew, and then deletes it. */
  lemma TurnLoses(cfg: Config, root: Path, version: nat, b: Batch, i: nat, o: Outcome) returns (t: nat)
    requires i < |b.work| && Ready(b, root, version, i)
    requires var k := b.work[i].key;
      DeletesNow(o, k, root) && LastAt(o.named, k).Some? && LastAt(o.named, k).value.PutNamed?
    ensures var j := RunOne(cfg, root, version, b, i, o).j;
      |b.j.log| <= t < |j.log| && j.log[t] == b.work[i].key && b.work[i].key.Named? && t in j.lost && t !in j.done
    ensures forall w | w in RunOne(cfg, root, version, b, i, o).work :: w.mutation.tag != t
  {
    hide Chains, HasAncestor, LastAt, NewShards, NoReuse, Put, RolledForward, RoundsBefore, Sound, Tail;
    var k := b.work[i].key;
    LastNamed(o.named, k);
    DoneOld(b, i, root, version);
    assert b.work[i] in b.work;
    var rolled, put, tail := RunOneParts(cfg, root, version, b, i, o);
    RanSound(b.j, b.work[i].mutation.tag);
    PutTag(cfg, Ran(b.j, b.work[i].mutation.tag), o.named, o.now, k);
    RolledIs(cfg, b.j, b.work[i].mutation.tag, o);
    assert SameAt(rolled.store, put.store, k);
    t := put.Tag(k);
    StoredTag(put, k);
    assert forall w | w in b.work + tail :: w in b.work || w in tail;
  }

  lemma LastNamed(ops: seq<NamedOp>, k: MutKey)
    requires LastAt(ops, k).Some?
    ensures k.Named?
  {
  }

  lemma RolledIs(cfg: Config, j: Journal, tag: nat, o: Outcome)
    requires o.Succeeded?
    ensures RolledForward(cfg, j, tag, o) == ApplyNamed(cfg, Ran(j, tag), o.named, o.now)
  {
  }

  lemma StoredTag(j: Journal, k: MutKey)
    requires Sound(j) && k in j.store
    ensures j.Tag(k) < |j.log| && j.log[j.Tag(k)] == k
  {
  }

  lemma DoneOld(b: Batch, i: nat, root: Path, version: nat)
    requires i < |b.work| && Ready(b, root, version, i)
    ensures forall t | t in b.j.done :: t < |b.j.log|
    ensures forall w | w in b.work :: w.mutation.tag < |b.j.log|
  {
    assert forall w | w in b.work :: Logged(b.j.log, w);
  }

  /** Nothing but the items of the batch is ever run. */
  lemma {:induction false} NotRun(cfg: Config, root: Path, version: nat, b: Batch, i: nat, script: seq<Outcome>, t: nat)
    requires i <= |b.work| && Ready(b, root, version, i) && t < |b.j.log| && t !in b.j.done
    requires forall w | w in b.work :: w.mutation.tag != t
    ensures t !in RunFrom(cfg, root, version, b, i, script).j.done
    decreases if i < |script| then |script| - i else 0, |b.work| - i
  {
    hide At, Ready, RunOne;
    if i < |b.work| {
      TurnNotRun(cfg, root, version, b, i, At(script, i), t);
      RunOneReady(cfg, root, version, b, i, At(script, i));
      WorkAfterScript(cfg, root, version, b, i, script);
      NotRun(cfg, root, version, RunOne(cfg, root, version, b, i, At(script, i)), i + 1, script, t);
    }
  }

  lemma TurnNotRun(cfg: Config, root: Path, version: nat, b: Batch, i: nat, o: Outcome, t: nat)
    requires i < |b.work| && Ready(b, root, version, i) && t < |b.j.log| && t !in b.j.done
    requires forall w | w in b.work :: w.mutation.tag != t
    ensures t !in RunOne(cfg, root, version, b, i, o).j.done
    ensures forall w | w in RunOne(cfg, root, version, b, i, o).work :: w.mutation.tag != t
  {
    hide Chains, DeletesNow, NewShards, NoReuse, Put, Ready, RolledForward, RoundsBefore, Sound, Tail;
    if o.Succeeded? {
      var rolled, put, tail := RunOneParts(cfg, root, version, b, i, o);
      assert b.work[i] in b.work;
      assert forall w | w in b.work + tail :: w in b.work || w in tail;
    } else {
    }
  }

  lemma {:induction false} FromTurn(cfg: Config, root: Path, version: nat, b: Batch, i: nat, x: nat,
                                    script: seq<Outcome>)
    returns (t: nat)
    requires i <= x && i <= |b.work| && Ready(b, root, version, i)
    requires OwnName(root, RunFrom(cfg, root, version, b, i, script).work, x, script)
    ensures var f := RunFrom(cfg, root, version, b, i, script);
      |b.j.log| <= t < |f.j.log| && f.j.log[t] == f.work[x].key && t in f.j.lost && t !in f.j.done
    decreases if i < |script| then |script| - i else 0, |b.work| - i
  {
    hide At, DeletesNow, LastAt, Ready, RunOne;
    RunFromReady(cfg, root, version, b, i, script);
    var b' := RunOne(cfg, root, version, b, i, At(script, i));
    RunOneReady(cfg, root, version, b, i, At(script, i));
    RunFromReady(cfg, root, version, b', i + 1, script);
    WorkAfterScript(cfg, root, version, b, i, script);
    if i < x {
      t := FromTurn(cfg, root, version, b', i + 1, x, script);
    } else {
      TakenOutExactly(At(script, i), b.work[i].key, root);
      t := TurnLoses(cfg, root, version, b, i, At(script, i));
      NotRun(cfg, root, version, b', i + 1, script, t);
    }
  }

  /** Item x succeeds, its RollForward ends up with a put of its own name, and its delete is accepted. */
  predicate OwnName(root: Path, work: seq<Work>, x: nat, script: seq<Outcome>) {
    && x < |work|
    && Deletes(root, work, x, script, work[x].key)
    && LastAt(At(script, x).named, work[x].key).Some?
    && LastAt(At(script, x).named, work[x].key).value.PutNamed?
  }

  /** A mutation put under the name of the one whose RollForward puts it is lost, unless it is
      cancelled there, or the delete in the transaction is refused: the delete comes afterwards. */
  lemma OwnNameLost(cfg: Config, s: State, p: nat, script: seq<Outcome>, x: nat, bump: nat) returns (t: nat)
    requires Inv(s) && ProcOf(s, p).Loaded? && bump >= 1
    requires OwnName(ProcOf(s, p).root, Attempted(cfg, s, ProcOf(s, p), script).work, x, script)
    ensures var j := Next(cfg, s, Commit(p, script, bump)).j;
      && |s.j.log| <= t < |j.log| && j.log[t] == Attempted(cfg, s, ProcOf(s, p), script).work[x].key
      && t in j.lost && t !in j.done
  {
    hide Inv, OwnName, Ready, RunFrom;
    var pr := ProcOf(s, p);
    BatchReady(s, p);
    t := FromTurn(cfg, pr.root, Version(s, pr.root), Start(s.j, pr.work, {}), 0, x, script);
  }

  // ----- The journal's keys -----

  /** The keys the system ever used for two anonymous mutations are different, as they are spelled in
      the datastore; and none is spelled like a named one. */
  lemma JournalKeysDistinct(cfg: Config, run: seq<Action>, a: nat, b: nat)
    requires Legal(cfg, INIT, run)
    requires a < b < |End(cfg, INIT, run).j.log|
    ensures var log := End(cfg, INIT, run).j.log;
      Render(log[a]) == Render(log[b]) ==> log[a] == log[b] && log[a].Named?
  {
    hide Legal, End, Render;
    InitInv();
    RunInv(cfg, INIT, run);
    RenderInjective(End(cfg, INIT, run).j.log[a], End(cfg, INIT, run).j.log[b]);
  }

  /** Whenever a processor of a running system commits, its transaction has the stated effect. */
  lemma EveryCommit(cfg: Config, run: seq<Action>, p: nat, script: seq<Outcome>)
    requires Legal(cfg, INIT, run) && ProcOf(End(cfg, INIT, run), p).Loaded?
    ensures var s := End(cfg, INIT, run);
      var pr := ProcOf(s, p);
      var f := Attempted(cfg, s, pr, script);
      && (forall k: MutKey | k.Anon? || !IsNamed(k, |f.work|, script) ::
            EffectAt(cfg, pr.root, Version(s, pr.root), s.j, f, |f.work|, script, k))
      && (forall k: MutKey | k.Named? :: NameAt(cfg, pr.root, s.j, f, |f.work|, script, k))
      && f.toDel == Leftover(pr.root, f.work, |f.work|, script)
      && pr.work <= f.work
      && Aligned(cfg, pr.root, Version(s, pr.root), |pr.work|, f.work, |f.work|, script)
      && (forall task :: task in f.shards <==> IsWoken(cfg, pr.root, Version(s, pr.root), |f.work|, script, task))
      && forall t :: t in f.j.done <==> t in s.j.done || HasRun(f.work, |f.work|, script, t)
  {
    hide Aligned, At, EffectAt, End, HasRun, Inv, IsNamed, IsWoken, Later, Leftover, Legal, NameAt, ProcOf, Ready,
         RunFrom, Start, Version;
    var s := End(cfg, INIT, run);
    var pr := ProcOf(s, p);
    InitInv();
    RunInv(cfg, INIT, run);
    BatchReady(s, p);
    StartJournal(s.j, pr.work);
    CommitEffect(cfg, pr.root, Version(s, pr.root), Start(s.j, pr.work, {}), script);
  }
}
