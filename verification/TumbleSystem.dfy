/** Tumble as a whole: transactions that journal mutations, and any number of processors that load,
    run, commit and delete them; every step may come between any two others, and a processor may
    crash anywhere (tumble/process.go:356-458, tumble/tumble.go:27-148). */
module TumbleSystem {

  import opened TumbleKeys
  import opened TumbleStore
  import opened TumbleBatch

  /** A processor between two steps: it has loaded some mutations of a root, or has committed a batch
      and still has to delete what could not be deleted in the transaction. */
  datatype Proc = Idle | Loaded(root: Path, work: seq<Work>) | Deleting(keys: set<MutKey>)

  /** `versions` are the entity-group versions. */
  datatype State = State(j: Journal, versions: map<Path, nat>, procs: map<nat, Proc>)

  const INIT := State(EMPTY, map[], map[])

  function Version(s: State, root: Path): nat {
    if root in s.versions then s.versions[root] else 0
  }

  function ProcOf(s: State, p: nat): Proc {
    if p in s.procs then s.procs[p] else Idle
  }

  /** Transact is a transaction of the application, on any key of a group: RunMutation, RunUnbuffered,
      and with nothing emitted PutNamedMutations and CancelNamedMutations. An aborted attempt of a
      processor changes nothing and needs no step. */
  datatype Action =
    | Transact(parent: Path, named: seq<NamedOp>, muts: seq<Mutation>, now: int, bump: nat)
    | Begin(p: nat, target: Path)
    | Fetch(p: nat, key: MutKey)
    | Commit(p: nat, script: seq<Outcome>, bump: nat)
    | Delete(p: nat, key: MutKey)
    | Stop(p: nat)

  predicate Enabled(s: State, a: Action) {
    match a
    case Transact(_, _, _, _, bump) => bump >= 1
    case Begin(p, target) => ProcOf(s, p).Idle? && IsRoot(target)
    case Fetch(p, key) => ProcOf(s, p).Loaded? && key in s.j.store && s.j.store[key].target == ProcOf(s, p).root
    case Commit(p, script, bump) => ProcOf(s, p).Loaded? && bump >= 1
    case Delete(p, key) => ProcOf(s, p).Deleting? && key in ProcOf(s, p).keys
    case Stop(p) => true
  }

  function Attempted(cfg: Config, s: State, pr: Proc, script: seq<Outcome>): Batch
    requires pr.Loaded?
  {
    RunFrom(cfg, pr.root, Version(s, pr.root), Start(s.j, pr.work, {}), 0, script)
  }

  function Transacted(cfg: Config, s: State, parent: Path, named: seq<NamedOp>, muts: seq<Mutation>,
                      now: int): Journal {
    PutMutations(cfg, ApplyNamed(cfg, s.j, named, now), parent, Version(s, Group(parent)), 0, muts, now, |muts|)
  }

  function Next(cfg: Config, s: State, a: Action): State
    requires Enabled(s, a)
  {
    match a
    case Transact(parent, named, muts, now, bump) =>
      s.(j := Transacted(cfg, s, parent, named, muts, now),
         versions := s.versions[Group(parent) := Version(s, Group(parent)) + bump])
    case Begin(p, target) => s.(procs := s.procs[p := Loaded(target, [])])
    case Fetch(p, key) =>
      var pr := ProcOf(s, p);
      s.(procs := s.procs[p := pr.(work := pr.work + [Work(s.j.store[key].mutation, key)])])
    case Commit(p, script, bump) =>
      var pr := ProcOf(s, p);
      var f := Attempted(cfg, s, pr, script);
      State(f.j, s.versions[pr.root := Version(s, pr.root) + bump], s.procs[p := Deleting(set k | k in f.toDel)])
    case Delete(p, key) =>
      s.(j := Remove(s.j, key), procs := s.procs[p := Deleting(ProcOf(s, p).keys - {key})])
    case Stop(p) => s.(procs := s.procs[p := Idle])
  }

  predicate Legal(cfg: Config, s: State, run: seq<Action>)
    decreases |run|
  {
    run == [] || (Enabled(s, run[0]) && Legal(cfg, Next(cfg, s, run[0]), run[1..]))
  }

  function End(cfg: Config, s: State, run: seq<Action>): State
    requires Legal(cfg, s, run)
    decreases |run|
  {
    if run == [] then s else End(cfg, Next(cfg, s, run[0]), run[1..])
  }

  // ----- The invariant -----

  /** Versions in use are older than their group's; a processor only knows keys that were written. */
  ghost predicate Inv(s: State) {
    && Sound(s.j) && NoReuse(s.j.log)
    && (forall k | k in s.j.log && k.Anon? :: k.version < Version(s, Group(k.parent)))
    && (forall p | p in s.procs :: Known(s.j.log, s.procs[p]))
  }

  ghost predicate Known(log: seq<MutKey>, pr: Proc) {
    && (pr.Loaded? ==> IsRoot(pr.root) && forall w | w in pr.work :: Logged(log, w))
    && (pr.Deleting? ==> forall k | k in pr.keys :: k in log)
  }

  lemma KnownLater(log: seq<MutKey>, log': seq<MutKey>, pr: Proc)
    requires log <= log' && Known(log, pr)
    ensures Known(log', pr)
  {
  }

  /** A processor can always run its batch: none of the keys its transaction will use is taken. */
  lemma BatchReady(s: State, p: nat)
    requires Inv(s) && ProcOf(s, p).Loaded?
    ensures Ready(Start(s.j, ProcOf(s, p).work, {}), ProcOf(s, p).root, Version(s, ProcOf(s, p).root), 0)
  {
    var pr := ProcOf(s, p);
    assert Known(s.j.log, s.procs[p]);
    GroupRoundsBefore(s, pr.root);
  }

  lemma GroupRoundsBefore(s: State, parent: Path)
    requires Inv(s)
    ensures RoundsBefore(s.j.log, parent, Version(s, Group(parent)), 0)
    ensures IsRoot(parent) ==> Group(parent) == parent
  {
    forall k | k in s.j.log && k.Anon? && k.parent == parent ensures k.version != Version(s, Group(parent)) {
    }
  }

  /** Journals after a step: sound, later, and new anonymous keys have the version of their group. */
  ghost predicate Grown(j: Journal, j': Journal, group: Path, version: nat) {
    && Sound(j') && NoReuse(j'.log) && Later(j, j')
    && forall k | k in j'.log && k !in j.log && k.Anon? :: Group(k.parent) == group && k.version == version
  }

  lemma TransactGrows(cfg: Config, s: State, parent: Path, named: seq<NamedOp>, muts: seq<Mutation>, now: int)
    requires Inv(s)
    ensures Grown(s.j, Transacted(cfg, s, parent, named, muts, now), Group(parent), Version(s, Group(parent)))
    ensures Transacted(cfg, s, parent, named, muts, now).lost == s.j.lost
  {
    hide ApplyNamed, Group, IsRoot, Known, MapsTo, NoReuse, PutMutations, RoundsBefore, SameAt, Sound, Stored,
         Version;
    var version := Version(s, Group(parent));
    var applied := ApplyNamed(cfg, s.j, named, now);
    ApplyNamedSound(cfg, s.j, named, now);
    GroupRoundsBefore(s, parent);
    NamedExtends(s.j.log, applied.log, parent, version, 0);
    OnlyNamed(s.j.log, applied.log);
    PutMutationsEffect(cfg, applied, parent, version, 0, muts, now, |muts|);
    PutMutationsSound(cfg, applied, parent, version, 0, muts, now, |muts|);
    LogAfter(cfg, applied, Transacted(cfg, s, parent, named, muts, now), parent, version, 0, muts, now, |muts|);
  }

  lemma CommitGrows(cfg: Config, s: State, p: nat, script: seq<Outcome>)
    requires Inv(s) && ProcOf(s, p).Loaded?
    ensures var pr := ProcOf(s, p);
      var f := Attempted(cfg, s, pr, script);
      && IsRoot(pr.root) && Grown(s.j, f.j, pr.root, Version(s, pr.root))
      && Known(f.j.log, Deleting(set k | k in f.toDel))
  {
    hide Group, Inv, IsRoot, Later, Logged, NoReuse, ProcOf, RoundsBefore, RunFrom, Sound, Version;
    var pr := ProcOf(s, p);
    BatchReady(s, p);
    RunFromReady(cfg, pr.root, Version(s, pr.root), Start(s.j, pr.work, {}), 0, script);
    LoadedRoot(s, p);
    RootIsGroup(pr.root);
  }

  lemma RootIsGroup(root: Path)
    requires IsRoot(root)
    ensures Group(root) == root
  {
  }

  lemma LoadedRoot(s: State, p: nat)
    requires Inv(s) && ProcOf(s, p).Loaded?
    ensures IsRoot(ProcOf(s, p).root)
  {
    assert Known(s.j.log, s.procs[p]);
  }

  lemma GrownInv(s: State, s': State, group: Path, bump: nat)
    requires Inv(s) && bump >= 1 && IsRoot(group)
    requires Grown(s.j, s'.j, group, Version(s, group))
    requires s'.versions == s.versions[group := Version(s, group) + bump]
    requires forall p | p in s'.procs :: (p in s.procs && s'.procs[p] == s.procs[p]) || Known(s'.j.log, s'.procs[p])
    ensures Inv(s')
  {
    hide Sound, NoReuse, Known;
    forall k | k in s'.j.log && k.Anon? ensures k.version < Version(s', Group(k.parent)) {
    }
    forall p | p in s'.procs ensures Known(s'.j.log, s'.procs[p]) {
      if p in s.procs && s'.procs[p] == s.procs[p] {
        KnownLater(s.j.log, s'.j.log, s.procs[p]);
      }
    }
  }

  lemma StepInv(cfg: Config, s: State, a: Action)
    requires Inv(s) && Enabled(s, a)
    ensures Inv(Next(cfg, s, a)) && Later(s.j, Next(cfg, s, a).j)
  {
    hide Attempted, Group, Logged, NoReuse, Remove, Sound, Transacted;
    match a {
      case Transact(parent, named, muts, now, bump) =>
        TransactGrows(cfg, s, parent, named, muts, now);
        GrownInv(s, Next(cfg, s, a), Group(parent), bump);
      case Commit(p, script, bump) =>
        CommitGrows(cfg, s, p, script);
        GrownInv(s, Next(cfg, s, a), ProcOf(s, p).root, bump);
      case Delete(p, key) =>
        RemoveKeeps(s.j, key);
      case _ =>
        StoredLogged(s.j);
    }
  }

  lemma StoredLogged(j: Journal)
    requires Sound(j)
    ensures forall k | k in j.store :: Logged(j.log, Work(j.store[k].mutation, k))
  {
  }

  lemma {:induction false} RunInv(cfg: Config, s: State, run: seq<Action>)
    requires Inv(s) && Legal(cfg, s, run)
    ensures Inv(End(cfg, s, run)) && Later(s.j, End(cfg, s, run).j)
    decreases |run|
  {
    hide Enabled, Inv, Next;
    if run != [] {
      StepInv(cfg, s, run[0]);
      RunInv(cfg, Next(cfg, s, run[0]), run[1..]);
    }
  }

  lemma InitInv()
    ensures Inv(INIT)
  {
  }
}
