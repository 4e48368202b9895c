/** Stored mutations, and the book-keeping the claims about them are stated with
    (tumble/model_mutation.go:110-229, tumble/tumble.go:117-148). */
module TumbleStore {

  import opened Text
  import opened TumbleKeys
  import opened TumbleShards

  /** A mutation as its implementer hands it over: the key its Root method returns, and what a
      DelayedMutation adds. `tag` tells apart mutations with the same contents; no step reads it. */
  datatype Mutation = Mutation(tag: nat, root: Path, after: Option<int>, high: bool)

  type ShardCount = n: uint64 | n >= 1 witness 1

  /** `hash` stands for the first eight bytes of SHA-1, `slot` for mkTimestamp. */
  datatype Config = Config(numShards: ShardCount, delayed: bool, hash: Path -> int64, slot: int -> int)

  /** realMutation. */
  datatype Record = Record(target: Path, expandedShard: int64, processAfter: int, mutation: Mutation)

  datatype TaskShard = TaskShard(shard: uint64, time: int)

  function NewRecord(cfg: Config, m: Mutation, now: int): Record {
    var postponed := cfg.delayed && m.after.Some? && (m.high || m.after.value > now);
    Record(Group(m.root), cfg.hash(Group(m.root)), if postponed then m.after.value else now, m)
  }

  function ShardOf(cfg: Config, r: Record): TaskShard {
    TaskShard(Shard(cfg.numShards, r.expandedShard), cfg.slot(r.processAfter))
  }

  /** The store, and its history. Mutation number t was written under key `log[t]`; `done` are the
      mutations whose RollForward was committed; `cancelled`, `overwritten` and `lost` are the ones
      taken out of the store by name, by a later mutation of the same name, and by the processor
      without having run. */
  datatype Journal = Journal(
    store: map<MutKey, Record>,
    log: seq<MutKey>,
    done: set<nat>,
    cancelled: set<nat>,
    overwritten: set<nat>,
    lost: set<nat>)
  {
    function Tag(k: MutKey): nat
      requires k in store
    {
      store[k].mutation.tag
    }
  }

  const EMPTY := Journal(map[], [], {}, {}, {}, {})

  // ----- Events -----

  function Ran(j: Journal, tag: nat): Journal {
    j.(done := j.done + {tag})
  }

  function Write(cfg: Config, j: Journal, k: MutKey, m: Mutation, now: int): Journal {
    j.(store := j.store[k := NewRecord(cfg, m.(tag := |j.log|), now)],
       log := j.log + [k],
       overwritten := if k in j.store then j.overwritten + {j.Tag(k)} else j.overwritten)
  }

  function Cancel(j: Journal, k: MutKey): Journal {
    if k !in j.store then j
    else j.(store := j.store - {k}, cancelled := j.cancelled + {j.Tag(k)})
  }

  /** The processor's deletes do not look at what is stored. */
  function Remove(j: Journal, k: MutKey): Journal {
    if k !in j.store then j
    else j.(store := j.store - {k}, lost := if j.Tag(k) in j.done then j.lost else j.lost + {j.Tag(k)})
  }

  // ----- Named mutations -----

  datatype NamedOp =
    | PutNamed(parent: Path, name: string, mutation: Mutation)
    | CancelNamed(parent: Path, name: string)
  {
    function Key(): MutKey {
      Named(parent, name)
    }
  }

  function ApplyNamed(cfg: Config, j: Journal, ops: seq<NamedOp>, now: int): Journal {
    if ops == [] then j
    else
      var rest := ApplyNamed(cfg, j, ops[..|ops| - 1], now);
      match ops[|ops| - 1]
      case PutNamed(parent, name, m) => Write(cfg, rest, Named(parent, name), m, now)
      case CancelNamed(parent, name) => Cancel(rest, Named(parent, name))
  }

  predicate Puts(ops: seq<NamedOp>, k: MutKey) {
    exists op | op in ops :: op.PutNamed? && op.Key() == k
  }

  // ----- Anonymous mutations -----

  /** putMutations, for the first n of the mutations. */
  function PutMutations(cfg: Config, j: Journal, parent: Path, version: nat, round: nat, ms: seq<Mutation>,
                        now: int, n: nat): Journal
    requires n <= |ms|
  {
    if n == 0 then j
    else Write(cfg, PutMutations(cfg, j, parent, version, round, ms, now, n - 1),
               Anon(parent, version, round, n - 1), ms[n - 1], now)
  }

  /** The record the mutation at position x is stored as. */
  function Stored(cfg: Config, j: Journal, ms: seq<Mutation>, now: int, x: nat): Record
    requires x < |ms|
  {
    NewRecord(cfg, ms[x].(tag := |j.log| + x), now)
  }

  // ----- Invariants -----

  /** Every mutation ever written is accounted for, and nothing else is stored. */
  ghost predicate Sound(j: Journal) {
    && (forall k | k in j.store :: j.Tag(k) < |j.log| && j.log[j.Tag(k)] == k && j.Tag(k) !in j.lost)
    && (forall t: nat | t < |j.log| :: Accounted(j, t))
    && (forall t | t in j.cancelled + j.overwritten :: t < |j.log| && j.log[t].Named?)
    && (forall t | t in j.lost :: t < |j.log|)
    && (forall t | t in j.done :: t < |j.log|)
  }

  ghost predicate Accounted(j: Journal, t: nat)
    requires t < |j.log|
  {
    || t in j.done + j.cancelled + j.overwritten + j.lost
    || (j.log[t] in j.store && j.Tag(j.log[t]) == t)
  }

  /** Anonymous keys are used once. */
  ghost predicate NoReuse(log: seq<MutKey>) {
    forall s: nat, t: nat | s < t < |log| && log[s] == log[t] :: log[s].Named?
  }

  /** The anonymous keys of this transaction are from earlier rounds. */
  ghost predicate RoundsBefore(log: seq<MutKey>, parent: Path, version: nat, round: nat) {
    forall k | k in log && k.Anon? && k.parent == parent && k.version == version :: k.round < round
  }

  /** What every event leaves: an older history is a part of the newer one, and key k lost nothing. */
  ghost predicate Later(j: Journal, j': Journal) {
    && j.log <= j'.log
    && j.done <= j'.done
    && j.lost <= j'.lost
  }

  ghost predicate NothingLostAt(j: Journal, j': Journal, k: MutKey) {
    forall t | t in j'.lost && t !in j.lost :: t < |j'.log| && j'.log[t] != k
  }

  /** What is stored at k is what was stored there. */
  ghost predicate NotRewritten(j: Journal, j': Journal, k: MutKey) {
    k in j'.store ==> k in j.store && j'.store[k] == j.store[k]
  }

  // ----- The events keep them -----

  lemma RanSound(j: Journal, tag: nat)
    requires Sound(j) && tag < |j.log|
    ensures Sound(Ran(j, tag))
  {
    forall t: nat | t < |j.log| ensures Accounted(Ran(j, tag), t) {
      assert Accounted(j, t);
    }
  }

  lemma WriteSound(cfg: Config, j: Journal, k: MutKey, m: Mutation, now: int)
    requires Sound(j)
    requires k.Anon? ==> k !in j.log
    ensures Sound(Write(cfg, j, k, m, now))
  {
    var j' := Write(cfg, j, k, m, now);
    assert k.Anon? ==> k !in j.store;
    forall t: nat | t < |j'.log| ensures Accounted(j', t) {
      assert t < |j.log| ==> Accounted(j, t) && j'.log[t] == j.log[t];
    }
  }

  lemma CancelSound(j: Journal, k: MutKey)
    requires Sound(j) && k.Named?
    ensures Sound(Cancel(j, k))
  {
    forall t: nat | t < |j.log| ensures Accounted(Cancel(j, k), t) {
      assert Accounted(j, t);
    }
  }

  lemma RemoveSound(j: Journal, k: MutKey)
    requires Sound(j)
    ensures Sound(Remove(j, k))
  {
    forall t: nat | t < |j.log| ensures Accounted(Remove(j, k), t) {
      assert Accounted(j, t);
    }
  }

  lemma {:induction false} ApplyNamedSound(cfg: Config, j: Journal, ops: seq<NamedOp>, now: int)
    requires Sound(j)
    ensures Sound(ApplyNamed(cfg, j, ops, now))
    ensures Later(j, ApplyNamed(cfg, j, ops, now))
    ensures ApplyNamed(cfg, j, ops, now).lost == j.lost && ApplyNamed(cfg, j, ops, now).done == j.done
    ensures forall k | k in ApplyNamed(cfg, j, ops, now).log[|j.log|..] :: k.Named?
  {
    if ops != [] {
      var rest := ApplyNamed(cfg, j, ops[..|ops| - 1], now);
      ApplyNamedSound(cfg, j, ops[..|ops| - 1], now);
      var op := ops[|ops| - 1];
      if op.PutNamed? {
        WriteSound(cfg, rest, op.Key(), op.mutation, now);
        assert (rest.log + [op.Key()])[|j.log|..] == rest.log[|j.log|..] + [op.Key()];
      } else {
        CancelSound(rest, op.Key());
      }
    }
  }

  lemma {:induction false} ApplyNamedAt(cfg: Config, j: Journal, ops: seq<NamedOp>, now: int, k: MutKey)
    requires !Puts(ops, k)
    ensures NotRewritten(j, ApplyNamed(cfg, j, ops, now), k)
  {
    if ops != [] {
      var rest := ops[..|ops| - 1];
      assert ops[|ops| - 1] in ops && forall op | op in rest :: op in ops;
      ApplyNamedAt(cfg, j, rest, now, k);
    }
  }

  /** Journalling puts each mutation under a key of its own and touches nothing else. */
  ghost predicate Journalled(cfg: Config, j: Journal, j': Journal, parent: Path, version: nat, round: nat,
                             ms: seq<Mutation>, now: int, n: nat)
    requires n <= |ms|
  {
    && |j'.log| == |j.log| + n && j.log <= j'.log
    && (forall x: nat | x < n :: j'.log[|j.log| + x] == Anon(parent, version, round, x))
    && (forall x: nat | x < n :: MapsTo(j'.store, Anon(parent, version, round, x), Stored(cfg, j, ms, now, x)))
    && (forall k | !IsNew(k, parent, version, round, n) :: SameAt(j.store, j'.store, k))
    && j'.done == j.done && j'.lost == j.lost
  }

  predicate IsNew(k: MutKey, parent: Path, version: nat, round: nat, n: nat) {
    k.Anon? && k.parent == parent && k.version == version && k.round == round && k.index < n
  }

  predicate MapsTo(m: map<MutKey, Record>, k: MutKey, r: Record) {
    k in m && m[k] == r
  }

  predicate SameAt(m: map<MutKey, Record>, m': map<MutKey, Record>, k: MutKey) {
    (k in m' <==> k in m) && (k in m ==> m'[k] == m[k])
  }

  lemma {:induction false} PutMutationsEffect(cfg: Config, j: Journal, parent: Path, version: nat, round: nat,
                                              ms: seq<Mutation>, now: int, n: nat)
    requires n <= |ms|
    ensures Journalled(cfg, j, PutMutations(cfg, j, parent, version, round, ms, now, n), parent, version, round,
                       ms, now, n)
  {
    if n > 0 {
      PutMutationsEffect(cfg, j, parent, version, round, ms, now, n - 1);
      OneMore(cfg, j, PutMutations(cfg, j, parent, version, round, ms, now, n - 1), parent, version, round, ms, now, n);
    }
  }

  lemma OneMore(cfg: Config, j: Journal, before: Journal, parent: Path, version: nat, round: nat,
                ms: seq<Mutation>, now: int, n: nat)
    requires 0 < n <= |ms|
    requires Journalled(cfg, j, before, parent, version, round, ms, now, n - 1)
    ensures Journalled(cfg, j, Write(cfg, before, Anon(parent, version, round, n - 1), ms[n - 1], now),
                       parent, version, round, ms, now, n)
  {
    hide NewRecord;
    var key := Anon(parent, version, round, n - 1);
    var j' := Write(cfg, before, key, ms[n - 1], now);
    assert j'.log == before.log + [key];
    forall x: nat | x < n
      ensures j'.log[|j.log| + x] == Anon(parent, version, round, x)
      ensures MapsTo(j'.store, Anon(parent, version, round, x), Stored(cfg, j, ms, now, x))
    {
      if x < n - 1 {
        assert MapsTo(before.store, Anon(parent, version, round, x), Stored(cfg, j, ms, now, x));
      }
    }
    forall k | !IsNew(k, parent, version, round, n) ensures SameAt(j.store, j'.store, k) {
      assert SameAt(j.store, before.store, k);
    }
  }

  lemma {:induction false} PutMutationsSound(cfg: Config, j: Journal, parent: Path, version: nat, round: nat,
                                             ms: seq<Mutation>, now: int, n: nat)
    requires n <= |ms|
    requires Sound(j) && NoReuse(j.log) && RoundsBefore(j.log, parent, version, round)
    ensures Sound(PutMutations(cfg, j, parent, version, round, ms, now, n))
    ensures NoReuse(PutMutations(cfg, j, parent, version, round, ms, now, n).log)
  {
    hide Sound, Stored, Write;
    if n > 0 {
      PutMutationsSound(cfg, j, parent, version, round, ms, now, n - 1);
      PutMutationsEffect(cfg, j, parent, version, round, ms, now, n - 1);
      var before := PutMutations(cfg, j, parent, version, round, ms, now, n - 1);
      NextIsFresh(cfg, j, before, parent, version, round, ms, now, n - 1);
      WriteSound(cfg, before, Anon(parent, version, round, n - 1), ms[n - 1], now);
      WriteNoReuse(cfg, before, Anon(parent, version, round, n - 1), ms[n - 1], now);
    }
  }

  lemma NextIsFresh(cfg: Config, j: Journal, before: Journal, parent: Path, version: nat, round: nat,
                    ms: seq<Mutation>, now: int, n: nat)
    requires n < |ms|
    requires RoundsBefore(j.log, parent, version, round)
    requires Journalled(cfg, j, before, parent, version, round, ms, now, n)
    ensures Anon(parent, version, round, n) !in before.log
  {
    var key := Anon(parent, version, round, n);
    forall t: nat | t < |before.log| ensures before.log[t] != key {
      if t < |j.log| {
        assert before.log[t] == j.log[t] && j.log[t] in j.log;
      } else {
        assert before.log[|j.log| + (t - |j.log|)] == Anon(parent, version, round, t - |j.log|);
      }
    }
  }

  lemma WriteNoReuse(cfg: Config, j: Journal, k: MutKey, m: Mutation, now: int)
    requires NoReuse(j.log)
    requires k.Anon? ==> k !in j.log
    ensures NoReuse(Write(cfg, j, k, m, now).log)
  {
    var log := j.log + [k];
    forall s: nat, t: nat | s < t < |log| && log[s] == log[t] ensures log[s].Named? {
      assert log[s] == j.log[s] && log[s] in j.log;
      assert t < |j.log| ==> log[t] == j.log[t];
    }
  }
}
