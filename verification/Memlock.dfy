/** A lease lock over one memcache entry (appengine/memlock/memlock.go:73-180): every client runs
    TryWithLock, and the Add, Get and CompareAndSwap calls of all clients interleave freely with the
    clock, with failing calls and lost replies, and with eviction. */
module Memlock {
  import opened Text

  type Client = nat

  const LOCK_TIME: nat := 16
  const DELAY: nat := 1

  /** A memcache entry; every write gives it a new token, which CompareAndSwap checks. */
  datatype Item = Item(value: string, expires: int, token: nat)

  datatype Op = Refresh | Release

  /** Where a client stands. `first` marks the refresh that tries to take over an existing entry. */
  datatype Pc =
    | Start
    | Getting(op: Op, first: bool)
    | Swapping(op: Op, first: bool, item: Item)
    | Holding
    | Failed
    | Lost
    | Finished

  /** `leases` has the time until which the server last granted the entry to a client. */
  datatype State = State(
    now: int,
    cell: Option<Item>,
    nextToken: nat,
    pcs: map<Client, Pc>,
    leases: map<Client, int>)

  datatype Action =
    | Tick(d: nat)
    | Evict
    | Add(c: Client, reply: bool)
    | AddFails(c: Client)
    | Get(c: Client)
    | GetFails(c: Client)
    | Swap(c: Client, reply: bool)
    | SwapFails(c: Client)
    | Timer(c: Client)
    | Stop(c: Client)

  // ----- Memcache -----

  predicate Live(s: State) {
    s.cell.Some? && s.now < s.cell.value.expires
  }

  function Write(s: State, value: string, expiration: nat): State {
    s.(cell := Some(Item(value, s.now + expiration, s.nextToken)), nextToken := s.nextToken + 1)
  }

  // ----- checkAnd -----

  /** What a client does with the result of checkAnd. */
  function Checked(op: Op, first: bool, ok: bool): Pc {
    if op.Release? then Finished
    else if ok then Holding
    else if first then Failed
    else Lost
  }

  /** checkAnd after a successful Get: someone else's entry is a failure, releasing an entry that is
      released already is done, and everything else goes on to CompareAndSwap. */
  function AfterGet(op: Op, first: bool, item: Item, id: string): Pc {
    if item.value != "" && item.value != id then Checked(op, first, false)
    else if op.Release? && item.value == "" then Checked(op, first, true)
    else Swapping(op, first, item)
  }

  // ----- Steps -----

  predicate Enabled(s: State, a: Action) {
    match a
    case Tick(d) => true
    case Evict => Live(s)
    case Add(c, reply) => c in s.pcs && s.pcs[c].Start? && !Live(s)
    case AddFails(c) => c in s.pcs && s.pcs[c].Start?
    case Get(c) => c in s.pcs && s.pcs[c].Getting? && Live(s)
    case GetFails(c) => c in s.pcs && s.pcs[c].Getting?
    case Swap(c, reply) => c in s.pcs && s.pcs[c].Swapping? && Live(s) && s.cell.value.token == s.pcs[c].item.token
    case SwapFails(c) => c in s.pcs && s.pcs[c].Swapping?
    case Timer(c) => c in s.pcs && s.pcs[c].Holding?
    case Stop(c) => c in s.pcs && s.pcs[c].Holding?
  }

  /** One atomic step. Without a reply the server has acted but the client sees an error. */
  function Next(s: State, a: Action, ids: map<Client, string>): State
    requires Enabled(s, a) && s.pcs.Keys <= ids.Keys
  {
    match a
    case Tick(d) => s.(now := s.now + d)
    case Evict => s.(cell := None)
    case Add(c, reply) =>
      Write(s, ids[c], LOCK_TIME).(
        pcs := s.pcs[c := if reply then Holding else Getting(Refresh, true)],
        leases := s.leases[c := s.now + LOCK_TIME])
    case AddFails(c) => s.(pcs := s.pcs[c := Getting(Refresh, true)])
    case Get(c) => s.(pcs := s.pcs[c := AfterGet(s.pcs[c].op, s.pcs[c].first, s.cell.value, ids[c])])
    case GetFails(c) => s.(pcs := s.pcs[c := Checked(s.pcs[c].op, s.pcs[c].first, false)])
    case Swap(c, reply) =>
      var pc := s.pcs[c];
      if pc.op.Refresh? then
        Write(s, ids[c], LOCK_TIME).(
          pcs := s.pcs[c := Checked(Refresh, pc.first, reply)],
          leases := s.leases[c := s.now + LOCK_TIME])
      else
        Write(s, "", DELAY).(
          pcs := s.pcs[c := Checked(Release, pc.first, reply)],
          leases := s.leases - {c})
    case SwapFails(c) => s.(pcs := s.pcs[c := Checked(s.pcs[c].op, s.pcs[c].first, false)])
    case Timer(c) => s.(pcs := s.pcs[c := Getting(Refresh, false)])
    case Stop(c) => s.(pcs := s.pcs[c := Getting(Release, false)])
  }

  /** Any clients about to lock, and any entry left over in memcache. */
  predicate Init(s: State, ids: map<Client, string>) {
    && s.pcs.Keys == ids.Keys
    && (forall c | c in ids :: s.pcs[c] == Start && ids[c] != "")
    && s.leases == map[]
    && (s.cell.Some? ==> s.cell.value.token < s.nextToken)
  }

  // ----- Runs -----

  /** The states of a run, or None if some step is not possible. */
  ghost predicate Run(states: seq<State>, acts: seq<Action>, ids: map<Client, string>) {
    && |states| == |acts| + 1
    && Init(states[0], ids)
    && forall i | 0 <= i < |acts| ::
      states[i].pcs.Keys <= ids.Keys && Enabled(states[i], acts[i]) && states[i + 1] == Next(states[i], acts[i], ids)
  }

  /** The user's function may be running: it is entered by Holding, goes on while the lock is refreshed,
      and ends, at the latest, when it sees that its context was cancelled, which is after the lock was
      lost or while it is being released. */
  predicate MayRun(pc: Pc) {
    match pc
    case Holding => true
    case Getting(_, first) => !first
    case Swapping(_, first, _) => !first
    case Lost => true
    case _ => false
  }

  // ----- What every step keeps -----

  /** An item a client is about to swap was free or its own, and while its token is current the entry
      is still that item. */
  ghost predicate Inv(s: State, ids: map<Client, string>) {
    && s.pcs.Keys == ids.Keys
    && (forall c | c in ids :: ids[c] != "")
    && (s.cell.Some? ==> s.cell.value.token < s.nextToken)
    && (forall c | c in s.pcs && s.pcs[c].Swapping? ::
          var item := s.pcs[c].item;
          && item.token < s.nextToken
          && (item.value == "" || item.value == ids[c])
          && (s.cell.Some? && s.cell.value.token == item.token ==> s.cell.value == item))
  }

  lemma WriteKeepsInv(s: State, a: Action, ids: map<Client, string>)
    requires Inv(s, ids) && Enabled(s, a) && (a.Add? || a.Swap?)
    ensures Inv(Next(s, a, ids), ids)
  {
    var t := Next(s, a, ids);
    assert t.cell.value.token == s.nextToken;
    forall c | c in t.pcs && t.pcs[c].Swapping? ensures c in s.pcs && t.pcs[c] == s.pcs[c] {
    }
  }

  lemma ReadKeepsInv(s: State, a: Action, ids: map<Client, string>)
    requires Inv(s, ids) && Enabled(s, a) && !a.Add? && !a.Swap?
    ensures Inv(Next(s, a, ids), ids)
  {
  }

  lemma NextKeepsInv(s: State, a: Action, ids: map<Client, string>)
    requires Inv(s, ids) && Enabled(s, a)
    ensures Inv(Next(s, a, ids), ids)
  {
    hide *;
    if a.Add? || a.Swap? {
      WriteKeepsInv(s, a, ids);
    } else {
      ReadKeepsInv(s, a, ids);
    }
  }

  /** A client whose function may be running has been granted a lease and has not released it. */
  ghost predicate Granted(s: State) {
    forall c | c in s.pcs && MayRun(s.pcs[c]) :: c in s.leases
  }

  lemma NextKeepsGranted(s: State, a: Action, ids: map<Client, string>)
    requires Granted(s) && Enabled(s, a) && s.pcs.Keys <= ids.Keys
    ensures Granted(Next(s, a, ids))
  {
  }

  /** A lease that has not run out belongs to the client named by the entry, and lasts as long as it;
      what that client is about to swap is the entry. */
  ghost predicate Leased(s: State, ids: map<Client, string>) {
    forall c | c in s.leases && s.now < s.leases[c] ::
      && c in ids && c in s.pcs
      && s.cell.Some? && s.cell.value.value == ids[c] && s.cell.value.expires == s.leases[c]
      && (s.pcs[c].Swapping? ==> s.pcs[c].item == s.cell.value)
  }

  ghost predicate DistinctIds(ids: map<Client, string>) {
    forall c, d | c in ids && d in ids && c != d :: ids[c] != ids[d]
  }

  lemma NextKeepsLeased(s: State, a: Action, ids: map<Client, string>)
    requires Inv(s, ids) && Leased(s, ids) && DistinctIds(ids) && Enabled(s, a) && !a.Evict?
    ensures Leased(Next(s, a, ids), ids)
  {
    var t := Next(s, a, ids);
    forall c | c in t.leases && t.now < t.leases[c]
      ensures && c in ids && c in t.pcs
              && t.cell.Some? && t.cell.value.value == ids[c] && t.cell.value.expires == t.leases[c]
              && (t.pcs[c].Swapping? ==> t.pcs[c].item == t.cell.value)
    {
      if c in s.leases && s.now < s.leases[c] {
        assert s.cell.value.value == ids[c];
      }
    }
  }

  ghost predicate NoEviction(acts: seq<Action>) {
    forall i | 0 <= i < |acts| :: !acts[i].Evict?
  }

  lemma {:induction false} RunInv(states: seq<State>, acts: seq<Action>, ids: map<Client, string>, i: nat)
    requires Run(states, acts, ids) && i <= |acts|
    ensures Inv(states[i], ids)
  {
    if i > 0 {
      RunInv(states, acts, ids, i - 1);
      NextKeepsInv(states[i - 1], acts[i - 1], ids);
    }
  }

  lemma {:induction false} RunLeased(states: seq<State>, acts: seq<Action>, ids: map<Client, string>, i: nat)
    requires Run(states, acts, ids) && NoEviction(acts) && DistinctIds(ids) && i <= |acts|
    ensures Leased(states[i], ids)
  {
    if i > 0 {
      RunInv(states, acts, ids, i - 1);
      RunLeased(states, acts, ids, i - 1);
      NextKeepsLeased(states[i - 1], acts[i - 1], ids);
    }
  }

  // ----- Main results -----

  /** Whatever fails, expires or is evicted: a step only ever replaces a live entry that names a
      client if it is that client's own. */
  lemma NoOverwrite(states: seq<State>, acts: seq<Action>, ids: map<Client, string>, i: nat)
    requires Run(states, acts, ids) && i < |acts|
    requires Live(states[i]) && states[i].cell.value.value != ""
    requires states[i + 1].cell != states[i].cell && !acts[i].Evict?
    ensures acts[i].Swap? && acts[i].c in ids && ids[acts[i].c] == states[i].cell.value.value
  {
    RunInv(states, acts, ids, i);
  }

  ghost predicate InLease(s: State, c: Client) {
    c in s.leases && s.now < s.leases[c]
  }

  /** Without early eviction at most one client at a time is in a lease that has not run out. */
  lemma MutualExclusion(states: seq<State>, acts: seq<Action>, ids: map<Client, string>, i: nat, c: Client, d: Client)
    requires Run(states, acts, ids) && NoEviction(acts) && DistinctIds(ids) && i <= |acts|
    requires InLease(states[i], c) && InLease(states[i], d)
    ensures c == d
  {
    RunLeased(states, acts, ids, i);
  }

  /** While the user's function may be running, its client has been granted a lease, which it has not
      released. */
  lemma {:induction false} HoldingWasGranted(states: seq<State>, acts: seq<Action>, ids: map<Client, string>, i: nat)
    requires Run(states, acts, ids) && i <= |acts|
    ensures forall c | c in states[i].pcs && MayRun(states[i].pcs[c]) :: c in states[i].leases
  {
    hide Enabled, Next;
    if i > 0 {
      HoldingWasGranted(states, acts, ids, i - 1);
      NextKeepsGranted(states[i - 1], acts[i - 1], ids);
    }
  }

  /** It starts to run exactly when its client sees that it was granted the entry, by an Add or by the swap of a first
      look, and can run until the release is over. */
  lemma RunsFromGrant(states: seq<State>, acts: seq<Action>, ids: map<Client, string>, i: nat, c: Client)
    requires Run(states, acts, ids) && i < |acts| && c in ids
    ensures c in states[i].pcs && c in states[i + 1].pcs
    ensures var a, before, after := acts[i], states[i].pcs[c], states[i + 1].pcs[c];
      && (!MayRun(before) && MayRun(after) <==>
            || a == Add(c, true)
            || (a == Swap(c, true) && before.Swapping? && before.op.Refresh? && before.first))
      && (MayRun(before) && !MayRun(after) <==> MayRun(before) && after == Finished)
  {
    RunInv(states, acts, ids, i);
    RunReleases(states, acts, ids, i);
  }

  /** A release is never a first look. */
  ghost predicate ReleasesLater(s: State) {
    && (forall c | c in s.pcs && s.pcs[c].Getting? && s.pcs[c].op.Release? :: !s.pcs[c].first)
    && (forall c | c in s.pcs && s.pcs[c].Swapping? && s.pcs[c].op.Release? :: !s.pcs[c].first)
  }

  lemma NextKeepsReleases(s: State, a: Action, ids: map<Client, string>)
    requires ReleasesLater(s) && Enabled(s, a) && s.pcs.Keys <= ids.Keys
    ensures ReleasesLater(Next(s, a, ids))
  {
  }

  lemma {:induction false} RunReleases(states: seq<State>, acts: seq<Action>, ids: map<Client, string>, i: nat)
    requires Run(states, acts, ids) && i <= |acts|
    ensures ReleasesLater(states[i])
  {
    hide Enabled, Next;
    if i > 0 {
      RunReleases(states, acts, ids, i - 1);
      NextKeepsReleases(states[i - 1], acts[i - 1], ids);
    }
  }

  /** A client in its lease loses it only by a failing call: reading the entry leads on to a swap, and
      the swap is possible. */
  lemma HolderCanRefresh(states: seq<State>, acts: seq<Action>, ids: map<Client, string>, i: nat, c: Client)
    requires Run(states, acts, ids) && NoEviction(acts) && DistinctIds(ids) && i <= |acts|
    requires InLease(states[i], c)
    ensures Inv(states[i], ids) && Live(states[i]) && c in states[i].pcs
    ensures states[i].pcs[c].Getting? ==>
      Enabled(states[i], Get(c)) && Next(states[i], Get(c), ids).pcs[c].Swapping?
    ensures states[i].pcs[c].Swapping? ==> Enabled(states[i], Swap(c, true))
  {
    RunInv(states, acts, ids, i);
    RunLeased(states, acts, ids, i);
  }

  // ----- Taking and giving back -----

  /** A client that is granted the entry is named by it for 16 seconds, and is in its lease. */
  lemma GrantNames(states: seq<State>, acts: seq<Action>, ids: map<Client, string>, i: nat, c: Client)
    requires Run(states, acts, ids) && i < |acts|
    requires (acts[i].Add? && acts[i].c == c)
             || (acts[i].Swap? && acts[i].c == c && states[i].pcs[c].op.Refresh?)
    ensures var s, t := states[i], states[i + 1];
      && t.cell.Some? && t.cell.value.value == ids[c] != "" && t.cell.value.expires == s.now + 16
      && c in t.leases && t.leases[c] == s.now + 16 && t.now == s.now
      && c in t.pcs && (acts[i].reply ==> t.pcs[c] == Holding)
  {
    RunInv(states, acts, ids, i);
  }

  /** A client that gives the lock back leaves an entry that names nobody, for one second. */
  lemma ReleaseFrees(states: seq<State>, acts: seq<Action>, ids: map<Client, string>, i: nat, c: Client)
    requires Run(states, acts, ids) && i < |acts| && c in states[i].pcs
    requires acts[i].Swap? && acts[i].c == c && states[i].pcs[c].Swapping? && states[i].pcs[c].op.Release?
    ensures var s, t := states[i], states[i + 1];
      && t.cell.Some? && t.cell.value.value == "" && t.cell.value.expires == s.now + 1 && t.now == s.now
      && c !in t.leases && c in t.pcs && t.pcs[c] == Finished
  {
    RunInv(states, acts, ids, i);
  }

  /** While the entry names nobody, every client that looks at it to take the lock goes on to a swap, which is
      possible and makes it the holder. */
  lemma FreeCanBeTaken(states: seq<State>, acts: seq<Action>, ids: map<Client, string>, i: nat, c: Client)
    requires Run(states, acts, ids) && i <= |acts|
    requires Live(states[i]) && states[i].cell.value.value == ""
    requires c in states[i].pcs && states[i].pcs[c].Getting? && states[i].pcs[c].op.Refresh?
    ensures c in ids && states[i].pcs.Keys <= ids.Keys
    ensures Enabled(states[i], Get(c)) && c in Next(states[i], Get(c), ids).pcs
    ensures Next(states[i], Get(c), ids).pcs[c].Swapping? && Next(states[i], Get(c), ids).pcs.Keys <= ids.Keys
    ensures Enabled(Next(states[i], Get(c), ids), Swap(c, true))
    ensures var t := Next(Next(states[i], Get(c), ids), Swap(c, true), ids);
      && c in t.pcs && t.pcs[c] == Holding && c in t.leases && t.leases[c] == states[i].now + 16
      && t.cell.Some? && t.cell.value.value == ids[c] && t.cell.value.expires == states[i].now + 16
  {
    RunInv(states, acts, ids, i);
  }

  /** While it names somebody else, a client that looks at it gives up: it fails, or has lost its lock, or has
      nothing left to release; and the entry stays. */
  lemma TakenKeepsOut(states: seq<State>, acts: seq<Action>, ids: map<Client, string>, i: nat, c: Client)
    requires Run(states, acts, ids) && i < |acts| && acts[i] == Get(c)
    requires states[i].cell.Some? && states[i].cell.value.value != ""
    requires c in ids && states[i].cell.value.value != ids[c]
    ensures states[i + 1].cell == states[i].cell && c in states[i].pcs && c in states[i + 1].pcs
    ensures var before, after := states[i].pcs[c], states[i + 1].pcs[c];
      && before.Getting?
      && (before.op.Release? ==> after == Finished)
      && (before.op.Refresh? ==> after == if before.first then Failed else Lost)
  {
  }

  ghost predicate NoWrites(acts: seq<Action>, i: nat, j: nat) {
    forall k | i <= k < j && k < |acts| :: !acts[k].Add? && !acts[k].Swap?
  }

  lemma {:induction false} NotWritten(states: seq<State>, acts: seq<Action>, ids: map<Client, string>, i: nat, j: nat)
    requires Run(states, acts, ids) && i <= j <= |acts| && NoWrites(acts, i, j)
    ensures states[j].cell == states[i].cell || states[j].cell.None?
  {
    if i < j {
      NotWritten(states, acts, ids, i, j - 1);
    }
  }

  /** One second after the lock was given back, if nobody has written since, anybody can add the entry anew, and
      holds the lock then. */
  lemma ReleasedCanBeAdded(states: seq<State>, acts: seq<Action>, ids: map<Client, string>, i: nat, j: nat, c: Client,
                           d: Client)
    requires Run(states, acts, ids) && i < j <= |acts| && c in states[i].pcs
    requires acts[i].Swap? && acts[i].c == c && states[i].pcs[c].Swapping? && states[i].pcs[c].op.Release?
    requires NoWrites(acts, i + 1, j) && states[j].now >= states[i].now + 1
    requires d in states[j].pcs && states[j].pcs[d].Start?
    ensures states[j].pcs.Keys <= ids.Keys && Enabled(states[j], Add(d, true))
    ensures var t := Next(states[j], Add(d, true), ids);
      d in t.pcs && t.pcs[d] == Holding && t.cell.Some? && t.cell.value.value == ids[d]
  {
    ReleaseFrees(states, acts, ids, i, c);
    NotWritten(states, acts, ids, i + 1, j);
    RunInv(states, acts, ids, j);
  }

  /** So can it 16 seconds after the last write, whoever that was. */
  lemma ExpiredCanBeAdded(states: seq<State>, acts: seq<Action>, ids: map<Client, string>, i: nat, j: nat, d: Client)
    requires Run(states, acts, ids) && i < j <= |acts| && (acts[i].Add? || acts[i].Swap?)
    requires NoWrites(acts, i + 1, j) && states[j].now >= states[i].now + 16
    requires d in states[j].pcs && states[j].pcs[d].Start?
    ensures Enabled(states[j], Add(d, true))
  {
    NotWritten(states, acts, ids, i + 1, j);
    assert states[i + 1].cell.value.expires <= states[i].now + 16;
  }

  /** The states that a sequence of actions leads through, all of them possible. */
  ghost predicate Leads(s: State, acts: seq<Action>, ids: map<Client, string>, t: State)
    decreases |acts|
  {
    if acts == [] then s == t
    else s.pcs.Keys <= ids.Keys && Enabled(s, acts[0]) && Leads(Next(s, acts[0], ids), acts[1..], ids, t)
  }

  lemma LeadsThrough(s: State, a: Action, b: Action, c: Action, ids: map<Client, string>) returns (t: State)
    requires s.pcs.Keys <= ids.Keys && Enabled(s, a)
    requires Next(s, a, ids).pcs.Keys <= ids.Keys && Enabled(Next(s, a, ids), b)
    requires Next(Next(s, a, ids), b, ids).pcs.Keys <= ids.Keys && Enabled(Next(Next(s, a, ids), b, ids), c)
    ensures t == Next(Next(Next(s, a, ids), b, ids), c, ids) && Leads(s, [a, b, c], ids, t)
  {
    hide Enabled, Next;
    t := Next(Next(Next(s, a, ids), b, ids), c, ids);
    assert [a, b, c][1..] == [b, c] && [b, c][1..] == [c] && [c][1..] == [];
    assert Leads(Next(Next(s, a, ids), b, ids), [c], ids, t);
    assert Leads(Next(s, a, ids), [b, c], ids, t);
  }

  /** A client that starts when the entry is there but names nobody, or names it already, takes it: the Add that
      stores nothing leads to a look at the entry and to a swap. */
  lemma StarterTakesOver(states: seq<State>, acts: seq<Action>, ids: map<Client, string>, i: nat, c: Client)
    returns (t: State)
    requires Run(states, acts, ids) && i <= |acts| && Live(states[i]) && c in states[i].pcs && states[i].pcs[c].Start?
    requires c in ids && (states[i].cell.value.value == "" || states[i].cell.value.value == ids[c])
    ensures Leads(states[i], [AddFails(c), Get(c), Swap(c, true)], ids, t)
    ensures c in t.pcs && t.pcs[c] == Holding && c in t.leases && t.leases[c] == states[i].now + 16
    ensures t.cell.Some? && t.cell.value.value == ids[c] && t.cell.value.expires == states[i].now + 16
  {
    RunInv(states, acts, ids, i);
    t := LeadsThrough(states[i], AddFails(c), Get(c), Swap(c, true), ids);
  }

  /** A holder that is still named refreshes its lease by the timer, a look at the entry and a swap. */
  lemma HolderRefreshes(states: seq<State>, acts: seq<Action>, ids: map<Client, string>, i: nat, c: Client)
    returns (t: State)
    requires Run(states, acts, ids) && i <= |acts| && Live(states[i]) && c in states[i].pcs && states[i].pcs[c].Holding?
    requires c in ids && states[i].cell.value.value == ids[c]
    ensures Leads(states[i], [Timer(c), Get(c), Swap(c, true)], ids, t)
    ensures c in t.pcs && t.pcs[c] == Holding && c in t.leases && t.leases[c] == states[i].now + 16
    ensures t.cell.Some? && t.cell.value.value == ids[c] && t.cell.value.expires == states[i].now + 16
  {
    RunInv(states, acts, ids, i);
    t := LeadsThrough(states[i], Timer(c), Get(c), Swap(c, true), ids);
  }

  /** When its function has ended it gives the lock back by a look at the entry and a swap. */
  lemma HolderGivesBack(states: seq<State>, acts: seq<Action>, ids: map<Client, string>, i: nat, c: Client)
    returns (t: State)
    requires Run(states, acts, ids) && i <= |acts| && Live(states[i]) && c in states[i].pcs && states[i].pcs[c].Holding?
    requires c in ids && states[i].cell.value.value == ids[c]
    ensures Leads(states[i], [Stop(c), Get(c), Swap(c, true)], ids, t)
    ensures c in t.pcs && t.pcs[c] == Finished && c !in t.leases
    ensures t.cell.Some? && t.cell.value.value == "" && t.cell.value.expires == states[i].now + 1
  {
    RunInv(states, acts, ids, i);
    t := LeadsThrough(states[i], Stop(c), Get(c), Swap(c, true), ids);
  }

  /** A call that fails ends the attempt to lock, or loses the lock, or ends the release; the entry stays. */
  lemma FailuresGiveUp(s: State, a: Action, c: Client, ids: map<Client, string>)
    requires s.pcs.Keys <= ids.Keys && Enabled(s, a) && (a == GetFails(c) || a == SwapFails(c))
    ensures var t := Next(s, a, ids);
      && t.cell == s.cell && t.leases == s.leases && c in s.pcs && c in t.pcs
      && t.pcs[c] == if s.pcs[c].op.Release? then Finished else if s.pcs[c].first then Failed else Lost
  {
    assert Next(s, a, ids).pcs[c] == Checked(s.pcs[c].op, s.pcs[c].first, false);
  }

  // ----- What can happen -----

  /** Any call can fail at any time, time can pass, a live entry can be evicted, and a holder's timer can go off
      or its function end. */
  lemma AnythingCanFail(s: State, c: Client, d: nat)
    ensures Enabled(s, Tick(d)) && (Live(s) ==> Enabled(s, Evict))
    ensures c in s.pcs ==>
      && (s.pcs[c].Start? ==> Enabled(s, AddFails(c)))
      && (s.pcs[c].Start? && !Live(s) ==> Enabled(s, Add(c, true)) && Enabled(s, Add(c, false)))
      && (s.pcs[c].Getting? ==> Enabled(s, GetFails(c)) && (Live(s) ==> Enabled(s, Get(c))))
      && (s.pcs[c].Swapping? ==> Enabled(s, SwapFails(c)))
      && (s.pcs[c].Swapping? && Live(s) && s.cell.value.token == s.pcs[c].item.token ==>
            Enabled(s, Swap(c, true)) && Enabled(s, Swap(c, false)))
      && (s.pcs[c].Holding? ==> Enabled(s, Timer(c)) && Enabled(s, Stop(c)))
  {
  }

  /** Any entry can be left over in memcache when the clients start, or none. */
  lemma AnyStart(ids: map<Client, string>, now: int, cell: Option<Item>)
    requires forall c | c in ids :: ids[c] != ""
    ensures var token := if cell.Some? then cell.value.token + 1 else 0;
      Init(State(now, cell, token, map c | c in ids :: Start, map[]), ids)
  {
  }

  // ----- The provisos are needed -----

  function Begin(ids: map<Client, string>): State {
    State(0, None, 0, map c | c in ids :: Start, map[])
  }

  lemma BeginRun(ids: map<Client, string>)
    requires forall c | c in ids :: ids[c] != ""
    ensures Run([Begin(ids)], [], ids) && Begin(ids).pcs.Keys == ids.Keys
  {
  }

  lemma ExtendRun(states: seq<State>, acts: seq<Action>, ids: map<Client, string>, a: Action)
    requires Run(states, acts, ids)
    requires states[|acts|].pcs.Keys <= ids.Keys && Enabled(states[|acts|], a)
    ensures Run(states + [Next(states[|acts|], a, ids)], acts + [a], ids)
  {
    hide Enabled, Next, Init;
  }

  /** With early eviction two clients can be in a lease at once. */
  lemma EvictionBreaksExclusion() returns (states: seq<State>, acts: seq<Action>, ids: map<Client, string>)
    ensures Run(states, acts, ids) && DistinctIds(ids)
    ensures InLease(states[|acts|], 0) && InLease(states[|acts|], 1)
  {
    hide Run;
    ids := map[0 := "a", 1 := "b"];
    assert "a"[0] != "b"[0];
    BeginRun(ids);
    states, acts := [Begin(ids)], [];
    ExtendRun(states, acts, ids, Add(0, true));
    states, acts := states + [Next(states[0], Add(0, true), ids)], acts + [Add(0, true)];
    ExtendRun(states, acts, ids, Evict);
    states, acts := states + [Next(states[1], Evict, ids)], acts + [Evict];
    ExtendRun(states, acts, ids, Add(1, true));
    states, acts := states + [Next(states[2], Add(1, true), ids)], acts + [Add(1, true)];
  }

  /** Two clients with one id can be in a lease at once: the second takes the entry for its own. */
  lemma EqualIdsBreakExclusion() returns (states: seq<State>, acts: seq<Action>, ids: map<Client, string>)
    ensures Run(states, acts, ids) && NoEviction(acts)
    ensures InLease(states[|acts|], 0) && InLease(states[|acts|], 1)
  {
    hide Run;
    ids := map[0 := "a", 1 := "a"];
    BeginRun(ids);
    states, acts := [Begin(ids)], [];
    ExtendRun(states, acts, ids, Add(0, true));
    states, acts := states + [Next(states[0], Add(0, true), ids)], acts + [Add(0, true)];
    ExtendRun(states, acts, ids, AddFails(1));
    states, acts := states + [Next(states[1], AddFails(1), ids)], acts + [AddFails(1)];
    ExtendRun(states, acts, ids, Get(1));
    states, acts := states + [Next(states[2], Get(1), ids)], acts + [Get(1)];
    ExtendRun(states, acts, ids, Swap(1, true));
    states, acts := states + [Next(states[3], Swap(1, true), ids)], acts + [Swap(1, true)];
  }
}
