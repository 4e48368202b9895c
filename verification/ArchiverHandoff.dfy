/** Files pushed twice are hashed once: the goroutine that links a duplicate to the first item and the
    goroutines that hash, lock by lock (client/archiver/archiver.go:231-295 and 454-464). */
module ArchiverHandoff {

  import opened Text

  /** What becomes of hashing an item: a digest, an error while reading, or a source that cannot be
      opened. An item that is not hashed because the archiver was cancelled gets an error and is released
      just as after an error while reading. */
  datatype Outcome = Hashed(digest: int) | ReadFails | OpenFails

  /** The items that stage 1 takes before it sees a cancellation, in the order they are pushed; "" is the
      path of an item that is not a file. */
  datatype Input = Input(paths: seq<string>, outcomes: seq<Outcome>) {
    ghost predicate Valid() {
      |outcomes| == |paths|
    }
  }

  /** The item that item c is deduplicated to: the first of the same file, or itself. */
  function First(paths: seq<string>, c: nat): (p: nat)
    requires c < |paths|
    ensures p <= c && paths[p] == paths[c]
  {
    if paths[c] == "" then c else FirstFrom(paths, c, 0)
  }

  function FirstFrom(paths: seq<string>, c: nat, i: nat): (p: nat)
    requires i <= c < |paths|
    ensures i <= p <= c && paths[p] == paths[c]
    decreases c - i
  {
    if paths[i] == paths[c] then i else FirstFrom(paths, c, i + 1)
  }

  lemma {:induction false} FirstFromLeast(paths: seq<string>, c: nat, i: nat)
    requires i <= c < |paths|
    ensures forall j | i <= j < FirstFrom(paths, c, i) :: paths[j] != paths[c]
    decreases c - i
  {
    if paths[i] != paths[c] {
      FirstFromLeast(paths, c, i + 1);
    }
  }

  lemma {:induction false} FirstFromSame(paths: seq<string>, c: nat, d: nat, i: nat)
    requires i <= c < |paths| && i <= d < |paths| && paths[c] == paths[d]
    ensures FirstFrom(paths, c, i) == FirstFrom(paths, d, i)
    decreases c - i
  {
    if paths[i] != paths[c] {
      FirstFromSame(paths, c, d, i + 1);
    }
  }

  /** First items are their own first. */
  lemma FirstIdempotent(paths: seq<string>, c: nat)
    requires c < |paths|
    ensures First(paths, First(paths, c)) == First(paths, c)
  {
    if paths[c] != "" {
      FirstFromSame(paths, c, First(paths, c), 0);
    }
  }

  /** The duplicates of p among the first m items, in order. */
  function Children(paths: seq<string>, p: nat, m: nat): (r: seq<nat>)
    requires m <= |paths|
    ensures |r| <= m && forall i | 0 <= i < |r| :: r[i] < m
  {
    if m == 0 then []
    else Children(paths, p, m - 1) + if m - 1 != p && First(paths, m - 1) == p then [m - 1] else []
  }

  /** Its place among them. */
  function Place(paths: seq<string>, c: nat): nat
    requires c < |paths|
  {
    |Children(paths, First(paths, c), c)|
  }

  lemma {:induction false} ChildrenGrow(paths: seq<string>, p: nat, m: nat, n: nat)
    requires m <= n <= |paths|
    ensures Children(paths, p, m) <= Children(paths, p, n)
    decreases n - m
  {
    if m < n {
      ChildrenGrow(paths, p, m, n - 1);
    }
  }

  /** Child and place determine each other. */
  lemma ChildAtPlace(paths: seq<string>, c: nat, m: nat)
    requires c < m <= |paths| && First(paths, c) != c
    ensures Place(paths, c) < |Children(paths, First(paths, c), m)|
    ensures Children(paths, First(paths, c), m)[Place(paths, c)] == c
  {
    var p := First(paths, c);
    ChildrenGrow(paths, p, c + 1, m);
    assert Children(paths, p, c + 1) == Children(paths, p, c) + [c];
  }

  lemma {:induction false} PlaceOfChild(paths: seq<string>, p: nat, m: nat, i: nat)
    requires m <= |paths| && i < |Children(paths, p, m)|
    ensures var c := Children(paths, p, m)[i]; c < m && First(paths, c) == p && c != p && Place(paths, c) == i
  {
    if i < |Children(paths, p, m - 1)| {
      PlaceOfChild(paths, p, m - 1, i);
    }
  }

  // ----- The state -----

  datatype Actor = Linker | Hasher(i: nat)

  /** Item: who holds its lock, its digest and error, its duplicates, and how often WaitForHashed was
      released. */
  datatype Item = Item(owner: Option<Actor>, digest: Option<int>, failed: bool, linked: seq<nat>, released: nat)

  /** Where stage 1 stands: before item `next`; holding its lock; holding the lock of its first item
      as well, to which it is linked now; holding only its own lock again. */
  datatype LinkPc = Ready(next: nat) | HasChild(next: nat) | HasBoth(next: nat) | Linked(next: nat)

  /** Where the hashing of an item stands: not forwarded; reading; holding the item's lock, having
      passed the result on to k duplicates; holding also the lock of the next one; unlocked; done.
      The result was passed on to the first `told` duplicates. */
  datatype HashPc =
    | Waiting
    | Reading
    | Telling(k: nat)
    | TellingChild(k: nat)
    | Unlocked(told: nat)
    | Done(told: nat)

  datatype State = State(items: seq<Item>, link: LinkPc, hash: seq<HashPc>)

  /** How many items stage 1 has linked or forwarded. */
  function Passed(link: LinkPc): nat {
    if link.HasBoth? || link.Linked? then link.next + 1 else link.next
  }

  // ----- Steps -----

  datatype Action = LinkStep | HashStep(i: nat)

  function Set(s: State, c: nat, item: Item): State
    requires c < |s.items|
  {
    s.(items := s.items[c := item])
  }

  function Acquire(s: State, c: nat, a: Actor): State
    requires c < |s.items|
  {
    Set(s, c, s.items[c].(owner := Some(a)))
  }

  function Release(s: State, c: nat): State
    requires c < |s.items|
  {
    Set(s, c, s.items[c].(owner := None))
  }

  predicate Shaped(x: Input, s: State) {
    && |x.outcomes| == |x.paths| == |s.items| == |s.hash|
    && (if s.link.Ready? then s.link.next <= |x.paths| else s.link.next < |x.paths|)
    && (forall i, k | 0 <= i < |s.items| && 0 <= k < |s.items[i].linked| :: s.items[i].linked[k] < |s.items|)
  }

  /** An actor is blocked only by a lock that is held. */
  predicate Enabled(x: Input, s: State, a: Action)
    requires Shaped(x, s)
  {
    match a
    case LinkStep =>
      (match s.link
       case Ready(next) => next < |x.paths| && (First(x.paths, next) == next || s.items[next].owner.None?)
       case HasChild(next) => s.items[First(x.paths, next)].owner.None?
       case _ => true)
    case HashStep(i) =>
      && i < |s.hash|
      && match s.hash[i]
         case Reading => x.outcomes[i].OpenFails? || s.items[i].owner.None?
         case Telling(k) =>
           k <= |s.items[i].linked| && (k < |s.items[i].linked| ==> s.items[s.items[i].linked[k]].owner.None?)
         case TellingChild(k) => k < |s.items[i].linked|
         case Unlocked(_) => true
         case _ => false
  }

  /** link, once both locks are held. */
  function LinkChild(s: State, p: nat, c: nat): State
    requires p < |s.items| && c < |s.items|
  {
    var parent, child := s.items[p], s.items[c];
    var t := Set(s, p, parent.(owner := Some(Linker), linked := parent.linked + [c]));
    if parent.digest.Some? then
      Set(t, c, child.(digest := parent.digest, failed := parent.failed, released := child.released + 1))
    else if parent.failed then
      Set(t, c, child.(failed := true, released := child.released + 1))
    else t
  }

  function NextLink(x: Input, s: State): State
    requires Shaped(x, s) && Enabled(x, s, LinkStep)
  {
    match s.link
    case Ready(next) =>
      if First(x.paths, next) == next then s.(link := Ready(next + 1), hash := s.hash[next := Reading])
      else Acquire(s, next, Linker).(link := HasChild(next))
    case HasChild(next) => LinkChild(s, First(x.paths, next), next).(link := HasBoth(next))
    case HasBoth(next) => Release(s, First(x.paths, next)).(link := Linked(next))
    case Linked(next) => Release(s, next).(link := Ready(next + 1))
  }

  /** calcDigest, and SetErr when reading fails. */
  function NextHash(x: Input, s: State, i: nat): State
    requires Shaped(x, s) && Enabled(x, s, HashStep(i))
  {
    match s.hash[i]
    case Reading =>
      if x.outcomes[i].OpenFails? then s.(hash := s.hash[i := Unlocked(0)])
      else
        Set(s, i, s.items[i].(owner := Some(Hasher(i)),
                              digest := if x.outcomes[i].Hashed? then Some(x.outcomes[i].digest) else s.items[i].digest,
                              failed := s.items[i].failed || x.outcomes[i].ReadFails?))
          .(hash := s.hash[i := Telling(0)])
    case Telling(k) =>
      if k == |s.items[i].linked| then Release(s, i).(hash := s.hash[i := Unlocked(k)])
      else
        var c := s.items[i].linked[k];
        Set(s, c, s.items[c].(owner := Some(Hasher(i)),
                              digest := if x.outcomes[i].Hashed? then Some(x.outcomes[i].digest) else s.items[c].digest,
                              failed := s.items[c].failed || x.outcomes[i].ReadFails?))
          .(hash := s.hash[i := TellingChild(k)])
    case TellingChild(k) =>
      var c := s.items[i].linked[k];
      Set(s, c, s.items[c].(owner := None,
                            released := s.items[c].released + if x.outcomes[i].Hashed? then 1 else 0))
        .(hash := s.hash[i := Telling(k + 1)])
    case Unlocked(told) => Set(s, i, s.items[i].(released := s.items[i].released + 1)).(hash := s.hash[i := Done(told)])
    case _ => s
  }

  function Next(x: Input, s: State, a: Action): State
    requires Shaped(x, s) && Enabled(x, s, a)
  {
    match a
    case LinkStep => NextLink(x, s)
    case HashStep(i) => NextHash(x, s, i)
  }

  function Init(x: Input): State
    requires x.Valid()
  {
    State(seq(|x.paths|, _ => Item(None, None, false, [], 0)), Ready(0), seq(|x.paths|, _ => Waiting))
  }

  // ----- What every reachable state looks like -----

  predicate Locked(h: HashPc) {
    h.Telling? || h.TellingChild?
  }

  predicate Finished(h: HashPc) {
    h.Unlocked? || h.Done?
  }

  /** An item that is hashed itself. */
  function ExpectedFirst(x: Input, link: LinkPc, h: HashPc, p: nat): Item
    requires p < |x.paths| == |x.outcomes| && Passed(link) <= |x.paths|
  {
    var known := Locked(h) || Finished(h);
    Item(
      if Locked(h) then Some(Hasher(p))
      else if link.HasBoth? && link.next < |x.paths| && First(x.paths, link.next) == p then Some(Linker)
      else None,
      if known && x.outcomes[p].Hashed? then Some(x.outcomes[p].digest) else None,
      known && x.outcomes[p].ReadFails?,
      Children(x.paths, p, Passed(link)),
      if h.Done? then 1 else 0)
  }

  /** A duplicate that is linked to an item in state h. */
  function ExpectedLinked(x: Input, h: HashPc, p: nat, place: nat): Item
    requires p < |x.outcomes|
  {
    var told := (h.Telling? && place < h.k) || (h.TellingChild? && place <= h.k) || (Finished(h) && place < h.told);
    var late := Finished(h) && place >= h.told;
    Item(
      if h.TellingChild? && place == h.k then Some(Hasher(p)) else None,
      if (told || late) && x.outcomes[p].Hashed? then Some(x.outcomes[p].digest) else None,
      (told || late) && x.outcomes[p].ReadFails?,
      [],
      if (x.outcomes[p].Hashed? && (late || (told && !(h.TellingChild? && place == h.k))))
          || (x.outcomes[p].ReadFails? && late)
      then 1 else 0)
  }

  function Expected(x: Input, link: LinkPc, hash: seq<HashPc>, c: nat): Item
    requires c < |x.paths| == |x.outcomes| == |hash| && Passed(link) <= |x.paths|
  {
    var p := First(x.paths, c);
    if p == c then ExpectedFirst(x, link, hash[c], c)
    else
      var item := if c < Passed(link) then ExpectedLinked(x, hash[p], p, Place(x.paths, c))
        else Item(None, None, false, [], 0);
      if !link.Ready? && link.next == c then item.(owner := Some(Linker)) else item
  }

  /** Counters are within the lists they count; items are hashed once forwarded, and only first ones. */
  ghost predicate PcOk(x: Input, link: LinkPc, hash: seq<HashPc>, i: nat)
    requires i < |x.paths| == |x.outcomes| == |hash| && Passed(link) <= |x.paths|
  {
    var n := |Children(x.paths, i, Passed(link))|;
    && (hash[i].Waiting? <==> First(x.paths, i) != i || i >= Passed(link))
    && (hash[i].Telling? ==> hash[i].k <= n)
    && (hash[i].TellingChild? ==> hash[i].k < n)
    && (hash[i].TellingChild? && link.Linked? && First(x.paths, link.next) == i ==>
        hash[i].k != Place(x.paths, link.next))
    && (Finished(hash[i]) ==> hash[i].told <= n)
    && (Locked(hash[i]) ==> !x.outcomes[i].OpenFails? && !(link.HasBoth? && First(x.paths, link.next) == i))
    && (Finished(hash[i]) && x.outcomes[i].OpenFails? ==> hash[i].told == 0)
  }

  ghost predicate Inv(x: Input, s: State) {
    && |x.outcomes| == |x.paths| == |s.items| == |s.hash|
    && Passed(s.link) <= |x.paths|
    && (!s.link.Ready? ==> s.link.next < |x.paths| && First(x.paths, s.link.next) != s.link.next)
    && (forall i | 0 <= i < |x.paths| :: PcOk(x, s.link, s.hash, i))
    && (forall c | 0 <= c < |x.paths| :: s.items[c] == Expected(x, s.link, s.hash, c))
  }

  lemma InvShaped(x: Input, s: State)
    requires Inv(x, s)
    ensures Shaped(x, s)
  {
    forall i, k | 0 <= i < |s.items| && 0 <= k < |s.items[i].linked| ensures s.items[i].linked[k] < |s.items| {
      assert s.items[i] == Expected(x, s.link, s.hash, i);
    }
  }

  // ----- Every step keeps it -----

  lemma Linked1(x: Input, next: nat)
    requires next < |x.paths|
    ensures First(x.paths, next) == next ==>
      forall p: nat :: Children(x.paths, p, next + 1) == Children(x.paths, p, next)
    ensures First(x.paths, next) != next ==>
      forall p: nat :: Children(x.paths, p, next + 1)
                    == Children(x.paths, p, next) + if p == First(x.paths, next) then [next] else []
  {
  }

  lemma Forward(x: Input, s: State)
    requires Inv(x, s) && s.link.Ready? && s.link.next < |x.paths| && First(x.paths, s.link.next) == s.link.next
    ensures Shaped(x, s) && Enabled(x, s, LinkStep) && Inv(x, Next(x, s, LinkStep))
  {
    InvShaped(x, s);
    Linked1(x, s.link.next);
    hide First, Children;
    var t := Next(x, s, LinkStep);
    forall i | 0 <= i < |x.paths| ensures PcOk(x, t.link, t.hash, i) {
      assert PcOk(x, s.link, s.hash, i);
    }
    forall c | 0 <= c < |x.paths| ensures t.items[c] == Expected(x, t.link, t.hash, c) {
      assert s.items[c] == Expected(x, s.link, s.hash, c);
      FirstIdempotent(x.paths, c);
      assert PcOk(x, s.link, s.hash, c);
    }
  }

  lemma TakeChild(x: Input, s: State)
    requires Inv(x, s) && s.link.Ready? && s.link.next < |x.paths| && First(x.paths, s.link.next) != s.link.next
    ensures Shaped(x, s) && Enabled(x, s, LinkStep) && Inv(x, Next(x, s, LinkStep))
  {
    InvShaped(x, s);
    hide First, Children;
    var t := Next(x, s, LinkStep);
    forall i | 0 <= i < |x.paths| ensures PcOk(x, t.link, t.hash, i) {
      assert PcOk(x, s.link, s.hash, i);
    }
    forall c | 0 <= c < |x.paths| ensures t.items[c] == Expected(x, t.link, t.hash, c) {
      assert s.items[c] == Expected(x, s.link, s.hash, c);
    }
  }

  lemma TakeParentPc(x: Input, s: State, c: nat)
    requires Inv(x, s) && s.link.HasChild? && Shaped(x, s) && Enabled(x, s, LinkStep) && c < |x.paths|
    ensures PcOk(x, HasBoth(s.link.next), s.hash, c)
  {
    Linked1(x, s.link.next);
    FirstIdempotent(x.paths, s.link.next);
    hide First, Children;
    var p := First(x.paths, s.link.next);
    assert s.items[p] == Expected(x, s.link, s.hash, p) && PcOk(x, s.link, s.hash, p);
    assert PcOk(x, s.link, s.hash, c);
  }

  lemma TakeParentAt(x: Input, s: State, c: nat)
    requires Inv(x, s) && s.link.HasChild? && Shaped(x, s) && Enabled(x, s, LinkStep) && c < |x.paths|
    ensures LinkChild(s, First(x.paths, s.link.next), s.link.next).items[c]
         == Expected(x, HasBoth(s.link.next), s.hash, c)
  {
    var next := s.link.next;
    Linked1(x, next);
    FirstIdempotent(x.paths, next);
    hide First, Children;
    var p := First(x.paths, next);
    assert s.items[p] == Expected(x, s.link, s.hash, p) && PcOk(x, s.link, s.hash, p);
    assert s.items[next] == Expected(x, s.link, s.hash, next);
    assert s.items[c] == Expected(x, s.link, s.hash, c);
    hide PcOk;
  }

  lemma TakeParent(x: Input, s: State)
    requires Inv(x, s) && s.link.HasChild? && Shaped(x, s) && Enabled(x, s, LinkStep)
    ensures Inv(x, Next(x, s, LinkStep))
  {
    hide Expected, PcOk, First;
    forall c | 0 <= c < |x.paths|
      ensures var t := Next(x, s, LinkStep);
        Passed(t.link) <= |x.paths| && PcOk(x, t.link, t.hash, c) && t.items[c] == Expected(x, t.link, t.hash, c)
    {
      TakeParentAt(x, s, c);
      TakeParentPc(x, s, c);
    }
  }

  lemma Unlink(x: Input, s: State)
    requires Inv(x, s) && (s.link.HasBoth? || s.link.Linked?)
    ensures Shaped(x, s) && Enabled(x, s, LinkStep) && Inv(x, Next(x, s, LinkStep))
  {
    InvShaped(x, s);
    FirstIdempotent(x.paths, s.link.next);
    hide First, Children, Place;
    var t := Next(x, s, LinkStep);
    assert PcOk(x, s.link, s.hash, First(x.paths, s.link.next));
    forall i | 0 <= i < |x.paths| ensures PcOk(x, t.link, t.hash, i) {
      assert PcOk(x, s.link, s.hash, i);
    }
    forall c | 0 <= c < |x.paths| ensures t.items[c] == Expected(x, t.link, t.hash, c) {
      assert s.items[c] == Expected(x, s.link, s.hash, c) && PcOk(x, s.link, s.hash, c);
    }
  }

  lemma HashOnePc(x: Input, s: State, i: nat, c: nat)
    requires Inv(x, s) && Shaped(x, s) && Enabled(x, s, HashStep(i)) && c < |x.paths|
    requires s.hash[i].Reading? || s.hash[i].Unlocked? || (s.hash[i].Telling? && s.hash[i].k == |s.items[i].linked|)
    ensures var t := Next(x, s, HashStep(i)); PcOk(x, t.link, t.hash, c)
  {
    assert s.items[i] == Expected(x, s.link, s.hash, i) && PcOk(x, s.link, s.hash, i);
    assert PcOk(x, s.link, s.hash, c);
    hide Children, Place, First, Expected;
  }

  /** Hashing an item changes only what is expected of it and of its duplicates. */
  lemma HashOneAt(x: Input, s: State, i: nat, c: nat)
    requires Inv(x, s) && Shaped(x, s) && Enabled(x, s, HashStep(i)) && c < |x.paths|
    requires s.hash[i].Reading? || s.hash[i].Unlocked? || (s.hash[i].Telling? && s.hash[i].k == |s.items[i].linked|)
    requires First(x.paths, c) == i
    ensures var t := Next(x, s, HashStep(i)); t.items[c] == Expected(x, t.link, t.hash, c)
  {
    hide Children, Place, First;
    assert s.items[i] == Expected(x, s.link, s.hash, i) && PcOk(x, s.link, s.hash, i);
    assert s.items[c] == Expected(x, s.link, s.hash, c);
    PlaceInTime(x, s, c);
    hide PcOk;
  }

  /** The place of a linked duplicate is in the list of its first item. */
  lemma PlaceInTime(x: Input, s: State, c: nat)
    requires Inv(x, s) && c < |x.paths|
    ensures First(x.paths, c) != c && c < Passed(s.link) ==>
      Place(x.paths, c) < |Children(x.paths, First(x.paths, c), Passed(s.link))|
  {
    if First(x.paths, c) != c && c < Passed(s.link) {
      ChildAtPlace(x.paths, c, Passed(s.link));
    }
  }

  lemma HashChildPc(x: Input, s: State, i: nat, c: nat)
    requires Inv(x, s) && Shaped(x, s) && Enabled(x, s, HashStep(i)) && c < |x.paths|
    requires s.hash[i].TellingChild? || (s.hash[i].Telling? && s.hash[i].k < |s.items[i].linked|)
    ensures var t := Next(x, s, HashStep(i)); PcOk(x, t.link, t.hash, c)
  {
    assert s.items[i] == Expected(x, s.link, s.hash, i) && PcOk(x, s.link, s.hash, i);
    PlaceOfChild(x.paths, i, Passed(s.link), s.hash[i].k);
    var child := s.items[i].linked[s.hash[i].k];
    assert s.items[child] == Expected(x, s.link, s.hash, child);
    LinkedChild(x, s, i);
    hide Children, First, Place;
    assert PcOk(x, s.link, s.hash, c);
  }

  /** The duplicate that is being linked is the one at its place. */
  lemma LinkedChild(x: Input, s: State, i: nat)
    requires Inv(x, s) && i < |x.paths|
    ensures s.link.Linked? && First(x.paths, s.link.next) == i ==>
      && Place(x.paths, s.link.next) < |Children(x.paths, i, Passed(s.link))|
      && Children(x.paths, i, Passed(s.link))[Place(x.paths, s.link.next)] == s.link.next
  {
    if s.link.Linked? && First(x.paths, s.link.next) == i {
      ChildAtPlace(x.paths, s.link.next, Passed(s.link));
    }
  }

  /** Telling a duplicate: it gets its lock taken, and the result. */
  lemma TellAt(x: Input, s: State, i: nat, c: nat)
    requires Inv(x, s) && Shaped(x, s) && Enabled(x, s, HashStep(i)) && c < |x.paths| && First(x.paths, c) == i
    requires s.hash[i].Telling? && s.hash[i].k < |s.items[i].linked|
    ensures var t := Next(x, s, HashStep(i)); t.items[c] == Expected(x, t.link, t.hash, c)
  {
    hide Children, First, Place;
    assert s.items[i] == Expected(x, s.link, s.hash, i) && PcOk(x, s.link, s.hash, i);
    var child := s.items[i].linked[s.hash[i].k];
    PlaceOfChild(x.paths, i, Passed(s.link), s.hash[i].k);
    OnlyOneThere(x, i, c, s.hash[i].k, Passed(s.link));
    assert s.items[child] == Expected(x, s.link, s.hash, child);
    assert s.items[c] == Expected(x, s.link, s.hash, c);
    hide PcOk;
  }

  /** Having told it: its lock is released, and so is whoever waits for its digest. */
  lemma ToldAt(x: Input, s: State, i: nat, c: nat)
    requires Inv(x, s) && Shaped(x, s) && Enabled(x, s, HashStep(i)) && c < |x.paths| && First(x.paths, c) == i
    requires s.hash[i].TellingChild?
    ensures var t := Next(x, s, HashStep(i)); t.items[c] == Expected(x, t.link, t.hash, c)
  {
    hide Children, First, Place;
    assert s.items[i] == Expected(x, s.link, s.hash, i) && PcOk(x, s.link, s.hash, i);
    PlaceOfChild(x.paths, i, Passed(s.link), s.hash[i].k);
    OnlyOneThere(x, i, c, s.hash[i].k, Passed(s.link));
    LinkedChild(x, s, i);
    assert s.items[c] == Expected(x, s.link, s.hash, c);
  }

  /** Hashing an item leaves those that are not its duplicates alone. */
  lemma HashElsewhere(x: Input, s: State, i: nat, c: nat)
    requires Inv(x, s) && Shaped(x, s) && Enabled(x, s, HashStep(i)) && c < |x.paths|
    requires First(x.paths, c) != i
    ensures var t := Next(x, s, HashStep(i)); t.items[c] == Expected(x, t.link, t.hash, c)
  {
    OwnList(x, s, i);
    Untouched(x, s, i, c);
    hide Next, Enabled, PcOk;
    assert s.items[c] == Expected(x, s.link, s.hash, c);
    ExpectedFrame(x, s.link, s.hash, i, Next(x, s, HashStep(i)).hash[i], c);
  }

  lemma Untouched(x: Input, s: State, i: nat, c: nat)
    requires Shaped(x, s) && Enabled(x, s, HashStep(i)) && c < |s.items| && c != i && c !in s.items[i].linked
    ensures var t := Next(x, s, HashStep(i));
      && t.items[c] == s.items[c] && t.link == s.link && |t.hash| == |s.hash| && t.hash == s.hash[i := t.hash[i]]
  {
    assert forall k | 0 <= k < |s.items[i].linked| :: s.items[i].linked[k] in s.items[i].linked;
  }

  lemma ExpectedFrame(x: Input, link: LinkPc, hash: seq<HashPc>, i: nat, h: HashPc, c: nat)
    requires c < |x.paths| == |x.outcomes| == |hash| && Passed(link) <= |x.paths| && i < |hash|
    requires First(x.paths, c) != i
    ensures Expected(x, link, hash[i := h], c) == Expected(x, link, hash, c)
  {
    hide ExpectedFirst, ExpectedLinked;
  }

  /** An item that is hashed is its own first, and so are the items it is linked to theirs. */
  lemma OwnList(x: Input, s: State, i: nat)
    requires Inv(x, s) && i < |x.paths| && !s.hash[i].Waiting?
    ensures First(x.paths, i) == i
    ensures forall k | 0 <= k < |s.items[i].linked| ::
              s.items[i].linked[k] < |x.paths| && First(x.paths, s.items[i].linked[k]) == i
  {
    assert s.items[i] == Expected(x, s.link, s.hash, i) && PcOk(x, s.link, s.hash, i);
    forall k | 0 <= k < |s.items[i].linked|
      ensures s.items[i].linked[k] < |x.paths| && First(x.paths, s.items[i].linked[k]) == i
    {
      PlaceOfChild(x.paths, i, Passed(s.link), k);
    }
  }

  lemma HashKeeps(x: Input, s: State, i: nat)
    requires Inv(x, s) && Shaped(x, s) && Enabled(x, s, HashStep(i))
    ensures Inv(x, Next(x, s, HashStep(i)))
  {
    hide Expected, PcOk, First;
    forall c | 0 <= c < |x.paths|
      ensures var t := Next(x, s, HashStep(i));
        PcOk(x, t.link, t.hash, c) && t.items[c] == Expected(x, t.link, t.hash, c)
    {
      if s.hash[i].TellingChild? || (s.hash[i].Telling? && s.hash[i].k < |s.items[i].linked|) {
        if First(x.paths, c) != i {
          HashElsewhere(x, s, i, c);
        } else if s.hash[i].Telling? {
          TellAt(x, s, i, c);
        } else {
          ToldAt(x, s, i, c);
        }
        HashChildPc(x, s, i, c);
      } else {
        if First(x.paths, c) != i { HashElsewhere(x, s, i, c); } else { HashOneAt(x, s, i, c); }
        HashOnePc(x, s, i, c);
      }
    }
  }

  lemma OnlyOneThere(x: Input, i: nat, c: nat, k: nat, m: nat)
    requires c < |x.paths| && m <= |x.paths| && k < |Children(x.paths, i, m)|
    ensures First(x.paths, c) == i && c != i && c < m && Place(x.paths, c) == k ==> c == Children(x.paths, i, m)[k]
  {
    if First(x.paths, c) == i && c != i && c < m {
      ChildAtPlace(x.paths, c, m);
    }
  }

  lemma StepInv(x: Input, s: State, a: Action)
    requires Inv(x, s) && Shaped(x, s) && Enabled(x, s, a)
    ensures Inv(x, Next(x, s, a))
  {
    hide Inv, Next, PcOk, Expected;
    if a.HashStep? {
      HashKeeps(x, s, a.i);
    } else if s.link.Ready? {
      if First(x.paths, s.link.next) == s.link.next { Forward(x, s); } else { TakeChild(x, s); }
    } else if s.link.HasChild? {
      TakeParent(x, s);
    } else {
      Unlink(x, s);
    }
  }

  lemma InitInv(x: Input)
    requires x.Valid()
    ensures Inv(x, Init(x))
  {
    forall c | 0 <= c < |x.paths| ensures Init(x).items[c] == Expected(x, Ready(0), Init(x).hash, c) {
    }
  }

  // ----- Main results -----

  /** The states of a run that starts from nothing. */
  ghost predicate Run(x: Input, states: seq<State>, acts: seq<Action>)
    requires x.Valid()
  {
    && |states| == |acts| + 1 && states[0] == Init(x)
    && forall n | 0 <= n < |acts| ::
         Shaped(x, states[n]) && Enabled(x, states[n], acts[n]) && states[n + 1] == Next(x, states[n], acts[n])
  }

  lemma {:induction false} RunInv(x: Input, states: seq<State>, acts: seq<Action>, n: nat)
    requires x.Valid() && Run(x, states, acts) && n < |states|
    ensures Inv(x, states[n])
  {
    hide Inv, Next, Enabled;
    if n == 0 {
      InitInv(x);
    } else {
      RunInv(x, states, acts, n - 1);
      StepInv(x, states[n - 1], acts[n - 1]);
    }
  }

  /** Nothing is left to do: all items are passed on and all first items are hashed. */
  predicate Final(x: Input, s: State)
    requires |s.hash| == |x.paths|
  {
    s.link == Ready(|x.paths|) && forall i | 0 <= i < |x.paths| :: First(x.paths, i) == i ==> s.hash[i].Done?
  }

  /** Although linking takes a duplicate's lock before its first item's and hashing takes them the
      other way round, there is no deadlock: until everything is done, some goroutine can go on. */
  lemma NoDeadlock(x: Input, states: seq<State>, acts: seq<Action>, n: nat)
    requires x.Valid() && Run(x, states, acts) && n < |states|
    ensures Shaped(x, states[n])
    ensures Final(x, states[n]) || exists a :: Enabled(x, states[n], a)
  {
    RunInv(x, states, acts, n);
    InvShaped(x, states[n]);
    if !Final(x, states[n]) {
      var a := SomeStep(x, states[n]);
    }
  }

  lemma SomeStep(x: Input, s: State) returns (a: Action)
    requires Inv(x, s) && Shaped(x, s) && !Final(x, s)
    ensures Enabled(x, s, a)
  {
    hide Inv, Expected, PcOk, First;
    if LinkerCan(x, s) {
      return LinkStep;
    }
    LinkerBlocked(x, s);
    if s.link.HasChild? {
      a := HasherOf(x, s, First(x.paths, s.link.next));
    } else {
      var i :| 0 <= i < |x.paths| && First(x.paths, i) == i && !s.hash[i].Done?;
      a := HasherOf(x, s, i);
    }
  }

  predicate LinkerCan(x: Input, s: State)
    requires Shaped(x, s)
  {
    Enabled(x, s, LinkStep)
  }

  lemma LinkerBlocked(x: Input, s: State)
    requires Inv(x, s) && Shaped(x, s) && !LinkerCan(x, s)
    ensures s.link == Ready(|x.paths|) || s.link.HasChild?
    ensures s.link.HasChild? ==> var p := First(x.paths, s.link.next); First(x.paths, p) == p && !s.hash[p].Done?
  {
    if s.link.HasChild? {
      FirstIdempotent(x.paths, s.link.next);
      var p := First(x.paths, s.link.next);
      assert s.items[p] == Expected(x, s.link, s.hash, p) && PcOk(x, s.link, s.hash, p);
    } else if s.link.Ready? && s.link.next < |x.paths| {
      FreeAhead(x, s);
    }
  }

  /** Nobody has the lock of an item that is not passed on yet. */
  lemma FreeAhead(x: Input, s: State)
    requires Inv(x, s) && Shaped(x, s) && s.link.Ready? && s.link.next < |x.paths|
    ensures LinkerCan(x, s)
  {
    assert s.items[s.link.next] == Expected(x, s.link, s.hash, s.link.next);
  }

  /** A hasher that is not done is never blocked while the linker is. */
  lemma HasherOf(x: Input, s: State, i: nat) returns (a: Action)
    requires Inv(x, s) && Shaped(x, s) && !LinkerCan(x, s)
    requires i < |x.paths| && First(x.paths, i) == i && !s.hash[i].Done?
    requires s.link == Ready(|x.paths|) || s.link.HasChild?
    requires s.link.HasChild? ==> i == First(x.paths, s.link.next)
    ensures Enabled(x, s, a)
  {
    a := HashStep(i);
    assert s.items[i] == Expected(x, s.link, s.hash, i) && PcOk(x, s.link, s.hash, i);
    if s.hash[i].Telling? && s.hash[i].k < |s.items[i].linked| {
      PlaceOfChild(x.paths, i, Passed(s.link), s.hash[i].k);
      var c := s.items[i].linked[s.hash[i].k];
      assert s.items[c] == Expected(x, s.link, s.hash, c);
    }
  }

  /** When everything is done, every first item was released once. A duplicate, which was linked to its
      first item, has the digest of that and was released once if that was hashed. If reading failed, it
      has the error, and was released exactly if it was linked after the error was known; and if the
      source could not be opened it was never released and has neither. */
  lemma HandedOff(x: Input, states: seq<State>, acts: seq<Action>, n: nat, c: nat)
    requires x.Valid() && Run(x, states, acts) && n < |states| && c < |x.paths|
    requires |states[n].hash| == |x.paths| && Final(x, states[n])
    ensures |states[n].items| == |x.paths|
    ensures var item, p := states[n].items[c], First(x.paths, c);
      && states[n].hash[p].Done?
      && (c == p ==> item.released == 1)
      && (x.outcomes[p].Hashed? ==> item.digest == Some(x.outcomes[p].digest) && !item.failed && item.released == 1)
      && (x.outcomes[p].ReadFails? ==> item.failed && item.digest.None?)
      && (x.outcomes[p].ReadFails? && c != p ==>
            item.released == if Place(x.paths, c) < states[n].hash[p].told then 0 else 1)
      && (x.outcomes[p].OpenFails? ==> !item.failed && item.digest.None? && (c != p ==> item.released == 0))
      && item.owner.None?
  {
    RunInv(x, states, acts, n);
    FirstIdempotent(x.paths, c);
    assert states[n].items[c] == Expected(x, states[n].link, states[n].hash, c);
    hide First, Children;
  }

  // ----- Every run ends -----

  function HashLeft(x: Input, h: HashPc, i: nat): int {
    var n := |Children(x.paths, i, |x.paths|)|;
    match h
    case Waiting => 2 * n + 3
    case Reading => 2 * n + 3
    case Telling(k) => 2 * (n - k) + 2
    case TellingChild(k) => 2 * (n - k) + 1
    case Unlocked(_) => 1
    case Done(_) => 0
  }

  function AllHashLeft(x: Input, hash: seq<HashPc>, m: nat): int
    requires m <= |hash|
  {
    if m == 0 then 0 else AllHashLeft(x, hash, m - 1) + HashLeft(x, hash[m - 1], m - 1)
  }

  function LinkLeft(x: Input, link: LinkPc): int {
    4 * (|x.paths| - link.next)
    - match link
      case Ready(_) => 0
      case HasChild(_) => 1
      case HasBoth(_) => 2
      case Linked(_) => 3
  }

  lemma {:induction false} HashLeftUpdate(x: Input, hash: seq<HashPc>, i: nat, h: HashPc, m: nat)
    requires i < |hash| && m <= |hash|
    ensures AllHashLeft(x, hash[i := h], m)
         == AllHashLeft(x, hash, m) + if i < m then HashLeft(x, h, i) - HashLeft(x, hash[i], i) else 0
  {
    if m > 0 {
      HashLeftUpdate(x, hash, i, h, m - 1);
    }
  }

  lemma {:induction false} HashLeftPositive(x: Input, s: State, m: nat)
    requires Inv(x, s) && m <= |x.paths|
    ensures AllHashLeft(x, s.hash, m) >= 0
  {
    if m > 0 {
      HashLeftPositive(x, s, m - 1);
      assert PcOk(x, s.link, s.hash, m - 1);
      ChildrenGrow(x.paths, m - 1, Passed(s.link), |x.paths|);
    }
  }

  lemma StepsWork(x: Input, s: State, a: Action)
    requires Inv(x, s) && Shaped(x, s) && Enabled(x, s, a)
    ensures var t := Next(x, s, a);
      |t.hash| == |x.paths| &&
      LinkLeft(x, t.link) + AllHashLeft(x, t.hash, |x.paths|) < LinkLeft(x, s.link) + AllHashLeft(x, s.hash, |x.paths|)
  {
    hide AllHashLeft, Children, First, Expected;
    var t := Next(x, s, a);
    if a.HashStep? {
      HashWorks(x, s, a.i);
      HashLeftUpdate(x, s.hash, a.i, t.hash[a.i], |x.paths|);
    } else if s.link.Ready? && First(x.paths, s.link.next) == s.link.next {
      assert PcOk(x, s.link, s.hash, s.link.next);
      HashLeftUpdate(x, s.hash, s.link.next, Reading, |x.paths|);
    }
  }

  lemma HashWorks(x: Input, s: State, i: nat)
    requires Inv(x, s) && Shaped(x, s) && Enabled(x, s, HashStep(i))
    ensures var t := Next(x, s, HashStep(i));
      |t.hash| == |s.hash| && t.hash == s.hash[i := t.hash[i]] && t.link == s.link
      && HashLeft(x, t.hash[i], i) < HashLeft(x, s.hash[i], i)
  {
    LinkedAre(x, s, i);
    assert PcOk(x, s.link, s.hash, i);
    ChildrenGrow(x.paths, i, Passed(s.link), |x.paths|);
    hide Children, First, Expected;
  }

  lemma LinkedAre(x: Input, s: State, i: nat)
    requires Inv(x, s) && i < |x.paths| && !s.hash[i].Waiting?
    ensures s.items[i].linked == Children(x.paths, i, Passed(s.link))
  {
    assert s.items[i] == Expected(x, s.link, s.hash, i) && PcOk(x, s.link, s.hash, i);
  }

  /** No run is longer than the work there is; with no deadlock, all work gets done. */
  lemma {:induction false} RunsEnd(x: Input, states: seq<State>, acts: seq<Action>, n: nat)
    requires x.Valid() && Run(x, states, acts) && n < |states|
    ensures |states[n].hash| == |x.paths|
    ensures n <= 4 * |x.paths| + AllHashLeft(x, Init(x).hash, |x.paths|)
                - LinkLeft(x, states[n].link) - AllHashLeft(x, states[n].hash, |x.paths|)
    ensures n <= 4 * |x.paths| + AllHashLeft(x, Init(x).hash, |x.paths|)
  {
    hide AllHashLeft, Next, Enabled, Inv;
    RunInv(x, states, acts, n);
    if n > 0 {
      RunsEnd(x, states, acts, n - 1);
      RunInv(x, states, acts, n - 1);
      StepsWork(x, states[n - 1], acts[n - 1]);
    }
    LeftPositive(x, states[n]);
  }

  lemma LeftPositive(x: Input, s: State)
    requires Inv(x, s)
    ensures |s.hash| == |x.paths| && LinkLeft(x, s.link) >= 0 && AllHashLeft(x, s.hash, |x.paths|) >= 0
  {
    HashLeftPositive(x, s, |x.paths|);
  }
}
