/** Which of the directories and files that were made with EnsureDirectory and File survive the cleanups of
    which directories (deploytool/managedfs/filesystem.go:142-326). */
module ManagedSurvival {

  import opened Text
  import opened CleanPaths
  import opened ManagedPlaces
  import opened ManagedFiles

  // ----- A cleanup, on the disk -----

  /** The disk, when the directory at `at` is left as Shrunk has it. A directory that cannot be read is not
      cleaned up. */
  function CleanedAt(disk: Entries, at: seq<string>, m: Managed, root: Clean, place: seq<string>): Entries
    decreases |at|
  {
    if at == [] then Shrunk(m, disk, root, place)
    else if at[0] in disk && disk[at[0]].DirNode? then
      disk[at[0] := DirNode(CleanedAt(disk[at[0]].entries, at[1..], m, root, place))]
    else disk
  }

  /** The most that CleanUp of the directory registered under q deletes. */
  ghost function AfterCleanUp(cwd: seq<string>, root: Clean, m: Managed, q: seq<string>, disk: Entries): Entries
    requires ManagedAt(m, q).Some?
  {
    if IgnoredAbove(m, q) then disk
    else CleanedAt(disk, At(cwd, root, q), ManagedAt(m, q).value, root, PlaceOf(root, q).comps)
  }

  lemma {:induction false} NodeAtConcat(entries: Entries, a: seq<string>, b: seq<string>)
    requires b != []
    ensures NodeAt(entries, a + b)
         == if IsDir(NodeAt(entries, a)) then NodeAt(NodeAt(entries, a).value.entries, b) else None
    decreases |a|
  {
    if a == [] {
      assert a + b == b;
    } else {
      assert (a + b)[0] == a[0] && (a + b)[1..] == a[1..] + b;
      if a[0] in entries && entries[a[0]].DirNode? {
        NodeAtConcat(entries[a[0]].entries, a[1..], b);
      }
    }
  }

  /** At and below the directory that is cleaned up. */
  lemma {:induction false} CleanedBelow(disk: Entries, at: seq<string>, m: Managed, root: Clean, place: seq<string>,
                                        path: seq<string>)
    requires IsDir(NodeAt(disk, at))
    ensures var entries := NodeAt(disk, at).value.entries;
      SameKind(NodeAt(CleanedAt(disk, at, m, root, place), at + path), NodeAt(Shrunk(m, entries, root, place), path))
    decreases |at|
  {
    hide Shrunk;
    if at == [] {
      assert at + path == path;
    } else {
      assert (at + path)[0] == at[0] && (at + path)[1..] == at[1..] + path;
      assert |at| == 1 ==> at[1..] == [];
      CleanedBelow(disk[at[0]].entries, at[1..], m, root, place, path);
    }
  }

  /** Elsewhere nothing changes, and neither does anything when there is no directory. */
  lemma {:induction false} CleanedElsewhere(disk: Entries, at: seq<string>, m: Managed, root: Clean,
                                            place: seq<string>, path: seq<string>)
    requires !(at <= path) || !IsDir(NodeAt(disk, at))
    ensures SameKind(NodeAt(CleanedAt(disk, at, m, root, place), path), NodeAt(disk, path))
    decreases |at|
  {
    hide Shrunk;
    if at != [] && at[0] in disk && disk[at[0]].DirNode? && path != [] && path[0] == at[0] {
      assert at == [at[0]] + at[1..] && path == [path[0]] + path[1..];
      assert at[1..] <= path[1..] ==> at <= path;
      assert |at| == 1 ==> at[1..] == [];
      CleanedElsewhere(disk[at[0]].entries, at[1..], m, root, place, path[1..]);
    }
  }

  /** The disk, when the directory at `at` is left as `kept`. */
  function Replaced(disk: Entries, at: seq<string>, kept: Entries): Entries
    requires IsDir(NodeAt(disk, at))
    decreases |at|
  {
    if at == [] then kept
    else disk[at[0] := DirNode(Replaced(disk[at[0]].entries, at[1..], kept))]
  }

  /** Every cleanup leaves at least that, also one that panics on the way. */
  lemma {:induction false} AnyOutcome(disk: Entries, at: seq<string>, m: Managed, root: Clean, place: seq<string>,
                                      kept: Entries, path: seq<string>)
    requires IsDir(NodeAt(disk, at))
    requires Within(DirNode(Shrunk(m, NodeAt(disk, at).value.entries, root, place)), DirNode(kept))
    requires NodeAt(CleanedAt(disk, at, m, root, place), path).Some?
    ensures SameKind(NodeAt(CleanedAt(disk, at, m, root, place), path), NodeAt(Replaced(disk, at, kept), path))
    decreases |at|
  {
    hide Shrunk, Within;
    if at == [] {
      WithinAt(Shrunk(m, disk, root, place), kept, path);
    } else {
      assert |at| == 1 ==> at[1..] == [];
      if path != [] && path[0] == at[0] {
        AnyOutcome(disk[at[0]].entries, at[1..], m, root, place, kept, path[1..]);
      }
    }
  }

  // ----- Surviving -----

  /** The directory made under `path` survives the cleanup of the one registered under q, whatever else is
      registered, ignored or on disk. */
  ghost predicate DirSurvives(cwd: seq<string>, root: Clean, q: seq<string>, path: seq<string>) {
    forall m, disk | ManagedAt(m, q).Some? && ManagedAt(m, path).Some? && IsDir(NodeAt(disk, At(cwd, root, path))) ::
      IsDir(NodeAt(AfterCleanUp(cwd, root, m, q, disk), At(cwd, root, path)))
  }

  /** So does the file made in it. */
  ghost predicate FileSurvives(cwd: seq<string>, root: Clean, q: seq<string>, path: seq<string>, name: string) {
    forall m, disk | ManagedAt(m, q).Some? && HasFile(m, path, name) && IsFileAt(disk, At(cwd, root, path) + [name]) ::
      IsFileAt(AfterCleanUp(cwd, root, m, q, disk), At(cwd, root, path) + [name])
  }

  predicate HasFile(m: Managed, path: seq<string>, name: string) {
    ManagedAt(m, path).Some? && name in ManagedAt(m, path).value.files
  }

  predicate IsFileAt(disk: Entries, at: seq<string>) {
    NodeAt(disk, at) == Some(FileNode)
  }

  /** The names that lead on the disk from the directory of q down to that of `path`. */
  function Below(cwd: seq<string>, root: Clean, q: seq<string>, path: seq<string>): Option<seq<string>> {
    var top, place := At(cwd, root, q), At(cwd, root, path);
    if top <= place then Some(place[|top|..]) else None
  }

  /** The directory of `path` is not below that of q, or it is registered below q under the names that lead
      there, or it is spelled from q so that the check before a deletion does not let it pass. */
  predicate DirSafe(cwd: seq<string>, root: Clean, q: seq<string>, path: seq<string>) {
    match Below(cwd, root, q, path)
    case None => true
    case Some(down) => down == [] || q + down <= path || !SpelledBelow(root, PlaceOf(root, q).comps + down)
  }

  /** For a file, just the path that it was made with has to lead there from q. */
  predicate FileSafe(cwd: seq<string>, root: Clean, q: seq<string>, path: seq<string>, name: string) {
    match Below(cwd, root, q, path)
    case None => true
    case Some(down) => q + down == path || !SpelledBelow(root, PlaceOf(root, q).comps + down + [name])
  }

  lemma {:induction false} ManagedBelow(m: Managed, q: seq<string>, down: seq<string>)
    requires ManagedAt(m, q).Some?
    ensures ManagedAt(m, q + down) == ManagedAt(ManagedAt(m, q).value, down)
    decreases |q|
  {
    if q == [] {
      assert q + down == down;
    } else {
      assert (q + down)[0] == q[0] && (q + down)[1..] == q[1..] + down;
      ManagedBelow(m.subdirs[q[0]], q[1..], down);
    }
  }

  lemma {:induction false} PrefixManaged(m: Managed, path: seq<string>, k: nat)
    requires ManagedAt(m, path).Some? && k <= |path|
    ensures ManagedAt(m, path[..k]).Some?
    decreases k
  {
    if k > 0 {
      assert path[..k][1..] == path[1..][..k - 1];
      PrefixManaged(m.subdirs[path[0]], path[1..], k - 1);
    }
  }

  lemma DownPlain(cwd: seq<string>, root: Clean, q: seq<string>, path: seq<string>)
    requires PlainPath(cwd) && Normal(root.rooted, root.comps)
    requires Below(cwd, root, q, path).Some?
    ensures PlainPath(Below(cwd, root, q, path).value)
    ensures At(cwd, root, path) == At(cwd, root, q) + Below(cwd, root, q, path).value
  {
    hide Normal, At, PlainName;
    AtPlain(cwd, root, path);
  }

  // ----- What is safe survives -----

  lemma SafeDirSurvives(cwd: seq<string>, root: Clean, q: seq<string>, path: seq<string>, m: Managed, disk: Entries)
    requires PlainPath(cwd) && Normal(root.rooted, root.comps) && DirSafe(cwd, root, q, path)
    requires ManagedAt(m, q).Some? && ManagedAt(m, path).Some? && IsDir(NodeAt(disk, At(cwd, root, path)))
    ensures IsDir(NodeAt(AfterCleanUp(cwd, root, m, q, disk), At(cwd, root, path)))
  {
    hide Shrunk, CleanedAt, Normal, PlainName, At, IgnoredAbove, ManagedAt;
    var top, place, spelled := At(cwd, root, q), At(cwd, root, path), PlaceOf(root, q).comps;
    if IgnoredAbove(m, q) {
    } else if !(top <= place) || !IsDir(NodeAt(disk, top)) {
      CleanedElsewhere(disk, top, ManagedAt(m, q).value, root, spelled, place);
    } else {
      var down := Below(cwd, root, q, path).value;
      var sub, entries := ManagedAt(m, q).value, NodeAt(disk, top).value.entries;
      DownPlain(cwd, root, q, path);
      DirBelow(disk, top, down);
      CleanedBelow(disk, top, sub, root, spelled, down);
      if down == [] {
        Itself(Shrunk(sub, entries, root, spelled));
      } else if q + down <= path {
        assert path[..|q + down|] == q + down;
        PrefixManaged(m, path, |q + down|);
        ManagedBelow(m, q, down);
        ShrunkKeepsDir(sub, entries, root, spelled, down);
      } else {
        PlaceNormal(root, q);
        ShrunkUnreached(sub, entries, root, spelled, down);
      }
    }
  }

  lemma Itself(entries: Entries)
    ensures NodeAt(entries, []) == Some(DirNode(entries))
  {
  }

  lemma DirBelow(disk: Entries, top: seq<string>, down: seq<string>)
    requires IsDir(NodeAt(disk, top))
    ensures NodeAt(NodeAt(disk, top).value.entries, down) == NodeAt(disk, top + down)
  {
    if down == [] {
      assert top + down == top;
    } else {
      NodeAtConcat(disk, top, down);
    }
  }

  lemma SafeFileSurvives(cwd: seq<string>, root: Clean, q: seq<string>, path: seq<string>, name: string, m: Managed,
                         disk: Entries)
    requires PlainPath(cwd) && Normal(root.rooted, root.comps) && PlainName(name) && FileSafe(cwd, root, q, path, name)
    requires ManagedAt(m, q).Some? && HasFile(m, path, name) && IsFileAt(disk, At(cwd, root, path) + [name])
    ensures IsFileAt(AfterCleanUp(cwd, root, m, q, disk), At(cwd, root, path) + [name])
  {
    hide Shrunk, CleanedAt, Normal, PlainName, At, IgnoredAbove, ManagedAt;
    var top, place, spelled := At(cwd, root, q), At(cwd, root, path), PlaceOf(root, q).comps;
    var file := place + [name];
    if IgnoredAbove(m, q) {
    } else if !(top <= file) || !IsDir(NodeAt(disk, top)) {
      CleanedElsewhere(disk, top, ManagedAt(m, q).value, root, spelled, file);
    } else {
      NotItself(disk, top, file);
      assert place == file[..|place|] && top == file[..|top|];
      assert top <= place;
      var down := Below(cwd, root, q, path).value;
      var sub, entries := ManagedAt(m, q).value, NodeAt(disk, top).value.entries;
      DownPlain(cwd, root, q, path);
      assert file == top + (down + [name]);
      DirBelow(disk, top, down + [name]);
      CleanedBelow(disk, top, sub, root, spelled, down + [name]);
      if q + down == path {
        ManagedBelow(m, q, down);
        ShrunkKeepsFile(sub, entries, root, spelled, down, name);
      } else {
        PlaceNormal(root, q);
        assert spelled + (down + [name]) == spelled + down + [name];
        ShrunkUnreached(sub, entries, root, spelled, down + [name]);
      }
    }
  }

  lemma NotItself(disk: Entries, top: seq<string>, file: seq<string>)
    requires IsDir(NodeAt(disk, top)) && IsFileAt(disk, file)
    ensures top != file
  {
  }

  // ----- What is not safe can be lost -----

  /** A disk with one node on it. */
  function Only(path: seq<string>, node: Node): Entries
    requires path != []
    decreases |path|
  {
    map[path[0] := if |path| == 1 then node else DirNode(Only(path[1..], node))]
  }

  lemma {:induction false} OnlyAt(a: seq<string>, b: seq<string>, node: Node)
    requires b != []
    ensures NodeAt(Only(a + b, node), a) == Some(DirNode(Only(b, node)))
    ensures NodeAt(Only(a + b, node), a + b) == Some(node)
    decreases |a| + |b|
  {
    if a != [] {
      assert (a + b)[0] == a[0] && (a + b)[1..] == a[1..] + b;
      OnlyAt(a[1..], b, node);
    } else {
      assert a + b == b;
      if |b| > 1 {
        OnlyAt([], b[1..], node);
        assert [] + b[1..] == b[1..];
      } else {
        assert b[1..] == [];
        assert node.DirNode? ==> node == DirNode(node.entries);
      }
    }
  }

  /** Where only these paths and this file are registered. */
  function Bare(a: seq<string>, path: seq<string>, name: string): Managed {
    RegisterFile(Register(Register(NOTHING, a), path), path, name)
  }

  lemma BareAt(a: seq<string>, path: seq<string>, name: string, other: seq<string>)
    ensures var at := ManagedAt(Bare(a, path, name), other);
      && (at.Some? <==> other <= a || other <= path)
      && (at.Some? ==> !at.value.ignored && at.value.files == if other == path then {name} else {})
  {
    hide Register, RegisterFile;
    NothingAt(other);
    RegisterExact(NOTHING, a, other);
    RegisterExact(Register(NOTHING, a), path, other);
    RegisterFileExact(Register(Register(NOTHING, a), path), path, name, other);
  }

  lemma BareIgnored(a: seq<string>, path: seq<string>, name: string, q: seq<string>, down: seq<string>)
    requires q <= a || q <= path
    ensures ManagedAt(Bare(a, path, name), q).Some?
    ensures !IgnoredAbove(Bare(a, path, name), q)
    ensures !IgnoredAbove(ManagedAt(Bare(a, path, name), q).value, down)
  {
    hide ManagedAt, Bare;
    var m := Bare(a, path, name);
    BareAt(a, path, name, q);
    forall k | 0 <= k < |q| {
      BareAt(a, path, name, q[..k]);
    }
    forall k | 0 <= k < |down|
      ensures ManagedAt(ManagedAt(m, q).value, down[..k]).Some? ==>
                !ManagedAt(ManagedAt(m, q).value, down[..k]).value.ignored
    {
      ManagedBelow(m, q, down[..k]);
      BareAt(a, path, name, q + down[..k]);
    }
  }

  lemma {:induction false} SubRegistered(m: Managed, path: seq<string>, name: string)
    requires ManagedAt(m, path).Some? && name in ManagedAt(m, path).value.subdirs
    ensures ManagedAt(m, path + [name]).Some?
  {
    ManagedBelow(m, path, [name]);
    assert [name][1..] == [];
  }

  /** Only the directory is on disk; from q on, it is registered but for its own name. */
  lemma UnsafeNode(cwd: seq<string>, root: Clean, q: seq<string>, path: seq<string>, name: string, front: seq<string>,
                   last: string, node: Node, place: seq<string>)
    requires PlainPath(cwd) && Normal(root.rooted, root.comps) && PlainPath(front) && PlainName(last)
    requires place == At(cwd, root, q) + (front + [last])
    requires SpelledBelow(root, PlaceOf(root, q).comps + front + [last])
    requires if node.DirNode? then !(q + (front + [last]) <= path) else !(q + front == path && last == name)
    ensures var m := Bare(q + front, path, name);
      && ManagedAt(m, q).Some? && HasFile(m, path, name)
      && NodeAt(Only(place, node), place) == Some(node)
      && NodeAt(AfterCleanUp(cwd, root, m, q, Only(place, node)), place).None?
  {
    hide Bare, IgnoredAbove, ManagedAt, Shrunk, CleanedAt, At, Normal, PushAll, Only, RelFrom;
    var m, top, spelled, down := Bare(q + front, path, name), At(cwd, root, q), PlaceOf(root, q).comps, front + [last];
    BareIgnored(q + front, path, name, q, down);
    BareAt(q + front, path, name, path);
    var sub := ManagedAt(m, q).value;
    OnlyAt(top, down, node);
    OnlyAt([], down, node);
    assert [] + down == down;
    CleanedBelow(Only(place, node), top, sub, root, spelled, down);
    ManagedBelow(m, q, front);
    BareAt(q + front, path, name, q + front);
    NotKept(q, path, name, front, last, node);
    PlaceNormal(root, q);
    PlainBelow(root, spelled, front);
    DeletableExact(root, spelled + front, last);
    ShrunkLoses(sub, Only(down, node), root, spelled, front, last);
  }

  lemma NotKept(q: seq<string>, path: seq<string>, name: string, front: seq<string>, last: string, node: Node)
    requires if node.DirNode? then !(q + (front + [last]) <= path) else !(q + front == path && last == name)
    ensures var m := Bare(q + front, path, name);
      ManagedAt(m, q + front).Some? && !Keeps(ManagedAt(m, q + front).value, last, node)
  {
    hide Bare, ManagedAt;
    var m := Bare(q + front, path, name);
    BareAt(q + front, path, name, q + front);
    assert q + front + [last] == q + (front + [last]);
    if node.DirNode? && last in ManagedAt(m, q + front).value.subdirs {
      SubRegistered(m, q + front, last);
      BareAt(q + front, path, name, q + front + [last]);
    }
  }

  lemma {:induction false} PlainBelow(root: Clean, place: seq<string>, path: seq<string>)
    requires Normal(root.rooted, place) && PlainPath(path)
    ensures Normal(root.rooted, place + path)
  {
    if path != [] {
      hide Normal, PlainName;
      PlainBelow(root, place, path[..|path| - 1]);
      AppendPlain(root.rooted, place + path[..|path| - 1], path[|path| - 1]);
      assert place + path == place + path[..|path| - 1] + [path[|path| - 1]];
    } else {
      assert place + path == place;
    }
  }

  lemma UnsafeDirLost(cwd: seq<string>, root: Clean, q: seq<string>, path: seq<string>)
    requires PlainPath(cwd) && Normal(root.rooted, root.comps) && !DirSafe(cwd, root, q, path)
    ensures !DirSurvives(cwd, root, q, path)
  {
    hide Bare, ManagedAt, At, Normal, Only, AfterCleanUp, PlainName;
    DownPlain(cwd, root, q, path);
    var down, place := Below(cwd, root, q, path).value, At(cwd, root, path);
    var front, last := down[..|down| - 1], down[|down| - 1];
    assert down == front + [last];
    ConcatAssociative(PlaceOf(root, q).comps, front, [last]);
    UnsafeNode(cwd, root, q, path, "", front, last, DirNode(map[]), place);
    var m, disk := Bare(q + front, path, ""), Only(place, DirNode(map[]));
    assert !IsDir(NodeAt(AfterCleanUp(cwd, root, m, q, disk), place));
  }

  lemma UnsafeFileLost(cwd: seq<string>, root: Clean, q: seq<string>, path: seq<string>, name: string)
    requires PlainPath(cwd) && Normal(root.rooted, root.comps) && PlainName(name)
    requires !FileSafe(cwd, root, q, path, name)
    ensures !FileSurvives(cwd, root, q, path, name)
  {
    hide Bare, ManagedAt, At, Normal, Only, AfterCleanUp, PlainName;
    DownPlain(cwd, root, q, path);
    var front := Below(cwd, root, q, path).value;
    var file := At(cwd, root, path) + [name];
    ConcatAssociative(At(cwd, root, q), front, [name]);
    UnsafeNode(cwd, root, q, path, name, front, name, FileNode, file);
    var m, disk := Bare(q + front, path, name), Only(file, FileNode);
    assert !IsFileAt(AfterCleanUp(cwd, root, m, q, disk), file);
  }

  // ----- Exactly what survives -----

  /** A directory made with EnsureDirectory, and a file made in it, survive the cleanup of any registered
      directory, whatever else is registered or on disk, if and only if they are safe from it; and they are
      when no name of either path is `.` or `..`. A file can only be made under a plain name. */
  lemma EnsuredSurvives(cwd: seq<string>, root: Clean, q: seq<string>, path: seq<string>, name: string)
    requires PlainPath(cwd) && Normal(root.rooted, root.comps) && PlainName(name)
    ensures DirSurvives(cwd, root, q, path) <==> DirSafe(cwd, root, q, path)
    ensures FileSurvives(cwd, root, q, path, name) <==> FileSafe(cwd, root, q, path, name)
    ensures PlainPath(q) && PlainPath(path) ==>
      DirSurvives(cwd, root, q, path) && FileSurvives(cwd, root, q, path, name)
  {
    hide AfterCleanUp, At, Normal, ManagedAt, NodeAt, PlainName;
    if PlainPath(q) && PlainPath(path) {
      PlainSafe(cwd, root, q, path, name);
    }
    if DirSafe(cwd, root, q, path) {
      forall m, disk | ManagedAt(m, q).Some? && ManagedAt(m, path).Some? && IsDir(NodeAt(disk, At(cwd, root, path)))
        ensures IsDir(NodeAt(AfterCleanUp(cwd, root, m, q, disk), At(cwd, root, path)))
      {
        SafeDirSurvives(cwd, root, q, path, m, disk);
      }
    } else {
      UnsafeDirLost(cwd, root, q, path);
    }
    if FileSafe(cwd, root, q, path, name) {
      forall m, disk | ManagedAt(m, q).Some? && HasFile(m, path, name) && IsFileAt(disk, At(cwd, root, path) + [name])
        ensures IsFileAt(AfterCleanUp(cwd, root, m, q, disk), At(cwd, root, path) + [name])
      {
        SafeFileSurvives(cwd, root, q, path, name, m, disk);
      }
    } else {
      UnsafeFileLost(cwd, root, q, path, name);
    }
  }

  lemma PlainSafe(cwd: seq<string>, root: Clean, q: seq<string>, path: seq<string>, name: string)
    requires Normal(root.rooted, root.comps) && PlainPath(q) && PlainPath(path)
    ensures DirSafe(cwd, root, q, path) && FileSafe(cwd, root, q, path, name)
  {
    hide At, Normal, PlainName;
    PlainAt(cwd, root, q);
    PlainAt(cwd, root, path);
    var base := At(cwd, root, []);
    if base + q <= base + path {
      assert (base + path)[|base + q|..] == path[|q|..];
      assert q == (base + q)[|base|..] && path == (base + path)[|base|..];
      assert q + path[|q|..] == path;
    }
  }

  /** For the cleanup of the base this says: the directory is made outside of the tree, or at a beginning of
      its path; the file, outside of the tree, or with plain names only. Or nothing is ever deleted, since
      the root is `/` or `.`. */
  lemma SafeFromBase(cwd: seq<string>, root: Clean, path: seq<string>, name: string)
    requires PlainPath(cwd) && Normal(root.rooted, root.comps)
    ensures var down := Below(cwd, root, [], path);
      && (DirSafe(cwd, root, [], path) <==> root.comps == [] || down.None? || down.value <= path)
      && (FileSafe(cwd, root, [], path, name) <==> root.comps == [] || down.None? || PlainPath(path))
  {
    hide At, Normal, PlainName;
    PlainAt(cwd, root, []);
    if Below(cwd, root, [], path).Some? {
      var down := Below(cwd, root, [], path).value;
      DownPlain(cwd, root, [], path);
      assert [] + down == down && root.comps + [] == root.comps;
      assert root.comps <= root.comps + down && root.comps <= root.comps + down + [name];
      if PlainPath(path) {
        PlainAt(cwd, root, path);
        assert (At(cwd, root, []) + path)[|At(cwd, root, [])|..] == path;
      }
    }
  }

  // ----- Two ways to lose what was made -----

  lemma UpAgain(root: Clean, path: seq<string>, a: string)
    requires Normal(root.rooted, root.comps) && PlainName(a)
    ensures RelFrom([], [a, ".."] + path) == RelFrom([], path)
    ensures PlaceOf(root, [a, ".."] + path) == PlaceOf(root, path)
  {
    hide Normal;
    RelFromConcat([], [a, ".."], path);
    ComponentsPath([], [a, ".."]);
    assert [a, ".."][1..] == [".."] && [".."][1..] == [];
    assert Push(false, [], a) == [a] && Push(false, [a], "..") == [];
    assert PushAll(false, [], [a, ".."]) == PushAll(false, [a], [".."]) == PushAll(false, [], []);
  }

  /** The directory made as `a`, `..`, `b` is deleted by the cleanup of the base, with the file in it. */
  lemma DotDotLost(cwd: seq<string>, root: Clean, a: string, b: string, name: string)
    requires PlainPath(cwd) && Normal(root.rooted, root.comps) && root.comps != []
    requires PlainName(a) && PlainName(b) && a != b && PlainName(name)
    ensures var path := [a, "..", b];
      && At(cwd, root, path) == At(cwd, root, []) + [b]
      && !DirSurvives(cwd, root, [], path) && !FileSurvives(cwd, root, [], path, name)
  {
    hide At, Normal, DirSurvives, FileSurvives;
    var path := [a, "..", b];
    assert path == [a, ".."] + [b];
    UpAgain(root, [b], a);
    PlainAt(cwd, root, [b]);
    assert At(cwd, root, path) == At(cwd, root, [b]) by { SamePlace(cwd, root, path, [b]); }
    assert (At(cwd, root, []) + [b])[|At(cwd, root, [])|..] == [b];
    SafeFromBase(cwd, root, path, name);
    assert !PlainName(path[1]);
    EnsuredSurvives(cwd, root, [], path, name);
  }

  lemma SamePlace(cwd: seq<string>, root: Clean, a: seq<string>, b: seq<string>)
    requires PlaceOf(root, a) == PlaceOf(root, b)
    ensures At(cwd, root, a) == At(cwd, root, b)
  {
  }

  /** What is registered when a file is made in c, and then the directory `a`, `..`. */
  function Alias(a: string, c: string, name: string, ignored: bool): Managed {
    Managed(false, map[c := Managed(ignored, map[], {name}), a := Register(NOTHING, [".."])], {})
  }

  /** The directory registered as `a`, `..` is the base under another name, with nothing registered in it: its
      cleanup deletes everything, be it made with plain names only, or ignored. */
  lemma AliasLost(cwd: seq<string>, root: Clean, a: string, c: string, name: string, ignored: bool)
    requires PlainPath(cwd) && Normal(root.rooted, root.comps) && root.comps != []
    requires PlainName(a) && PlainName(c) && a != c && PlainName(name)
    ensures var q := [a, ".."];
      && At(cwd, root, q) == At(cwd, root, [])
      && !DirSurvives(cwd, root, q, [c]) && !FileSurvives(cwd, root, q, [c], name)
    ensures var q, m := [a, ".."], Alias(a, c, name, ignored);
      && HasFile(m, [c], name) && ManagedAt(m, q) == Some(NOTHING) && !IgnoredAbove(m, q)
    ensures forall entries :: Cleaned(NOTHING, entries) == map[]
    ensures Shrunk(NOTHING, map[c := DirNode(map[name := FileNode])], root, PlaceOf(root, [a, ".."]).comps) == map[]
  {
    hide At, Normal, DirSurvives, FileSurvives, Deletable, PlainName;
    var q := [a, ".."];
    assert q == [a, ".."] + [];
    UpAgain(root, [], a);
    SamePlace(cwd, root, q, []);
    PlainAt(cwd, root, []);
    PlainAt(cwd, root, [c]);
    assert root.comps + [] == root.comps;
    assert (At(cwd, root, []) + [c])[|At(cwd, root, [])|..] == [c];
    assert !(q + [c] <= [c]) && q + [c] != [c];
    assert root.comps <= root.comps + [c] && root.comps <= root.comps + [c] + [name];
    EnsuredSurvives(cwd, root, q, [c], name);
    DeletableExact(root, root.comps, c);
    AliasRegistry(a, c, name, ignored);
  }

  lemma AliasRegistry(a: string, c: string, name: string, ignored: bool)
    requires a != c
    ensures var q, m := [a, ".."], Alias(a, c, name, ignored);
      && HasFile(m, [c], name) && ManagedAt(m, q) == Some(NOTHING) && !IgnoredAbove(m, q)
  {
    var q, m := [a, ".."], Alias(a, c, name, ignored);
    assert q[1..] == [".."] && [".."][1..] == [] && [c][1..] == [];
    RegisterOne(NOTHING, "..");
    AboveFirst(m, q);
    AboveFirst(m.subdirs[a], [".."]);
  }
}
