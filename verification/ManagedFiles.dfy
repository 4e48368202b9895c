/** A managed directory tree, what is registered in it, and what a cleanup leaves
    (deploytool/managedfs/filesystem.go:83-326). */
module ManagedFiles {

  import opened Text
  import opened CleanPaths
  import opened ManagedPlaces

  // ----- Values -----

  /** What is on disk. Everything that is not a directory is a file here. */
  datatype Node = FileNode | DirNode(entries: Entries)

  type Entries = map<string, Node>

  /** What is registered below a directory. */
  datatype Managed = Managed(ignored: bool, subdirs: map<string, Managed>, files: set<string>)

  const NOTHING := Managed(false, map[], {})

  function NodeAt(entries: Entries, path: seq<string>): Option<Node>
    decreases |path|
  {
    if path == [] then Some(DirNode(entries))
    else if path[0] !in entries then None
    else
      match entries[path[0]]
      case FileNode => if |path| == 1 then Some(FileNode) else None
      case DirNode(below) => NodeAt(below, path[1..])
  }

  ghost predicate IsDir(node: Option<Node>) {
    node.Some? && node.value.DirNode?
  }

  function ManagedAt(m: Managed, path: seq<string>): Option<Managed>
    decreases |path|
  {
    if path == [] then Some(m)
    else if path[0] !in m.subdirs then None
    else ManagedAt(m.subdirs[path[0]], path[1..])
  }

  /** GetSubDirectory registers every directory on the way. */
  function Register(m: Managed, path: seq<string>): Managed
    decreases |path|
  {
    if path == [] then m
    else
      var sub := if path[0] in m.subdirs then m.subdirs[path[0]] else NOTHING;
      m.(subdirs := m.subdirs[path[0] := Register(sub, path[1..])])
  }

  function WithFile(m: Managed, name: string): Managed {
    m.(files := m.files + {name})
  }

  /** File on the directory at a registered path. */
  function RegisterFile(m: Managed, path: seq<string>, name: string): Managed
    decreases |path|
  {
    if path == [] then WithFile(m, name)
    else if path[0] !in m.subdirs then m
    else m.(subdirs := m.subdirs[path[0] := RegisterFile(m.subdirs[path[0]], path[1..], name)])
  }

  /** Whether an entry stays where it is. */
  predicate Keeps(m: Managed, name: string, node: Node) {
    if node.DirNode? then name in m.subdirs else name in m.files
  }

  /** What cleanup leaves of a directory. */
  function Cleaned(m: Managed, entries: Entries): Entries
    decreases m
  {
    if m.ignored then entries
    else
      map name | name in entries && Keeps(m, name, entries[name]) ::
        if entries[name].DirNode? then DirNode(Cleaned(m.subdirs[name], entries[name].entries)) else FileNode
  }

  // ----- What survives -----

  ghost predicate IgnoredAbove(m: Managed, path: seq<string>) {
    exists k | 0 <= k < |path| :: ManagedAt(m, path[..k]).Some? && ManagedAt(m, path[..k]).value.ignored
  }

  /** A registered file or directory, in directories that are all registered. */
  ghost predicate Registered(m: Managed, path: seq<string>, node: Node)
    requires path != []
  {
    var last := |path| - 1;
    ManagedAt(m, path[..last]).Some? && Keeps(ManagedAt(m, path[..last]).value, path[last], node)
  }

  lemma {:induction false} AboveFirst(m: Managed, path: seq<string>)
    requires path != []
    ensures IgnoredAbove(m, path) <==>
      m.ignored || (path[0] in m.subdirs && IgnoredAbove(m.subdirs[path[0]], path[1..]))
  {
    assert ManagedAt(m, path[..0]) == Some(m);
    forall k | 0 < k < |path| && path[0] in m.subdirs
      ensures ManagedAt(m, path[..k]) == ManagedAt(m.subdirs[path[0]], path[1..][..k - 1])
    {
      assert path[..k][1..] == path[1..][..k - 1];
    }
    if path[0] in m.subdirs && IgnoredAbove(m.subdirs[path[0]], path[1..]) {
      var j :| 0 <= j < |path[1..]| && ManagedAt(m.subdirs[path[0]], path[1..][..j]).Some?
        && ManagedAt(m.subdirs[path[0]], path[1..][..j]).value.ignored;
      assert ManagedAt(m, path[..j + 1]).value.ignored;
    }
    if IgnoredAbove(m, path) && !m.ignored {
      var k :| 0 <= k < |path| && ManagedAt(m, path[..k]).Some? && ManagedAt(m, path[..k]).value.ignored;
      assert k > 0 && path[..k][0] == path[0];
      assert ManagedAt(m.subdirs[path[0]], path[1..][..k - 1]).value.ignored;
    }
  }

  lemma RegisteredFirst(m: Managed, path: seq<string>, node: Node)
    requires |path| > 1
    ensures Registered(m, path, node) <==> path[0] in m.subdirs && Registered(m.subdirs[path[0]], path[1..], node)
  {
    assert path[..|path| - 1][1..] == path[1..][..|path| - 2];
  }

  /** After cleanup an entry is there, unchanged if it is a file, if and only if it was there before and
      is a registered file or directory, or lies below an ignored one. */
  lemma {:induction false} CleanedExact(m: Managed, entries: Entries, path: seq<string>)
    requires path != []
    ensures NodeAt(Cleaned(m, entries), path).Some? <==>
      NodeAt(entries, path).Some? && (IgnoredAbove(m, path) || Registered(m, path, NodeAt(entries, path).value))
    ensures NodeAt(Cleaned(m, entries), path).Some? ==>
      NodeAt(Cleaned(m, entries), path).value.FileNode? == NodeAt(entries, path).value.FileNode?
    ensures IgnoredAbove(m, path) ==> NodeAt(Cleaned(m, entries), path) == NodeAt(entries, path)
    decreases |path|
  {
    var name := path[0];
    AboveFirst(m, path);
    assert path[..0] == [];
    if !m.ignored && name in entries && name in m.subdirs && entries[name].DirNode? && |path| > 1 {
      CleanedExact(m.subdirs[name], entries[name].entries, path[1..]);
      RegisteredFirst(m, path, FileNode);
      forall below
        ensures Registered(m, path, DirNode(below)) <==> Registered(m.subdirs[name], path[1..], DirNode(below))
      {
        RegisteredFirst(m, path, DirNode(below));
      }
    } else if |path| > 1 {
      RegisteredFirst(m, path, FileNode);
      RegisteredFirst(m, path, DirNode(map[]));
    }
  }

  // ----- Registering -----

  /** Registering a path makes every directory on it registered, and keeps all that was. */
  lemma {:induction false} RegisterReaches(m: Managed, path: seq<string>, other: seq<string>)
    ensures ManagedAt(Register(m, path), path).Some?
    ensures ManagedAt(m, other).Some? ==>
      && ManagedAt(Register(m, path), other).Some?
      && var before, after := ManagedAt(m, other).value, ManagedAt(Register(m, path), other).value;
         before.ignored == after.ignored && before.files == after.files && before.subdirs.Keys <= after.subdirs.Keys
    decreases |path| + |other|
  {
    if path != [] {
      var sub := if path[0] in m.subdirs then m.subdirs[path[0]] else NOTHING;
      RegisterReaches(sub, path[1..], if other != [] then other[1..] else []);
    }
  }

  lemma {:induction false} FileReaches(m: Managed, path: seq<string>, name: string, other: seq<string>)
    requires ManagedAt(m, path).Some?
    ensures ManagedAt(RegisterFile(m, path, name), path).Some?
    ensures name in ManagedAt(RegisterFile(m, path, name), path).value.files
    ensures ManagedAt(m, other).Some? ==>
      && ManagedAt(RegisterFile(m, path, name), other).Some?
      && var before, after := ManagedAt(m, other).value, ManagedAt(RegisterFile(m, path, name), other).value;
         before.ignored == after.ignored && before.files <= after.files && before.subdirs.Keys == after.subdirs.Keys
    decreases |path| + |other|
  {
    if path != [] {
      FileReaches(m.subdirs[path[0]], path[1..], name, if other != [] && other[0] == path[0] then other[1..] else []);
    }
  }

  lemma RegisterOne(m: Managed, elem: string)
    ensures var sub := if elem in m.subdirs then m.subdirs[elem] else NOTHING;
      Register(m, [elem]) == m.(subdirs := m.subdirs[elem := sub])
  {
    assert [elem][1..] == [];
  }

  /** What was registered stays registered when more is. */
  lemma StaysRegistered(m: Managed, path: seq<string>, other: seq<string>, node: Node)
    requires other != [] && Registered(m, other, node)
    ensures Registered(Register(m, path), other, node)
    ensures forall name | ManagedAt(m, path).Some? :: Registered(RegisterFile(m, path, name), other, node)
  {
    RegisterReaches(m, path, other[..|other| - 1]);
    forall name | ManagedAt(m, path).Some? ensures Registered(RegisterFile(m, path, name), other, node) {
      FileReaches(m, path, name, other[..|other| - 1]);
    }
  }

  /** Registering a path adds it, and nothing else. */
  lemma {:induction false} RegisterExact(m: Managed, path: seq<string>, other: seq<string>)
    ensures var before, after := ManagedAt(m, other), ManagedAt(Register(m, path), other);
      && (after.Some? <==> before.Some? || other <= path)
      && (after.Some? ==>
            && after.value.ignored == (before.Some? && before.value.ignored)
            && after.value.files == if before.Some? then before.value.files else {})
    decreases |path| + |other|
  {
    if path != [] && other != [] {
      var sub := if path[0] in m.subdirs then m.subdirs[path[0]] else NOTHING;
      RegisterExact(sub, path[1..], other[1..]);
      assert path == [path[0]] + path[1..] && other == [other[0]] + other[1..];
      NothingAt(other[1..]);
    }
  }

  lemma NothingAt(path: seq<string>)
    ensures ManagedAt(NOTHING, path) == if path == [] then Some(NOTHING) else None
  {
  }

  lemma {:induction false} RegisterFileExact(m: Managed, path: seq<string>, name: string, other: seq<string>)
    ensures var before, after := ManagedAt(m, other), ManagedAt(RegisterFile(m, path, name), other);
      && (after.Some? <==> before.Some?)
      && (after.Some? ==>
            && after.value.ignored == before.value.ignored
            && after.value.files == if other == path then before.value.files + {name} else before.value.files)
    decreases |path| + |other|
  {
    if path != [] && other != [] && path[0] in m.subdirs {
      RegisterFileExact(m.subdirs[path[0]], path[1..], name, other[1..]);
      assert path == [path[0]] + path[1..] && other == [other[0]] + other[1..];
    }
  }

  // ----- The most that is deleted -----

  /** What is left of a directory at `place` when everything is deleted that may be: an entry that a cleanup
      would delete and must not stays, with all that is in it. */
  function Shrunk(m: Managed, entries: Entries, root: Clean, place: seq<string>): Entries
    decreases m
  {
    if m.ignored then entries
    else
      map name | name in entries && (Keeps(m, name, entries[name]) || !Deletable(root, place + [name])) ::
        if entries[name].DirNode? && name in m.subdirs
        then DirNode(Shrunk(m.subdirs[name], entries[name].entries, root, place + [name]))
        else entries[name]
  }

  /** b has all that a has, and no file in the place of a directory. */
  predicate Within(a: Node, b: Node)
    decreases a
  {
    && a.DirNode? == b.DirNode?
    && (a.DirNode? ==> forall name | name in a.entries :: name in b.entries && Within(a.entries[name], b.entries[name]))
  }

  lemma {:induction false} WithinSelf(a: Node)
    ensures Within(a, a)
    decreases a
  {
    if a.DirNode? {
      forall name | name in a.entries ensures Within(a.entries[name], a.entries[name]) {
        WithinSelf(a.entries[name]);
      }
    }
  }

  /** What the smaller tree has at a path, the larger one has too. */
  lemma {:induction false} WithinAt(a: Entries, b: Entries, path: seq<string>)
    requires Within(DirNode(a), DirNode(b)) && NodeAt(a, path).Some?
    ensures NodeAt(b, path).Some? && NodeAt(b, path).value.DirNode? == NodeAt(a, path).value.DirNode?
    decreases |path|
  {
    if path != [] {
      assert Within(a[path[0]], b[path[0]]);
      if a[path[0]].DirNode? {
        WithinAt(a[path[0]].entries, b[path[0]].entries, path[1..]);
      }
    }
  }

  lemma {:induction false} ShrunkWithin(m: Managed, entries: Entries, root: Clean, place: seq<string>)
    ensures Within(DirNode(Shrunk(m, entries, root, place)), DirNode(entries))
    decreases m
  {
    hide Deletable;
    if m.ignored {
      WithinSelf(DirNode(entries));
    } else {
      var kept := Shrunk(m, entries, root, place);
      forall name | name in kept ensures Within(kept[name], entries[name]) {
        if entries[name].DirNode? && name in m.subdirs {
          ShrunkWithin(m.subdirs[name], entries[name].entries, root, place + [name]);
        } else {
          WithinSelf(entries[name]);
        }
      }
    }
  }

  /** The kind of what is at a path does not change. */
  predicate SameKind(a: Option<Node>, b: Option<Node>) {
    a.Some? == b.Some? && (a.Some? ==> a.value.DirNode? == b.value.DirNode?)
  }

  /** A registered directory stays, wherever it is. */
  lemma {:induction false} ShrunkKeepsDir(m: Managed, entries: Entries, root: Clean, place: seq<string>,
                                          path: seq<string>)
    requires ManagedAt(m, path).Some? && IsDir(NodeAt(entries, path))
    ensures IsDir(NodeAt(Shrunk(m, entries, root, place), path))
    decreases |path|
  {
    hide Deletable;
    if !m.ignored && path != [] {
      if |path| > 1 {
        ShrunkKeepsDir(m.subdirs[path[0]], entries[path[0]].entries, root, place + [path[0]], path[1..]);
      } else {
        assert path[1..] == [];
      }
    }
  }

  lemma {:induction false} ShrunkKeepsFile(m: Managed, entries: Entries, root: Clean, place: seq<string>,
                                           path: seq<string>, name: string)
    requires ManagedAt(m, path).Some? && name in ManagedAt(m, path).value.files
    requires NodeAt(entries, path + [name]) == Some(FileNode)
    ensures NodeAt(Shrunk(m, entries, root, place), path + [name]) == Some(FileNode)
    decreases |path|
  {
    hide Deletable;
    var file := path + [name];
    if !m.ignored && path != [] {
      assert file[0] == path[0] && file[1..] == path[1..] + [name];
      ShrunkKeepsFile(m.subdirs[path[0]], entries[path[0]].entries, root, place + [path[0]], path[1..], name);
    } else {
      assert path == [] ==> file == [name];
    }
  }

  /** Where the check does not let through, everything stays. */
  lemma {:induction false} ShrunkUnreached(m: Managed, entries: Entries, root: Clean, place: seq<string>,
                                           path: seq<string>)
    requires Normal(root.rooted, root.comps) && Normal(root.rooted, place) && PlainPath(path)
    requires !SpelledBelow(root, place + path)
    ensures SameKind(NodeAt(Shrunk(m, entries, root, place), path), NodeAt(entries, path))
    decreases |path|
  {
    hide Deletable, Normal;
    if !m.ignored && path != [] {
      var name := path[0];
      DeletableExact(root, place, name);
      AppendPlain(root.rooted, place, name);
      assert place + path == (place + [name]) + path[1..];
      assert root.comps <= place + [name] ==> root.comps <= (place + [name]) + path[1..];
      if name in entries && entries[name].DirNode? && name in m.subdirs {
        ShrunkUnreached(m.subdirs[name], entries[name].entries, root, place + [name], path[1..]);
      }
    }
  }

  /** An entry that is not registered in a directory that is, and that the check lets pass, is deleted. */
  lemma {:induction false} ShrunkLoses(m: Managed, entries: Entries, root: Clean, place: seq<string>,
                                       path: seq<string>, name: string)
    requires ManagedAt(m, path).Some? && !IgnoredAbove(m, path + [name]) && NodeAt(entries, path + [name]).Some?
    requires !Keeps(ManagedAt(m, path).value, name, NodeAt(entries, path + [name]).value)
    requires Deletable(root, place + path + [name])
    ensures NodeAt(Shrunk(m, entries, root, place), path + [name]).None?
    decreases |path|
  {
    hide Deletable;
    var whole := path + [name];
    AboveFirst(m, whole);
    if path != [] {
      assert whole[0] == path[0] && whole[1..] == path[1..] + [name];
      assert place + path + [name] == (place + [path[0]]) + path[1..] + [name];
      ShrunkLoses(m.subdirs[path[0]], entries[path[0]].entries, root, place + [path[0]], path[1..], name);
    } else {
      assert whole == [name] && place + path + [name] == place + [name] && whole[1..] == [];
      hide Cleaned;
      assert entries[name].DirNode? ==> NodeAt(entries[name].entries, []) == Some(entries[name]);
    }
  }
}
