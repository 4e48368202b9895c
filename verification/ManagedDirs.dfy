/** The objects of a managed tree, and the cleanup of one of them
    (deploytool/managedfs/filesystem.go:83-326). */
module ManagedDirs {

  import opened Text
  import opened CleanPaths
  import opened ManagedPlaces
  import opened ManagedFiles

  // ----- When a cleanup panics -----

  /** What a disk holds has plain names. */
  predicate PlainNode(node: Node) {
    node.DirNode? ==> forall name | name in node.entries :: PlainName(name) && PlainNode(node.entries[name])
  }

  /** The cleanup of the directory at `place` comes to an entry that it would delete and must not. */
  predicate Panics(m: Managed, entries: Entries, root: Clean, place: seq<string>)
    decreases m
  {
    !m.ignored && exists name | name in entries :: PanicsAt(m, entries, root, place, name)
  }

  predicate PanicsAt(m: Managed, entries: Entries, root: Clean, place: seq<string>, name: string)
    requires name in entries
    decreases m, 0
  {
    if entries[name].DirNode? && name in m.subdirs
    then Panics(m.subdirs[name], entries[name].entries, root, place + [name])
    else !Keeps(m, name, entries[name]) && !Deletable(root, place + [name])
  }

  /** Under a root that is not `/` or `.`, in a directory that is spelled as the root, with or without more
      behind it, no cleanup panics. */
  lemma {:induction false} NoPanicBelow(m: Managed, entries: Entries, root: Clean, place: seq<string>)
    requires Normal(root.rooted, root.comps) && Normal(root.rooted, place) && PlainNode(DirNode(entries))
    requires SpelledBelow(root, place)
    ensures !Panics(m, entries, root, place)
    decreases m
  {
    hide Deletable, Normal;
    forall name | name in entries ensures !PanicsAt(m, entries, root, place, name) {
      assert PlainName(name) && PlainNode(entries[name]);
      DeletableExact(root, place, name);
      AppendPlain(root.rooted, place, name);
      if entries[name].DirNode? && name in m.subdirs {
        assert PlainNode(DirNode(entries[name].entries));
        NoPanicBelow(m.subdirs[name], entries[name].entries, root, place + [name]);
      }
    }
  }

  /** A name that leads to a place which is not below the root. */
  function Elsewhere(root: Clean, place: seq<string>): (name: string)
    ensures PlainName(name)
    ensures root.comps != [] && !(root.comps <= place) ==> !(root.comps <= place + [name])
  {
    var name := if |root.comps| == |place| + 1 && root.comps[|place|] == "x" then "y" else "x";
    assert root.comps <= place + [name] && |root.comps| <= |place| ==> root.comps <= place;
    name
  }

  /** A cleanup can panic exactly when its directory is not spelled as the root, with or without more behind
      it, or the root is `/` or `.`, for which the check always fails. Below the root `..`, `../..` is
      spelled like that too. */
  lemma PanicExact(root: Clean, place: seq<string>)
    requires Normal(root.rooted, root.comps) && Normal(root.rooted, place)
    ensures (exists m, entries | PlainNode(DirNode(entries)) :: Panics(m, entries, root, place))
            <==> !SpelledBelow(root, place)
  {
    hide Deletable, Normal, Panics;
    if SpelledBelow(root, place) {
      forall m, entries | PlainNode(DirNode(entries)) ensures !Panics(m, entries, root, place) {
        NoPanicBelow(m, entries, root, place);
      }
    } else {
      var name := Elsewhere(root, place);
      DeletableExact(root, place, name);
      var entries := map[name := FileNode];
      assert PlainNode(DirNode(entries));
      PanicsOnly(root, place, name);
    }
  }

  lemma PanicsOnly(root: Clean, place: seq<string>, name: string)
    requires !Deletable(root, place + [name])
    ensures Panics(NOTHING, map[name := FileNode], root, place)
  {
    hide Deletable;
    assert PanicsAt(NOTHING, map[name := FileNode], root, place, name);
  }

  /** Under the root `/` or `.` a cleanup panics whenever there is anything to delete. */
  lemma {:induction false} BareRootPanics(m: Managed, entries: Entries, root: Clean, place: seq<string>)
    requires Normal(root.rooted, root.comps) && Normal(root.rooted, place) && PlainNode(DirNode(entries))
    requires root.comps == []
    ensures Panics(m, entries, root, place) <==> Cleaned(m, entries) != entries
    decreases m
  {
    hide Deletable, Normal;
    forall name | name in entries
      ensures PanicsAt(m, entries, root, place, name) <==>
        if entries[name].DirNode? && name in m.subdirs
        then Cleaned(m.subdirs[name], entries[name].entries) != entries[name].entries
        else !Keeps(m, name, entries[name])
    {
      assert PlainName(name) && PlainNode(entries[name]);
      DeletableExact(root, place, name);
      AppendPlain(root.rooted, place, name);
      if entries[name].DirNode? && name in m.subdirs {
        assert PlainNode(DirNode(entries[name].entries));
        BareRootPanics(m.subdirs[name], entries[name].entries, root, place + [name]);
      }
    }
    if !m.ignored {
      forall name | name in entries
        ensures !PanicsAt(m, entries, root, place, name) <==>
          name in Cleaned(m, entries) && Cleaned(m, entries)[name] == entries[name]
      {
      }
    }
  }

  /** What becomes of one entry. */
  function Fate(m: Managed, name: string, node: Node): Option<Node> {
    if !Keeps(m, name, node) then None
    else if node.DirNode? then Some(DirNode(Cleaned(m.subdirs[name], node.entries)))
    else Some(FileNode)
  }

  /** A cleanup that does not panic deletes the most that any does. */
  lemma {:induction false} CalmShrinks(m: Managed, entries: Entries, root: Clean, place: seq<string>)
    requires !Panics(m, entries, root, place)
    ensures Shrunk(m, entries, root, place) == Cleaned(m, entries)
    decreases m
  {
    hide Deletable;
    if !m.ignored {
      forall name | name in entries
        ensures name in Shrunk(m, entries, root, place) <==> name in Cleaned(m, entries)
        ensures name in Cleaned(m, entries) ==> Shrunk(m, entries, root, place)[name] == Cleaned(m, entries)[name]
      {
        assert !PanicsAt(m, entries, root, place, name);
        if entries[name].DirNode? && name in m.subdirs {
          CalmShrinks(m.subdirs[name], entries[name].entries, root, place + [name]);
        }
      }
    }
  }

  /** What a cleanup may leave, even if it panics on the way: all that is never deleted, and nothing that was
      not there. */
  predicate Between(least: Entries, kept: Entries, entries: Entries) {
    Within(DirNode(least), DirNode(kept)) && Within(DirNode(kept), DirNode(entries))
  }

  /** The same of one entry. */
  predicate BetweenAt(m: Managed, entries: Entries, root: Clean, place: seq<string>, name: string, left: Node)
    requires name in entries
  {
    var least := Shrunk(m, entries, root, place);
    (name in least ==> Within(least[name], left)) && Within(left, entries[name])
  }

  // ----- Directory objects -----

  /** Dir. No directory is below itself. */
  class Dir {
    const parent: Dir?
    const relPath: seq<string>
    var ignored: bool
    var subdirs: map<string, Dir>
    var files: set<string>
    ghost var Repr: set<object>

    ghost predicate Valid()
      reads this, Repr
      decreases Repr
    {
      && this in Repr && Normal(false, relPath)
      && (forall n | n in subdirs ::
            && subdirs[n] in Repr && subdirs[n].Repr < Repr && this !in subdirs[n].Repr && subdirs[n].Valid()
            && subdirs[n].parent == this && subdirs[n].relPath == SubPath(relPath, n))
    }

    ghost function Value(): Managed
      requires Valid()
      reads this, Repr
      decreases Repr
    {
      Managed(ignored, map n | n in subdirs :: subdirs[n].Value(), files)
    }

    constructor (parent: Dir?, relPath: seq<string>)
      requires Normal(false, relPath)
      ensures Valid() && fresh(Repr) && Value() == NOTHING
      ensures this.parent == parent && this.relPath == relPath
    {
      this.parent, this.relPath := parent, relPath;
      ignored, subdirs, files := false, map[], {};
      Repr := {this};
    }

    /** Ignore. */
    method Ignore()
      requires Valid()
      modifies this
      ensures Valid() && Repr == old(Repr) && Value() == old(Value()).(ignored := true)
    {
      hide Normal, SubPath;
      ignored := true;
    }

    /** registerFile. */
    method AddFile(name: string)
      requires Valid()
      modifies this
      ensures Valid() && Repr == old(Repr) && Value() == WithFile(old(Value()), name)
    {
      hide Normal, SubPath;
      if name !in files {
        files := files + {name};
      }
    }

    /** registerSubDir, the new entry of the map. */
    method Attach(elem: string, sub: Dir)
      requires Valid() && sub.Valid() && this !in sub.Repr && elem !in subdirs
      requires sub.parent == this && sub.relPath == SubPath(relPath, elem)
      modifies this
      ensures Valid() && Repr == old(Repr) + sub.Repr && subdirs == old(subdirs)[elem := sub] && sub.Valid()
      ensures sub.Value() == old(sub.Value())
      ensures Value().ignored == old(Value()).ignored && Value().files == old(Value()).files
      ensures Value().subdirs.Keys == old(Value()).subdirs.Keys + {elem} && Value().subdirs[elem] == sub.Value()
      ensures forall n | n in old(Value()).subdirs :: Value().subdirs[n] == old(Value()).subdirs[n]
    {
      hide Normal, SubPath;
      ghost var before, dirs, added := Value(), subdirs, sub.Value();
      subdirs := subdirs[elem := sub];
      Repr := Repr + sub.Repr;
      assert sub.Valid() && sub.Value() == added;
      forall n | n in dirs ensures dirs[n].Valid() && dirs[n].Value() == before.subdirs[n] {
      }
    }

    /** registerSubDir. */
    method RegisterSubDir(elem: string) returns (sub: Dir)
      requires Valid()
      modifies this
      ensures Valid() && fresh(Repr - old(Repr)) && elem in subdirs && sub == subdirs[elem]
      ensures Value() == Register(old(Value()), [elem])
    {
      hide Normal, SubPath, Register;
      RegisterOne(Value(), elem);
      if elem in subdirs {
        assert Value().subdirs[elem := Value().subdirs[elem]] == Value().subdirs;
        return subdirs[elem];
      }
      ghost var before := Value();
      SubPathNormal(relPath, elem);
      sub := new Dir(this, SubPath(relPath, elem));
      Attach(elem, sub);
      AddedOne(before, Value(), elem);
    }

    /** String. */
    function String(root: Clean): string {
      Show(Place(root, relPath))
    }

    /** cleanupLocked, for one entry; None is its deletion. */
    method CleanEntry(root: Clean, entries: Entries, name: string) returns (ok: bool, left: Option<Node>)
      requires Valid() && !ignored && Normal(root.rooted, root.comps) && PlainNode(DirNode(entries)) && name in entries
      ensures ok <==> !PanicsAt(Value(), entries, root, Place(root, relPath).comps, name)
      ensures ok ==> left == Fate(Value(), name, entries[name])
      ensures !ok ==> left.Some? && BetweenAt(Value(), entries, root, Place(root, relPath).comps, name, left.value)
      decreases Repr, 0
    {
      hide Between, BetweenAt, Cleaned, CleanPath, Deletable, IsSubpath, Normal, Panics, PanicsAt, Place, PlainName,
           PlainNode, Show, Shrunk, SubPath, Within;
      var node := entries[name];
      EntryPanics(Value(), entries, root, Place(root, relPath).comps, name);
      EntryPlace(root, relPath, name);
      if node.DirNode? {
        if name in subdirs {
          var fine, below := subdirs[name].CleanUpLocked(root, node.entries);
          if !fine {
            BetweenDir(Value(), entries, root, Place(root, relPath).comps, name, below);
          }
          return fine, Some(DirNode(below));
        }
      } else if name in files {
        return true, Some(FileNode);
      }
      var fiPath := CleanPath(String(root) + "/" + name);
      if !IsSubpath(Show(root), fiPath) {
        BetweenSelf(Value(), entries, root, Place(root, relPath).comps, name);
        return false, Some(node);
      }
      return true, None;
    }

    /** cleanupLocked: goes through the entries of the directory on disk; a panic leaves the rest as
        it is. */
    method CleanUpLocked(root: Clean, entries: Entries) returns (ok: bool, kept: Entries)
      requires Valid() && Normal(root.rooted, root.comps) && PlainNode(DirNode(entries))
      ensures ok <==> !Panics(Value(), entries, root, Place(root, relPath).comps)
      ensures ok ==> kept == Cleaned(Value(), entries)
      ensures Between(Shrunk(Value(), entries, root, Place(root, relPath).comps), kept, entries)
      decreases Repr, 1
    {
      hide Between, BetweenAt, Cleaned, Fate, Normal, Panics, PanicsAt, Partly, Place, PlainNode, Shrunk, SubPath,
           Within;
      ghost var m, place := Value(), Place(root, relPath).comps;
      if ignored {
        IgnoredStays(m, entries, root, place);
        return true, entries;
      }
      kept := entries;
      var left := entries.Keys;
      PartlyStart(m, entries, root, place);
      while left != {}
        invariant left <= entries.Keys && Partly(m, entries, left, kept, root, place)
        decreases |left|
      {
        var name :| name in left;
        var fine, stays := CleanEntry(root, entries, name);
        if !fine {
          OnePanics(m, entries, root, place, name);
          PartlyBetween(m, entries, left, kept, root, place, name, stays.value);
          return false, kept[name := stays.value];
        }
        PartlyStep(m, entries, left, kept, root, place, name);
        left := left - {name};
        kept := match stays case Some(node) => kept[name := node] case None => kept - {name};
      }
      PartlyEnd(m, entries, kept, root, place);
      CalmBetween(m, entries, root, place);
      ok := true;
    }

    /** From this directory up to the base. */
    ghost predicate Ancestors(up: seq<Dir>)
      reads this, up
    {
      && up != [] && up[0] == this && up[|up| - 1].parent == null
      && forall i | 0 <= i < |up| - 1 :: up[i].parent == up[i + 1]
    }

    /** CleanUp: nothing at all below an ignored directory. */
    method CleanUp(root: Clean, entries: Entries, ghost up: seq<Dir>) returns (ok: bool, kept: Entries)
      requires Valid() && Ancestors(up) && Normal(root.rooted, root.comps) && PlainNode(DirNode(entries))
      ensures var free := forall d | d in up :: !d.ignored;
        && (ok <==> !(free && Panics(Value(), entries, root, Place(root, relPath).comps)))
        && (ok ==> kept == if free then Cleaned(Value(), entries) else entries)
        && (free ==> Between(Shrunk(Value(), entries, root, Place(root, relPath).comps), kept, entries))
    {
      var p: Dir? := this;
      ghost var i := 0;
      while p != null
        invariant 0 <= i <= |up| && p == (if i < |up| then up[i] else null)
        invariant forall j | 0 <= j < i :: !up[j].ignored
        decreases |up| - i
      {
        if p.ignored {
          return true, entries;
        }
        p := p.parent;
        i := i + 1;
      }
      ok, kept := CleanUpLocked(root, entries);
    }
  }

  lemma AddedOne(before: Managed, after: Managed, elem: string)
    requires elem !in before.subdirs && after.subdirs.Keys == before.subdirs.Keys + {elem}
    requires after.ignored == before.ignored && after.files == before.files && after.subdirs[elem] == NOTHING
    requires forall n | n in before.subdirs :: after.subdirs[n] == before.subdirs[n]
    ensures after == before.(subdirs := before.subdirs[elem := NOTHING])
  {
    assert after.subdirs == before.subdirs[elem := NOTHING];
  }

  /** The place of an entry, and the text of its path. */
  lemma EntryPlace(root: Clean, relPath: seq<string>, name: string)
    requires Normal(root.rooted, root.comps) && Normal(false, relPath) && PlainName(name)
    ensures var place := Place(root, relPath).comps;
      && Normal(root.rooted, place)
      && Place(root, SubPath(relPath, name)).comps == place + [name]
      && CleanPath(Show(Place(root, relPath)) + "/" + name) == Show(Clean(root.rooted, place + [name]))
  {
    hide Split, Show, CleanOf;
    NormalFree(false, relPath);
    PushAllNormal(root.rooted, root.comps, relPath);
    var place := Place(root, relPath);
    SplitPart(name, "", '/');
    PushOne(false, relPath, name);
    PushOne(root.rooted, place.comps, name);
    AppendPlain(root.rooted, place.comps, name);
    AppendPlain(false, relPath, name);
    PushAllConcat(root.rooted, root.comps, relPath, [name]);
    CleanJoined(place, name);
  }

  lemma EntryPanics(m: Managed, entries: Entries, root: Clean, place: seq<string>, name: string)
    requires name in entries && PlainNode(DirNode(entries))
    ensures PlainName(name) && (entries[name].DirNode? ==> PlainNode(DirNode(entries[name].entries)))
    ensures PanicsAt(m, entries, root, place, name) <==>
      if entries[name].DirNode? && name in m.subdirs
      then Panics(m.subdirs[name], entries[name].entries, root, place + [name])
      else !Keeps(m, name, entries[name])
           && !IsSubpath(Show(root), Show(Clean(root.rooted, place + [name])))
  {
    assert PlainNode(entries[name]);
  }

  // ----- Directories of a tree -----

  /** `up` is the way from the object that is registered under `path` up to the base. */
  ghost predicate Reaches(base: Dir, path: seq<string>, up: seq<Dir>)
    reads up, base
  {
    && |up| == |path| + 1 && up[|path|] == base
    && forall i | 0 <= i < |path| :: path[i] in up[|path| - i].subdirs
                                     && up[|path| - i - 1] == up[|path| - i].subdirs[path[i]]
  }

  lemma ReachesRest(base: Dir, path: seq<string>, up: seq<Dir>)
    requires path != [] && Reaches(base, path, up)
    ensures path[0] in base.subdirs && Reaches(base.subdirs[path[0]], path[1..], up[..|path|])
    ensures up == up[..|path|] + [base]
  {
    var rest := up[..|path|];
    forall i | 0 <= i < |path| - 1
      ensures path[1..][i] in rest[|path| - 1 - i].subdirs
      ensures rest[|path| - 1 - i - 1] == rest[|path| - 1 - i].subdirs[path[1..][i]]
    {
      assert path[1..][i] == path[i + 1] && rest[|path| - 1 - i] == up[|path| - (i + 1)];
    }
  }

  /** The object under a registered path stands for what is registered there, and one of the directories
      from it up is ignored exactly if it is, or one on the path. */
  lemma {:induction false} ReachesValue(base: Dir, path: seq<string>, up: seq<Dir>)
    requires base.Valid() && Reaches(base, path, up)
    ensures up[0].Valid() && ManagedAt(base.Value(), path) == Some(up[0].Value())
    ensures (exists d | d in up :: d.ignored) <==> IgnoredAbove(base.Value(), path) || up[0].ignored
    decreases |path|
  {
    hide SubPath, Normal, Reaches, IgnoredAbove;
    ReachesStart(base, path, up);
    if path != [] {
      ReachesRest(base, path, up);
      ReachesStart(base.subdirs[path[0]], path[1..], up[..|path|]);
      ReachesValue(base.subdirs[path[0]], path[1..], up[..|path|]);
      AboveFirst(base.Value(), path);
      assert forall d :: d in up <==> d in up[..|path|] || d == base;
    } else {
      assert up == [base];
      NoneAbove(base.Value());
    }
  }

  lemma NoneAbove(m: Managed)
    ensures !IgnoredAbove(m, [])
  {
  }

  lemma ReachesStart(base: Dir, path: seq<string>, up: seq<Dir>)
    requires Reaches(base, path, up)
    ensures |up| == |path| + 1 && up[|path|] == base
  {
  }

  lemma {:induction false} ReachesAncestors(base: Dir, path: seq<string>, up: seq<Dir>)
    requires base.Valid() && Reaches(base, path, up)
    ensures |up| == |path| + 1 && up[|path|] == base
    ensures forall i | 0 <= i < |path| :: up[i].parent == up[i + 1]
    ensures up[0].relPath == RelFrom(base.relPath, path)
    decreases |path|
  {
    hide SubPath, Normal;
    if path != [] {
      ReachesRest(base, path, up);
      var rest := up[..|path|];
      ReachesAncestors(base.subdirs[path[0]], path[1..], rest);
      forall i | 0 <= i < |path| ensures up[i].parent == up[i + 1] {
        if i < |path| - 1 {
          assert up[i] == rest[i] && up[i + 1] == rest[i + 1];
        }
      }
    }
  }

  /** CleanUp of the object under a path, with the whole tree in view: it is at the place of the path; nothing
      is deleted at or below an ignored directory, and otherwise what the cleanup of its own part leaves is
      what stays. */
  lemma CleanUpOf(base: Dir, path: seq<string>, up: seq<Dir>)
    requires base.Valid() && base.parent == null && base.relPath == [] && Reaches(base, path, up)
    ensures forall root: Clean :: Place(root, up[0].relPath) == PlaceOf(root, path)
    ensures up[0].Valid() && up[0].Ancestors(up)
    ensures ManagedAt(base.Value(), path) == Some(up[0].Value())
    ensures (forall d | d in up :: !d.ignored) <==>
            !IgnoredAbove(base.Value(), path) && !ManagedAt(base.Value(), path).value.ignored
  {
    hide SubPath, Normal, IgnoredAbove, ManagedAt;
    ReachesValue(base, path, up);
    ReachesAncestors(base, path, up);
  }

  /** The entries in `left` are still to be looked at, the others have been dealt with. */
  ghost predicate Partly(m: Managed, entries: Entries, left: set<string>, kept: Entries, root: Clean,
                         place: seq<string>) {
    && (forall name | name in left :: name in kept && name in entries && kept[name] == entries[name])
    && (forall name | name in entries && name !in left :: name in kept <==> name in Cleaned(m, entries))
    && (forall name | name in kept && name !in left ::
          name in entries && name in Cleaned(m, entries) && kept[name] == Cleaned(m, entries)[name])
    && (forall name | name in entries && name !in left :: !PanicsAt(m, entries, root, place, name))
  }

  lemma IgnoredStays(m: Managed, entries: Entries, root: Clean, place: seq<string>)
    requires m.ignored
    ensures Cleaned(m, entries) == entries && !Panics(m, entries, root, place)
    ensures Between(Shrunk(m, entries, root, place), entries, entries)
  {
    WithinSelf(DirNode(entries));
  }

  lemma CalmBetween(m: Managed, entries: Entries, root: Clean, place: seq<string>)
    requires !Panics(m, entries, root, place)
    ensures Between(Shrunk(m, entries, root, place), Cleaned(m, entries), entries)
  {
    hide Panics, Cleaned, Shrunk, Within;
    CalmShrinks(m, entries, root, place);
    ShrunkWithin(m, entries, root, place);
    WithinSelf(DirNode(Cleaned(m, entries)));
  }

  lemma BetweenDir(m: Managed, entries: Entries, root: Clean, place: seq<string>, name: string, below: Entries)
    requires !m.ignored && name in entries && entries[name].DirNode? && name in m.subdirs
    requires Between(Shrunk(m.subdirs[name], entries[name].entries, root, place + [name]), below, entries[name].entries)
    ensures BetweenAt(m, entries, root, place, name, DirNode(below))
  {
    hide Within, Deletable;
  }

  lemma BetweenSelf(m: Managed, entries: Entries, root: Clean, place: seq<string>, name: string)
    requires name in entries
    ensures BetweenAt(m, entries, root, place, name, entries[name])
  {
    hide Shrunk;
    ShrunkWithin(m, entries, root, place);
    WithinSelf(entries[name]);
  }

  /** When an entry panics, those before it have been dealt with and those after it have not. */
  lemma PartlyBetween(m: Managed, entries: Entries, left: set<string>, kept: Entries, root: Clean, place: seq<string>,
                      name: string, stays: Node)
    requires !m.ignored && Partly(m, entries, left, kept, root, place) && name in left && name in entries
    requires BetweenAt(m, entries, root, place, name, stays)
    ensures Between(Shrunk(m, entries, root, place), kept[name := stays], entries)
  {
    hide Cleaned, Shrunk, PanicsAt;
    var least, after := Shrunk(m, entries, root, place), kept[name := stays];
    ShrunkWithin(m, entries, root, place);
    forall n | n in least ensures n in after && Within(least[n], after[n]) {
      if n != name {
        EntryBetween(m, entries, root, place, n);
        if n !in left {
          assert n in kept && kept[n] == Cleaned(m, entries)[n];
        }
      }
    }
    forall n | n in after ensures n in entries && Within(after[n], entries[n]) {
      if n != name {
        EntryBetween(m, entries, root, place, n);
      }
    }
  }

  lemma EntryBetween(m: Managed, entries: Entries, root: Clean, place: seq<string>, n: string)
    requires !m.ignored
    ensures var least := Shrunk(m, entries, root, place);
      && (n in least ==> n in entries && Within(least[n], entries[n]))
      && (n in entries ==> Within(entries[n], entries[n]))
      && (n in Cleaned(m, entries) ==> n in entries && Within(Cleaned(m, entries)[n], entries[n]))
      && (n in entries && !PanicsAt(m, entries, root, place, n) && n in least ==>
            n in Cleaned(m, entries) && Within(least[n], Cleaned(m, entries)[n]))
  {
    var least := Shrunk(m, entries, root, place);
    ShrunkWithin(m, entries, root, place);
    if n in entries {
      WithinSelf(entries[n]);
      CleanedWithin(m, entries);
      if !PanicsAt(m, entries, root, place, n) && n in least {
        ShrunkEntry(m, entries, root, place, n);
        WithinSelf(least[n]);
      }
    }
  }

  lemma ShrunkEntry(m: Managed, entries: Entries, root: Clean, place: seq<string>, n: string)
    requires !m.ignored && n in entries && !PanicsAt(m, entries, root, place, n) && n in Shrunk(m, entries, root, place)
    ensures n in Cleaned(m, entries) && Shrunk(m, entries, root, place)[n] == Cleaned(m, entries)[n]
  {
    hide Deletable;
    if entries[n].DirNode? && n in m.subdirs {
      CalmShrinks(m.subdirs[n], entries[n].entries, root, place + [n]);
    }
  }

  lemma {:induction false} CleanedWithin(m: Managed, entries: Entries)
    ensures Within(DirNode(Cleaned(m, entries)), DirNode(entries))
    decreases m
  {
    if m.ignored {
      WithinSelf(DirNode(entries));
    } else {
      forall n | n in Cleaned(m, entries) ensures Within(Cleaned(m, entries)[n], entries[n]) {
        if entries[n].DirNode? {
          CleanedWithin(m.subdirs[n], entries[n].entries);
        } else {
          WithinSelf(entries[n]);
        }
      }
    }
  }

  lemma PartlyStart(m: Managed, entries: Entries, root: Clean, place: seq<string>)
    ensures Partly(m, entries, entries.Keys, entries, root, place)
  {
    hide Cleaned, PanicsAt;
  }

  lemma PartlyEnd(m: Managed, entries: Entries, kept: Entries, root: Clean, place: seq<string>)
    requires Partly(m, entries, {}, kept, root, place)
    ensures kept == Cleaned(m, entries) && !Panics(m, entries, root, place)
  {
    hide PanicsAt;
    assert forall name | name in Cleaned(m, entries) :: name in entries;
    hide Cleaned;
    assert kept.Keys == Cleaned(m, entries).Keys;
  }

  lemma OnePanics(m: Managed, entries: Entries, root: Clean, place: seq<string>, name: string)
    requires !m.ignored && name in entries && PanicsAt(m, entries, root, place, name)
    ensures Panics(m, entries, root, place)
  {
    hide PanicsAt;
  }

  lemma PartlyStep(m: Managed, entries: Entries, left: set<string>, kept: Entries, root: Clean, place: seq<string>,
                   name: string)
    requires !m.ignored && Partly(m, entries, left, kept, root, place) && name in left
    requires name in entries && !PanicsAt(m, entries, root, place, name)
    ensures Partly(m, entries, left - {name},
                   match Fate(m, name, entries[name]) case Some(node) => kept[name := node] case None => kept - {name},
                   root, place)
  {
    CleanedEntry(m, entries, name);
    hide Cleaned, Fate, PanicsAt;
  }

  lemma CleanedEntry(m: Managed, entries: Entries, name: string)
    requires !m.ignored && name in entries
    ensures Fate(m, name, entries[name]) ==
      if name in Cleaned(m, entries) then Some(Cleaned(m, entries)[name]) else None
  {
  }
}
