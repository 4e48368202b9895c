/** ConfigSettings.union for settings of different directories: the files of one side are rebased
    (client/isolate/format.go:391-475). */
module IsolateRebase {
  import opened Text
  import opened CleanPaths
  import opened PosixRel
  import opened IsolateTable
  import opened IsolateFiles

  /** ConfigSettings; the empty object has no directory. */
  datatype ConfigSettings = ConfigSettings(files: seq<string>, command: seq<string>, readOnly: int, isolateDir: string)

  /** What newConfigSettings asserts. */
  predicate Placed(c: ConfigSettings) {
    c.isolateDir == "" || IsAbs(c.isolateDir)
  }

  /** An entry that starts with a path variable. */
  predicate StartsWithVariable(f: string) {
    "<(" <= f
  }

  predicate HasSlash(f: string) {
    f != "" && f[|f| - 1] == '/'
  }

  function Slash(f: string): string {
    if HasSlash(f) then "/" else ""
  }

  /** What an entry stands for: an absolute path, with a slash behind it if it is written with one. */
  function FileText(dir: string, f: string): string {
    if "<(" <= f then f else CleanPath(dir + "/" + f) + Slash(f)
  }

  /** Settings as the tables of this model have them: files are what the entries stand for. */
  function Resolved(c: ConfigSettings): Settings {
    if c.isolateDir == "" then Empty
    else Settings(set f | f in c.files :: FileText(c.isolateDir, f), c.command, c.readOnly)
  }

  // ----- Rebasing one entry -----

  /** path.Join of two elements, the first of which is not empty. */
  function PathJoin(a: string, b: string): string {
    if b == "" then CleanPath(a) else CleanPath(a + "/" + b)
  }

  function Rebased(rebasePath: string, f: string): string {
    if StartsWithVariable(f) || rebasePath == "." then f else PathJoin(rebasePath, f) + Slash(f)
  }

  /** The path from one absolute directory to another. */
  function RebasePath(dir: string, other: string): string
    requires IsAbs(dir) && IsAbs(other)
  {
    AbsRel(dir, other);
    Join(Rel(CleanOf(dir), CleanOf(other)).value, '/')
  }

  lemma AbsRel(dir: string, other: string)
    requires IsAbs(dir) && IsAbs(other)
    ensures Rel(CleanOf(dir), CleanOf(other)).Some?
  {
    CleanNormal(dir);
    hide CleanPath;
  }

  /** Joining with nothing is cleaning. */
  lemma JoinNothing(a: string)
    requires a != ""
    ensures CleanOf(a + "/") == CleanOf(a)
  {
    hide Split, Push, PushAll;
    assert a + "/" == a + ['/'] + "";
    SplitConcat(a, "", '/');
    SplitPart("", "", '/');
    PushAllConcat(IsAbs(a), [], Split(a, '/'), [""]);
    Nothing(IsAbs(a), PushAll(IsAbs(a), [], Split(a, '/')), "");
  }

  lemma PathJoinIs(a: string, b: string)
    requires a != ""
    ensures PathJoin(a, b) == CleanPath(a + "/" + b)
  {
    hide CleanOf;
    if b == "" {
      JoinNothing(a);
      assert a + "/" + "" == a + "/";
    }
  }

  /** A relative path that is joined to a directory may be cleaned first. */
  lemma JoinCleaned(dir: string, a: string, b: string)
    requires IsAbs(dir) && !IsAbs(a) && a != ""
    ensures CleanOf(dir + "/" + CleanPath(a + "/" + b))
         == Clean(true, PushAll(true, PushAll(true, CleanOf(dir).comps, Split(a, '/')), Split(b, '/')))
  {
    hide Split, Push, PushAll, Normal, Show;
    var c := CleanOf(a + "/" + b);
    assert IsAbs(a + "/" + b) == IsAbs(a);
    CleanNormal(a + "/" + b);
    AbsJoined(dir, Show(c));
    PushText(c, CleanOf(dir).comps);
    assert a + "/" + b == a + ['/'] + b;
    SplitConcat(a, b, '/');
    SplitFree(a + ['/'] + b, '/');
    NothingNormal();
    PushNormalised(true, CleanOf(dir).comps, [], Split(a, '/') + Split(b, '/'));
    NothingPushed(CleanOf(dir).comps);
    PushAllConcat(true, CleanOf(dir).comps, Split(a, '/'), Split(b, '/'));
  }

  lemma NothingNormal()
    ensures Normal(false, [])
  {
  }

  lemma NothingPushed(stack: seq<string>)
    ensures PushAll(true, stack, []) == stack
  {
  }

  /** A slash behind a path changes nothing, but that it is there. */
  lemma SlashBehind(dir: string, g: string)
    requires IsAbs(dir)
    ensures CleanOf(dir + "/" + (g + "/")) == CleanOf(dir + "/" + g)
  {
    assert dir + "/" + (g + "/") == (dir + "/" + g) + "/";
    JoinNothing(dir + "/" + g);
  }

  /** The path there leads from dir to other. */
  lemma RebaseLeads(dir: string, other: string)
    requires IsAbs(dir) && IsAbs(other)
    ensures var rebasePath := RebasePath(dir, other);
      && rebasePath != "" && !IsAbs(rebasePath)
      && PushAll(true, CleanOf(dir).comps, Split(rebasePath, '/')) == CleanOf(other).comps
      && (rebasePath == "." ==> CleanOf(dir) == CleanOf(other))
  {
    hide Split, Push, PushAll, Normal, Show, Join, Rel;
    var b, t := CleanOf(dir), CleanOf(other);
    var rebasePath := RebasePath(dir, other);
    AbsRel(dir, other);
    CleanNormal(dir);
    CleanNormal(other);
    RelLeadsThere(b, t);
    CleanJoined(b, rebasePath);
    RelRelative(b, t);
    if rebasePath == "." {
      SplitPart(".", "", '/');
      Nothing(true, b.comps, ".");
    }
  }

  lemma RelRelative(base: Clean, targ: Clean)
    requires base.rooted && targ.rooted && Normal(true, base.comps) && Normal(true, targ.comps)
    requires Rel(base, targ).Some?
    ensures Join(Rel(base, targ).value, '/') != "" && !IsAbs(Join(Rel(base, targ).value, '/'))
  {
    var r := Rel(base, targ).value;
    if base == targ {
      assert Join(r, '/') == ".";
    } else {
      RelStarts(base, targ);
      JoinFirst(r, '/');
    }
  }

  lemma RelStarts(base: Clean, targ: Clean)
    requires base.rooted && targ.rooted && Normal(true, base.comps) && Normal(true, targ.comps)
    requires Rel(base, targ).Some? && base != targ
    ensures Rel(base, targ).value != [] && Rel(base, targ).value[0] != "" && '/' !in Rel(base, targ).value[0]
  {
    var k := Shared(base.comps, targ.comps);
    assert base.comps[..|base.comps|] == base.comps && targ.comps[..|targ.comps|] == targ.comps;
    assert k < |base.comps| || k < |targ.comps|;
    var r := Ups(|base.comps| - k) + targ.comps[k..];
    assert r[0] == if k < |base.comps| then ".." else targ.comps[k];
  }

  /** The text of a relative clean path does not end with a slash. */
  lemma {:induction false} NoSlashBehind(comps: seq<string>)
    requires Joinable(comps) && comps != []
    ensures Join(comps, '/') != "" && !HasSlash(Join(comps, '/'))
  {
    hide Join;
    JoinStep(comps, '/');
    if |comps| > 1 {
      NoSlashBehind(comps[1..]);
    } else {
      assert comps[0][|comps[0]| - 1] in comps[0];
    }
  }

  lemma CleanHasNoSlash(a: string)
    requires !IsAbs(a)
    ensures !HasSlash(CleanPath(a)) && CleanPath(a) != ""
  {
    hide Join, Split, PushAll;
    var c := CleanOf(a);
    CleanNormal(a);
    if c.comps != [] {
      NoSlashBehind(c.comps);
      assert Show(c) == Join(c.comps, '/');
    }
  }

  /** A rebased entry stands for the same file, if and only if it does not start with what looks like a
      path variable: then it stands for that. */
  lemma RebasedMeans(dir: string, other: string, f: string)
    requires IsAbs(dir) && IsAbs(other)
    ensures var rebasePath := RebasePath(dir, other);
      FileText(dir, Rebased(rebasePath, f)) == FileText(other, f) <==>
      "<(" <= f || rebasePath == "." || !("<(" <= Rebased(rebasePath, f))
  {
    hide RebasePath, CleanOf, Split, PushAll, Show, PathJoin;
    var rebasePath := RebasePath(dir, other);
    RebaseLeads(dir, other);
    AbsJoined(dir, f);
    AbsJoined(other, f);
    assert dir + "/" + f == dir + ['/'] + f && other + "/" + f == other + ['/'] + f;
    if StartsWithVariable(f) || rebasePath == "." {
    } else {
      var g := CleanPath(rebasePath + "/" + f);
      PathJoinIs(rebasePath, f);
      JoinCleaned(dir, rebasePath, f);
      assert IsAbs(rebasePath + "/" + f) == IsAbs(rebasePath);
      CleanHasNoSlash(rebasePath + "/" + f);
      SlashBehind(dir, g);
      SlashOf(g, f);
      AbsText(other + "/" + f);
    }
  }

  lemma SlashOf(g: string, f: string)
    requires !HasSlash(g)
    ensures Slash(g + Slash(f)) == Slash(f)
    ensures HasSlash(f) ==> g + Slash(f) == g + "/"
    ensures !HasSlash(f) ==> g + Slash(f) == g
  {
  }

  lemma AbsText(path: string)
    requires IsAbs(path)
    ensures IsAbs(CleanPath(path))
  {
    assert CleanOf(path).rooted;
    hide PushAll, Split, Join;
    assert Lead(true)[0] == '/';
  }

  /** Such an entry: one of a directory below the root whose name starts with `<(`. */
  lemma VariableAppears(name: string, f: string)
    requires "<(" <= name && '/' !in name && f != "" && '/' !in f && f != "." && f != ".."
    requires !("<(" <= f)
    ensures RebasePath("/", "/" + name) == name
    ensures Rebased(name, f) == name + "/" + f
    ensures FileText("/", name + "/" + f) == name + "/" + f != FileText("/" + name, f)
  {
    assert name[0] == '<';
    var root, below := CleanOf("/"), CleanOf("/" + name);
    OnePart("", name);
    OnePart(name, f);
    JoinNothing("/");
    assert root.comps == [] by {
      assert "/" == "" + ['/'] + "";
      SplitConcat("", "", '/');
      SplitPart("", "", '/');
      assert PushAll(true, [], ["", ""]) == PushAll(true, [], [""]) == [];
    }
    assert "/" + name == "" + ['/'] + name;
    assert below == Clean(true, [name]);
    assert Rel(root, below) == Some(Ups(0) + [name][0..]) by {
      assert Shared([], [name]) == 0;
    }
    assert Ups(0) + [name] == [name];
    PathJoinIs(name, f);
    assert Join([name, f], '/') == name + ['/'] + f by {
      assert [name, f][1..] == [f];
    }
    AbsText("/" + name + "/" + f);
    RebasedMeans("/", "/" + name, f);
  }

  lemma OnePart(a: string, b: string)
    requires '/' !in a && '/' !in b && b != "" && b != "." && b != ".." && a != "." && a != ".."
    ensures CleanOf(a + ['/'] + b) == if a == "" then Clean(true, [b]) else Clean(false, [a, b])
  {
    SplitPart(a, b, '/');
    SplitPart(b, "", '/');
    var rooted := IsAbs(a + ['/'] + b);
    assert rooted == (a == "");
    assert [a, b][1..] == [b] && [b][1..] == [];
    assert PushAll(rooted, [], [a, b]) == PushAll(rooted, Push(rooted, [], a), [b]);
    assert PushAll(rooted, Push(rooted, [], a), [b]) == PushAll(rooted, Push(rooted, Push(rooted, [], a), b), []);
  }

  // ----- Union -----

  /** No entry turns into a path variable. */
  predicate Rebasable(dir: string, other: string, files: seq<string>)
    requires IsAbs(dir) && IsAbs(other)
  {
    forall f | f in files ::
      || StartsWithVariable(f) || RebasePath(dir, other) == "."
      || !StartsWithVariable(Rebased(RebasePath(dir, other), f))
  }

  /** Whose directory the union has: that of the command, or of the files. */
  predicate UsesRight(lhs: ConfigSettings, rhs: ConfigSettings) {
    lhs.command == [] && (rhs.command != [] || lhs.files == [])
  }

  /** Both sides have a directory, and the files that are rebased can be. */
  predicate Mergeable(lhs: ConfigSettings, rhs: ConfigSettings)
    requires Placed(lhs) && Placed(rhs)
  {
    lhs.isolateDir != "" && rhs.isolateDir != "" ==>
      if UsesRight(lhs, rhs) then Rebasable(rhs.isolateDir, lhs.isolateDir, lhs.files)
      else Rebasable(lhs.isolateDir, rhs.isolateDir, rhs.files)
  }

  /** What union gives. */
  ghost function UnionOf(lhs: ConfigSettings, rhs: ConfigSettings): ConfigSettings
    requires Placed(lhs) && Placed(rhs)
  {
    if lhs.isolateDir == "" then rhs
    else if rhs.isolateDir == "" then lhs
    else
      var kept, moved := if UsesRight(lhs, rhs) then rhs else lhs, if UsesRight(lhs, rhs) then lhs else rhs;
      ConfigSettings(SortedNames(MergedFiles(kept.isolateDir, kept.files, moved.isolateDir, moved.files)),
                     if |lhs.command| > 0 then lhs.command else rhs.command,
                     if lhs.readOnly != NOT_SET then lhs.readOnly else rhs.readOnly,
                     kept.isolateDir)
  }

  ghost function MergedFiles(dir: string, kept: seq<string>, other: string, moved: seq<string>): set<string>
    requires IsAbs(dir) && IsAbs(other)
  {
    (set f | f in kept) + set f | f in moved :: Rebased(RebasePath(dir, other), f)
  }

  /** When no entry turns into a path variable, it stands for what the tables of this model are merged to,
      whatever the directories are. */
  lemma UnionOfMeans(lhs: ConfigSettings, rhs: ConfigSettings)
    requires Placed(lhs) && Placed(rhs) && Mergeable(lhs, rhs)
    ensures Placed(UnionOf(lhs, rhs)) && Resolved(UnionOf(lhs, rhs)) == Union(Resolved(lhs), Resolved(rhs))
  {
    hide FileText, Rebased, RebasePath, CleanOf;
    if lhs.isolateDir != "" && rhs.isolateDir != "" {
      var kept, moved := if UsesRight(lhs, rhs) then rhs else lhs, if UsesRight(lhs, rhs) then lhs else rhs;
      FilesMerged(kept, moved, UnionOf(lhs, rhs).files);
    }
  }

  /** union: never an error between absolute directories; a sorted list without repetitions; the directory
      of the side that has the command; and, when no entry turns into a path variable, exactly the
      settings that the tables of this model are merged with, whatever the directories are. */
  method Merge(lhs: ConfigSettings, rhs: ConfigSettings) returns (r: Option<ConfigSettings>)
    requires Placed(lhs) && Placed(rhs)
    ensures r.Some? && Placed(r.value)
    ensures lhs.isolateDir == "" ==> r.value == rhs
    ensures lhs.isolateDir != "" && rhs.isolateDir == "" ==> r.value == lhs
    ensures lhs.isolateDir != "" && rhs.isolateDir != "" ==>
      && Sorted(r.value.files)
      && r.value.isolateDir == (if UsesRight(lhs, rhs) then rhs else lhs).isolateDir
    ensures r.value == UnionOf(lhs, rhs)
    ensures Mergeable(lhs, rhs) ==> Resolved(r.value) == Union(Resolved(lhs), Resolved(rhs))
  {
    hide FileText, Rebased, RebasePath, CleanOf;
    if Mergeable(lhs, rhs) {
      UnionOfMeans(lhs, rhs);
    }
    if lhs.isolateDir == "" {
      return Some(rhs);
    }
    if rhs.isolateDir == "" {
      return Some(lhs);
    }
    var useRHS := false;
    var command := [];
    if |lhs.command| > 0 {
      command := lhs.command;
    } else if |rhs.command| > 0 {
      useRHS, command := true, rhs.command;
    } else {
      useRHS := |lhs.files| == 0;
    }
    var readOnly := rhs.readOnly;
    if lhs.readOnly != NOT_SET {
      readOnly := lhs.readOnly;
    }
    var kept, moved := lhs, rhs;
    if useRHS {
      kept, moved := rhs, lhs;
    }
    var files := RebaseFiles(kept.isolateDir, kept.files, moved.isolateDir, moved.files);
    r := Some(ConfigSettings(files, command, readOnly, kept.isolateDir));
  }

  /** The entries of the one side and the rebased ones of the other, sorted. */
  method RebaseFiles(dir: string, kept: seq<string>, other: string, moved: seq<string>) returns (files: seq<string>)
    requires IsAbs(dir) && IsAbs(other)
    ensures Sorted(files)
    ensures forall g :: g in files <==> g in kept || exists f | f in moved :: g == Rebased(RebasePath(dir, other), f)
    ensures files == SortedNames(MergedFiles(dir, kept, other, moved))
  {
    hide Rebased, CleanOf, Rel;
    AbsRel(dir, other);
    var rel := PosixRel.PosixRel(dir, other);
    var rebasePath := rel.value;
    assert rebasePath == RebasePath(dir, other);
    hide RebasePath;
    var filesSet: set<string> := {};
    for i := 0 to |kept|
      invariant forall g :: g in filesSet <==> g in kept[..i]
    {
      filesSet := filesSet + {kept[i]};
      assert kept[..i + 1] == kept[..i] + [kept[i]];
    }
    assert kept[..|kept|] == kept;
    for i := 0 to |moved|
      invariant forall g :: g in filesSet <==> g in kept || exists f | f in moved[..i] :: g == Rebased(rebasePath, f)
    {
      filesSet := filesSet + {RebaseEntry(rebasePath, moved[i])};
      assert moved[..i + 1] == moved[..i] + [moved[i]];
    }
    assert moved[..|moved|] == moved;
    files := [];
    var left := filesSet;
    while left != {}
      invariant left <= filesSet && Sorted(files)
      invariant forall g :: g in files <==> g in filesSet && g !in left
      decreases |left|
    {
      var g :| g in left;
      InsertStringSorted(g, files);
      files := InsertString(g, files);
      left := left - {g};
    }
    SortedUnique(files, SortedNames(MergedFiles(dir, kept, other, moved)));
  }

  /** The body of the loop over the files that are rebased. */
  function RebaseEntry(rebasePath: string, f: string): (r: string)
    ensures r == Rebased(rebasePath, f)
  {
    if StartsWithVariable(f) || rebasePath == "." then f
    else if HasSlash(f) then PathJoin(rebasePath, f) + "/"
    else
      assert PathJoin(rebasePath, f) + "" == PathJoin(rebasePath, f);
      PathJoin(rebasePath, f)
  }

  lemma FilesMerged(kept: ConfigSettings, moved: ConfigSettings, files: seq<string>)
    requires IsAbs(kept.isolateDir) && IsAbs(moved.isolateDir)
    requires Rebasable(kept.isolateDir, moved.isolateDir, moved.files)
    requires forall g :: g in files <==>
               g in kept.files
               || exists f | f in moved.files :: g == Rebased(RebasePath(kept.isolateDir, moved.isolateDir), f)
    ensures (set g | g in files :: FileText(kept.isolateDir, g))
         == Resolved(kept).Files() + Resolved(moved).Files()
  {
    hide FileText, Rebased, RebasePath;
    var rebasePath := RebasePath(kept.isolateDir, moved.isolateDir);
    forall f | f in moved.files
      ensures FileText(kept.isolateDir, Rebased(rebasePath, f)) == FileText(moved.isolateDir, f)
    {
      RebasedMeans(kept.isolateDir, moved.isolateDir, f);
    }
    var all := set g | g in files :: FileText(kept.isolateDir, g);
    forall t | t in Resolved(kept).Files() + Resolved(moved).Files() ensures t in all {
      if t in Resolved(kept).Files() {
        var f :| f in kept.files && t == FileText(kept.isolateDir, f);
        assert f in files;
      } else {
        var f :| f in moved.files && t == FileText(moved.isolateDir, f);
        assert Rebased(rebasePath, f) in files;
      }
    }
  }
}
