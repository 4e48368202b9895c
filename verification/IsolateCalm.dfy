/** Trees of .isolate files without names that look like path variables: whatever is merged in which order,
    no entry turns into one (client/isolate/format.go:405-475). */
module IsolateCalm {
  import opened Text
  import opened CleanPaths
  import opened PosixRel
  import opened IsolateValues
  import opened IsolateTable
  import opened IsolateMerge
  import opened IsolateFiles
  import opened IsolateRebase
  import opened IsolateDirectories

  ghost predicate NoVariable(parts: seq<string>) {
    forall i | 0 <= i < |parts| :: !StartsWithVariable(parts[i])
  }

  ghost predicate CalmDir(dir: string) {
    NoVariable(Split(dir, '/'))
  }

  /** A path variable, or a path none of whose parts looks like one. */
  ghost predicate CalmEntry(f: string) {
    StartsWithVariable(f) || NoVariable(Split(f, '/'))
  }

  ghost predicate CalmFiles(files: seq<string>) {
    forall f | f in files :: CalmEntry(f)
  }

  ghost predicate CalmTree(p: PlacedFile) {
    && CalmDir(p.dir) && CalmFiles(p.block.files)
    && (forall i | 0 <= i < |p.conditions| :: CalmFiles(p.conditions[i].block.files))
    && forall i | 0 <= i < |p.includes| :: CalmTree(p.includes[i])
  }

  ghost predicate CalmSettings(c: ConfigSettings) {
    IsAbs(c.isolateDir) && CalmDir(c.isolateDir) && CalmFiles(c.files)
  }

  lemma FirstPart(s: string)
    requires StartsWithVariable(s)
    ensures !NoVariable(Split(s, '/'))
  {
    assert s[0] == '<' && s[1] == '(';
    SplitStep(s, '/');
    SplitStep(s[1..], '/');
    assert StartsWithVariable(Split(s, '/')[0]);
  }

  /** Cleaning makes no new parts. */
  lemma {:induction false} PushedParts(rooted: bool, stack: seq<string>, parts: seq<string>)
    requires NoVariable(stack) && NoVariable(parts)
    ensures NoVariable(PushAll(rooted, stack, parts))
    decreases |parts|
  {
    if parts != [] {
      PushedParts(rooted, Push(rooted, stack, parts[0]), parts[1..]);
    }
  }

  lemma CalmClean(dir: string)
    requires CalmDir(dir)
    ensures NoVariable(CleanOf(dir).comps)
  {
    hide Split, PushAll;
    PushedParts(IsAbs(dir), [], Split(dir, '/'));
  }

  lemma CalmRel(b: Clean, t: Clean)
    requires Rel(b, t).Some? && t.rooted && NoVariable(t.comps)
    ensures NoVariable(Rel(b, t).value)
  {
    var r := Rel(b, t).value;
    forall i | 0 <= i < |r| ensures !StartsWithVariable(r[i]) {
      NotVariable();
    }
  }

  lemma CalmRebasePath(dir: string, other: string)
    requires IsAbs(dir) && IsAbs(other) && CalmDir(other)
    ensures NoVariable(Split(RebasePath(dir, other), '/'))
  {
    hide Split, Join, PushAll, Rel, Normal, StartsWithVariable;
    AbsRel(dir, other);
    var b, t := CleanOf(dir), CleanOf(other);
    CalmClean(other);
    CalmRel(b, t);
    CleanNormal(dir);
    CleanNormal(other);
    RelLeadsThere(b, t);
    SplitJoin(Rel(b, t).value, '/');
  }

  lemma CalmRebased(dir: string, other: string, f: string)
    requires IsAbs(dir) && IsAbs(other) && CalmDir(other) && CalmEntry(f)
    ensures CalmEntry(Rebased(RebasePath(dir, other), f))
    ensures !StartsWithVariable(f) ==> !StartsWithVariable(Rebased(RebasePath(dir, other), f))
  {
    hide Split, RebasePath, PathJoin, CleanPath, NoVariable, CleanOf;
    var rebasePath := RebasePath(dir, other);
    if !StartsWithVariable(f) && rebasePath != "." {
      RebaseLeads(dir, other);
      PathJoinIs(rebasePath, f);
      CalmRebasePath(dir, other);
      CalmJoined(rebasePath, f);
      if StartsWithVariable(Rebased(rebasePath, f)) {
        FirstPart(Rebased(rebasePath, f));
      }
    }
  }

  lemma CalmJoined(a: string, f: string)
    requires NoVariable(Split(a, '/')) && NoVariable(Split(f, '/')) && a != "" && !IsAbs(a)
    ensures NoVariable(Split(CleanPath(a + "/" + f) + Slash(f), '/'))
  {
    hide Split, StartsWithVariable, PushAll;
    assert a + "/" + f == a + ['/'] + f;
    SplitConcat(a, f, '/');
    var c := CleanOf(a + "/" + f);
    assert !c.rooted;
    CalmClean(a + "/" + f);
    CleanNormal(a + "/" + f);
    CalmShown(c);
    CalmSlash(Show(c), Slash(f));
  }

  lemma CalmSlash(s: string, slash: string)
    requires NoVariable(Split(s, '/')) && (slash == "" || slash == "/")
    ensures NoVariable(Split(s + slash, '/'))
  {
    hide Split;
    SplitConcat(s, "", '/');
    SplitEmpty('/');
    assert s + "" == s && s + "/" == s + ['/'] + "";
    NotVariable();
  }

  lemma NotVariable()
    ensures !StartsWithVariable("") && !StartsWithVariable(".") && !StartsWithVariable("..")
  {
    assert ".."[0] != "<("[0];
  }

  lemma CalmShown(c: Clean)
    requires !c.rooted && Normal(false, c.comps) && NoVariable(c.comps)
    ensures NoVariable(Split(Show(c), '/'))
  {
    hide Split, Join, StartsWithVariable;
    if c.comps == [] {
      SplitPart(".", "", '/');
      NotVariable();
    } else {
      NormalFree(false, c.comps);
      SplitJoin(c.comps, '/');
      assert Show(c) == Join(c.comps, '/');
    }
  }

  /** Calm settings can be merged, and stay calm. */
  lemma CalmUnion(l: ConfigSettings, r: ConfigSettings)
    requires (l.isolateDir == "" || CalmSettings(l)) && CalmSettings(r)
    ensures Mergeable(l, r) && CalmSettings(UnionOf(l, r))
  {
    hide Rebased, RebasePath, FileText, CalmDir, CalmEntry, StartsWithVariable;
    if l.isolateDir != "" {
      var kept, moved := if UsesRight(l, r) then r else l, if UsesRight(l, r) then l else r;
      forall f | f in moved.files
        ensures CalmEntry(Rebased(RebasePath(kept.isolateDir, moved.isolateDir), f))
        ensures !StartsWithVariable(f) ==>
                  !StartsWithVariable(Rebased(RebasePath(kept.isolateDir, moved.isolateDir), f))
      {
        CalmRebased(kept.isolateDir, moved.isolateDir, f);
      }
    }
  }

  /** Of a directory whose name looks like a path variable, an entry does not survive the merge. */
  lemma VariableLost(name: string, f: string, g: string)
    requires "<(" <= name && '/' !in name && !("<(" <= g)
    requires f != "" && '/' !in f && f != "." && f != ".." && !("<(" <= f)
    ensures var l, r := ConfigSettings([g], [], NOT_SET, "/"), ConfigSettings([f], [], NOT_SET, "/" + name);
      && name + "/" + f in Meant(UnionOf(l, r)).Files()
      && name + "/" + f !in Union(Meant(l), Meant(r)).Files()
  {
    var l, r := ConfigSettings([g], [], NOT_SET, "/"), ConfigSettings([f], [], NOT_SET, "/" + name);
    hide CleanPath, RebasePath;
    VariableAppears(name, f);
    assert name + "/" + f in UnionOf(l, r).files by {
      assert f in r.files;
    }
    AbsText("/" + "/" + g);
    AbsText("/" + name + "/" + f);
    assert (name + "/" + f)[0] == '<';
  }

  /** In which order settings of different directories are merged does not matter: the directory is the same
      one, and the entries stand for the same files. */
  lemma UnionOfAssociative(a: ConfigSettings, b: ConfigSettings, c: ConfigSettings)
    requires CalmSettings(a) && CalmSettings(b) && CalmSettings(c)
    ensures CalmSettings(UnionOf(a, b)) && CalmSettings(UnionOf(b, c))
    ensures UnionOf(UnionOf(a, b), c).isolateDir == UnionOf(a, UnionOf(b, c)).isolateDir
    ensures Meant(UnionOf(UnionOf(a, b), c)) == Meant(UnionOf(a, UnionOf(b, c)))
  {
    hide Meant, CalmDir, CalmFiles, Rebased, Mergeable;
    CalmUnion(a, b);
    CalmUnion(b, c);
    CalmUnion(UnionOf(a, b), c);
    CalmUnion(a, UnionOf(b, c));
    UnionMeant(a, b);
    UnionMeant(b, c);
    UnionMeant(UnionOf(a, b), c);
    UnionMeant(a, UnionOf(b, c));
    UnionAssociative(Meant(a), Meant(b), Meant(c));
    NoFiles(a, b);
    NoFiles(b, c);
  }

  lemma NoFiles(l: ConfigSettings, r: ConfigSettings)
    requires IsAbs(l.isolateDir) && IsAbs(r.isolateDir)
    ensures UnionOf(l, r).files == [] <==> l.files == [] && r.files == []
  {
    hide Rebased, RebasePath;
    var kept, moved := if UsesRight(l, r) then r else l, if UsesRight(l, r) then l else r;
    var files := MergedFiles(kept.isolateDir, kept.files, moved.isolateDir, moved.files);
    if kept.files != [] {
      assert kept.files[0] in files;
    } else if moved.files != [] {
      assert Rebased(RebasePath(kept.isolateDir, moved.isolateDir), moved.files[0]) in files;
    } else {
      assert files == {};
    }
    if files != {} {
      var f :| f in files;
      assert f in SortedNames(files);
    }
    if SortedNames(files) != [] {
      assert SortedNames(files)[0] in files;
    }
  }

  // ----- Whole trees -----

  ghost predicate CalmTable(t: DirTable) {
    forall key | key in t :: CalmSettings(t[key])
  }

  lemma CalmMerge(a: DirTable, b: DirTable)
    requires CalmTable(a) && CalmTable(b)
    ensures PlacedTable(a) && PlacedTable(b)
    ensures RebasesWell(a, b) && CalmTable(MergeDirs(a, b))
  {
    hide UnionOf, CalmDir, CalmFiles, Mergeable;
    forall key | key in a && key in b ensures Mergeable(a[key], b[key]) && CalmSettings(UnionOf(a[key], b[key])) {
      CalmUnion(a[key], b[key]);
    }
  }

  lemma CalmNew(dir: string, block: Block)
    requires IsAbs(dir) && CalmDir(dir) && CalmFiles(block.files)
    ensures CalmSettings(NewConfigSettings(dir, block))
  {
    hide CalmDir, CalmEntry;
  }

  lemma {:induction false} CalmStage(p: PlacedFile, i: nat)
    requires AcceptedFile(MeantFile(p)) && IsAbs(p.dir) && CalmTree(p) && i <= |p.conditions|
    ensures CalmTable(StageDirs(p, i))
  {
    hide NewConfigSettings, KeptValues, VariablesOf, MeantVariables, CalmDir, CalmFiles, ConditionTable, MergeDirs,
         CalmSettings;
    if i == 0 {
      CalmNew(p.dir, p.block);
    } else {
      CalmStage(p, i - 1);
      CalmNew(p.dir, p.conditions[i - 1].block);
      CalmMerge(StageDirs(p, i - 1), ConditionDirs(p, i - 1));
    }
  }

  lemma CalmMergeCompiled(a: DirCompiled, b: DirCompiled)
    requires a.Valid() && b.Valid() && CalmTable(a.table) && CalmTable(b.table)
    ensures MergesWell(a, b) && CalmTable(MergeDirCompiled(a, b).table)
  {
    hide CalmSettings, MergeDirs, Project, RebasesWell;
    var vars := MergedVariables(a.vars, b.vars);
    CalmMerge(WidenDirs(a.table, a.vars, vars), WidenDirs(b.table, b.vars, vars));
  }

  lemma {:induction false} CalmIncludes(p: PlacedFile, i: nat)
    requires PlacedTree(p) && AcceptedTree(MeantFile(p)) && CalmTree(p) && i <= |p.includes|
    ensures LoadsWell(p, i) && CalmTable(CompileIncludeDirs(p, i).table)
    decreases p, |p.includes| - i
  {
    hide CalmTable, CompileIncludeDirs, LoadsWell, CalmDir, CalmFiles, AcceptedTree;
    if i == |p.includes| {
      CalmOwn(p);
    } else {
      AcceptedInclude(p, i);
      CalmIncludes(p, i + 1);
      CalmIncludes(p.includes[i], 0);
      CalmNext(p, i);
    }
  }

  lemma CalmOwn(p: PlacedFile)
    requires PlacedTree(p) && AcceptedTree(MeantFile(p)) && CalmTree(p)
    ensures LoadsWell(p, |p.includes|) && CalmTable(CompileIncludeDirs(p, |p.includes|).table)
  {
    hide CalmTable, StageDirs, CompileIncludeDirs, CalmDir, CalmFiles, VariablesOf;
    CalmStage(p, |p.conditions|);
    NoMoreIncludeDirs(p);
  }

  lemma CalmNext(p: PlacedFile, i: nat)
    requires PlacedTree(p) && AcceptedTree(MeantFile(p)) && i < |p.includes|
    requires AcceptedTree(MeantFile(p.includes[i]))
    requires LoadsWell(p, i + 1) && CalmTable(CompileIncludeDirs(p, i + 1).table)
    requires LoadsWell(p.includes[i], 0) && CalmTable(CompileIncludeDirs(p.includes[i], 0).table)
    ensures LoadsWell(p, i) && CalmTable(CompileIncludeDirs(p, i).table)
  {
    hide CalmTable, CompileIncludeDirs, StrippedDirs, MergeDirCompiled, MergesWell, AcceptedTree;
    CalmStripped(p, i);
    IncludeNextDirs(p, i);
    CalmMergeCompiled(CompileIncludeDirs(p, i + 1), StrippedDirs(p, i));
  }

  lemma CalmStripped(p: PlacedFile, i: nat)
    requires PlacedTree(p) && AcceptedTree(MeantFile(p)) && i < |p.includes|
    requires AcceptedTree(MeantFile(p.includes[i])) && CalmTable(CompileIncludeDirs(p.includes[i], 0).table)
    ensures CalmTable(StrippedDirs(p, i).table)
  {
    hide StageDirs, CompileIncludeDirs, CalmDir, CalmFiles, HasCommandIn;
  }

  lemma {:induction false} CalmQuery(t: DirTable, keys: seq<Name>, config: Name)
    requires CalmTable(t) && forall i | 0 <= i < |keys| :: keys[i] in t && |config| <= |keys[i]|
    ensures QueriesWell(t, keys, config)
    ensures var c := QueryAlong(t, keys, config); c.isolateDir == "" || CalmSettings(c)
  {
    hide Selects, UnionOf, CalmDir, CalmFiles, Mergeable;
    if keys != [] {
      CalmQuery(t, keys[..|keys| - 1], config);
      CalmUnion(QueryAlong(t, keys[..|keys| - 1], config), t[keys[|keys| - 1]]);
    }
  }

  /** In a tree where no part of a directory or of an entry looks like a path variable, none turns into one:
      neither when it is loaded nor in any query. */
  lemma CalmTreeLoads(p: PlacedFile, keys: seq<Name>, config: Name)
    requires PlacedTree(p) && AcceptedTree(MeantFile(p)) && CalmTree(p)
    requires InOrder(keys, CompileDirs(p).table, |config|)
    ensures LoadsWell(p, 0) && QueriesWell(CompileDirs(p).table, keys, config)
  {
    hide CompileIncludeDirs, CalmSettings, CalmTree, LoadsWell, QueriesWell;
    CalmIncludes(p, 0);
    CalmQuery(CompileDirs(p).table, keys, config);
  }
}
