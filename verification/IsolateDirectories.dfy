/** A tree of .isolate files in different directories: the entries are listed as they are written, and rebased
    each time that settings are merged (client/isolate/format.go:93-152, 242-268, 389-475). */
module IsolateDirectories {
  import opened Text
  import opened CleanPaths
  import opened IsolateValues
  import opened IsolateCondition
  import opened IsolateTable
  import opened IsolateMerge
  import opened IsolateFiles
  import opened IsolateMeaning
  import opened IsolateBlocks
  import opened IsolateRebase

  datatype Block = Block(files: seq<string>, command: seq<string>, readOnly: Option<int>)

  datatype Guarded = Guarded(expr: Expr, block: Block)

  /** A file with the directory it lies in; its includes lie in directories of their own. */
  datatype PlacedFile = PlacedFile(dir: string, block: Block, conditions: seq<Guarded>, includes: seq<PlacedFile>)

  /** LoadIsolateAsConfig refuses a directory that is not absolute. */
  predicate PlacedTree(p: PlacedFile) {
    IsAbs(p.dir) && forall i | 0 <= i < |p.includes| :: PlacedTree(p.includes[i])
  }

  // ----- What a tree stands for -----

  /** A command together with the directory to run it in. */
  function RunIn(dir: string, command: seq<string>): seq<string> {
    if command == [] then [] else [dir] + command
  }

  /** Settings by what they stand for: absolute files, and the command in its directory. */
  function Meant(c: ConfigSettings): Settings {
    if c.isolateDir == "" then Empty
    else Settings(Resolved(c).Files(), RunIn(c.isolateDir, c.command), c.readOnly)
  }

  function MeantVariables(dir: string, block: Block): Variables {
    Variables(set f | f in block.files :: FileText(dir, f), RunIn(dir, block.command), block.readOnly)
  }

  /** Every entry and command of the tree taken in the directory of its own file. */
  function MeantFile(p: PlacedFile): IsolateFile {
    IsolateFile(MeantVariables(p.dir, p.block),
                seq(|p.conditions|, i requires 0 <= i < |p.conditions| =>
                  Condition(p.conditions[i].expr, MeantVariables(p.dir, p.conditions[i].block))),
                seq(|p.includes|, i requires 0 <= i < |p.includes| => MeantFile(p.includes[i])))
  }

  // ----- Tables -----

  type DirTable = map<Name, ConfigSettings>

  ghost predicate PlacedTable(t: DirTable) {
    forall key | key in t :: IsAbs(t[key].isolateDir)
  }

  function MeantTable(t: DirTable): (m: Table)
    ensures m.Keys == t.Keys
  {
    map key | key in t :: Meant(t[key])
  }

  /** In order; repetitions stay. */
  ghost predicate InStringOrder(s: seq<string>) {
    forall i, j | 0 <= i < j < |s| :: !Less(s[j], s[i])
  }

  /** sort.Strings. */
  function SortStrings(s: seq<string>): (r: seq<string>)
    ensures InStringOrder(r) && multiset(r) == multiset(s) && forall x :: x in r <==> x in s
  {
    if s == [] then []
    else
      var rest := SortStrings(s[1..]);
      Inserted(s[0], rest);
      assert s == [s[0]] + s[1..];
      assert forall x :: x in InsertString(s[0], rest) <==> x in multiset(InsertString(s[0], rest));
      InsertString(s[0], rest)
  }

  lemma {:induction false} Inserted(x: string, s: seq<string>)
    requires InStringOrder(s)
    ensures InStringOrder(InsertString(x, s)) && multiset(InsertString(x, s)) == multiset([x] + s)
  {
    var r := InsertString(x, s);
    if s != [] {
      assert s == [s[0]] + s[1..];
      LessTrichotomy(x, s[0]);
      if Less(x, s[0]) {
        LessTrichotomy(s[0], s[0]);
        forall j | 0 < j < |r| ensures !Less(r[j], x) {
          assert r[j] == s[j - 1];
          NotLess(x, s[0], r[j]);
        }
      } else {
        Inserted(x, s[1..]);
        var rest := InsertString(x, s[1..]);
        forall j | 0 <= j < |rest| ensures !Less(rest[j], s[0]) {
          assert rest[j] in multiset(rest);
          assert rest[j] == x || rest[j] in s[1..];
        }
      }
    }
  }

  lemma NotLess(a: string, b: string, c: string)
    requires Less(a, b) && !Less(c, b)
    ensures !Less(c, a)
  {
    if Less(c, a) {
      LessTransitive(c, a, b);
    }
  }

  /** newConfigSettings. */
  function NewConfigSettings(dir: string, block: Block): ConfigSettings {
    ConfigSettings(SortStrings(block.files), block.command,
                   if block.readOnly.Some? then block.readOnly.value else NOT_SET, dir)
  }

  lemma NewMeant(dir: string, block: Block)
    requires IsAbs(dir)
    ensures Meant(NewConfigSettings(dir, block)) == NewSettings(MeantVariables(dir, block))
  {
    hide FileText;
  }

  /** Entry by entry union, the left table first. */
  ghost function MergeDirs(a: DirTable, b: DirTable): (m: DirTable)
    requires PlacedTable(a) && PlacedTable(b)
    ensures PlacedTable(m)
  {
    map key | key in a.Keys + b.Keys ::
      if key in a && key in b then UnionOf(a[key], b[key]) else if key in a then a[key] else b[key]
  }

  /** No entry turns into a path variable when the tables are merged. */
  ghost predicate RebasesWell(a: DirTable, b: DirTable)
    requires PlacedTable(a) && PlacedTable(b)
  {
    forall key | key in a && key in b :: Mergeable(a[key], b[key])
  }

  lemma UnionMeant(l: ConfigSettings, r: ConfigSettings)
    requires Placed(l) && Placed(r) && Mergeable(l, r)
    ensures Meant(UnionOf(l, r)) == Union(Meant(l), Meant(r))
  {
    hide Mergeable, MergedFiles, FileText;
    UnionOfMeans(l, r);
  }

  lemma MergeMeant(a: DirTable, b: DirTable)
    requires PlacedTable(a) && PlacedTable(b) && RebasesWell(a, b)
    ensures MeantTable(MergeDirs(a, b)) == IsolateMerge.Merge(MeantTable(a), MeantTable(b))
  {
    hide Meant, UnionOf, Mergeable;
    forall key | key in a && key in b ensures Meant(UnionOf(a[key], b[key])) == Union(Meant(a[key]), Meant(b[key])) {
      UnionMeant(a[key], b[key]);
    }
  }

  /** A table over `from`, restated over `to`. */
  ghost function WidenDirs(t: DirTable, from: seq<string>, to: seq<string>): (w: DirTable)
    requires forall key | key in t :: |key| == |from|
    ensures forall key | key in w :: |key| == |to|
    ensures PlacedTable(t) ==> PlacedTable(w)
  {
    map key | key in (set k | k in t :: Project(k, from, to)) && Project(key, to, from) in t ::
      t[Project(key, to, from)]
  }

  lemma WidenMeant(t: DirTable, from: seq<string>, to: seq<string>)
    requires forall key | key in t :: |key| == |from|
    ensures MeantTable(WidenDirs(t, from, to)) == Widen(MeantTable(t), from, to)
  {
    hide Meant, Project;
    assert (set k | k in t :: Project(k, from, to)) == set k | k in MeantTable(t) :: Project(k, from, to);
  }

  predicate HasCommandIn(t: DirTable) {
    exists key | key in t :: |t[key].command| > 0
  }

  function StripDirs(t: DirTable, strip: bool): DirTable {
    if strip then map key | key in t :: t[key].(command := []) else t
  }

  lemma StripMeant(t: DirTable, strip: bool)
    ensures MeantTable(StripDirs(t, strip)) == Strip(MeantTable(t), strip)
  {
    hide FileText;
  }

  // ----- Loading -----

  datatype DirCompiled = DirCompiled(vars: seq<string>, table: DirTable) {
    ghost predicate Valid() {
      Sorted(vars) && PlacedTable(table) && forall key | key in table :: |key| == |vars|
    }
  }

  /** The rows of a condition: which ones they are does not depend on the entries. */
  ghost function ConditionDirs(p: PlacedFile, i: nat): (t: DirTable)
    requires AcceptedFile(MeantFile(p)) && i < |p.conditions|
    ensures forall key | key in t :: |key| == |VariablesOf(MeantFile(p))|
    ensures IsAbs(p.dir) ==> PlacedTable(t)
  {
    var f := MeantFile(p);
    map key | key in ConditionTable(f.conditions[i], KeptValues(f.conditions), VariablesOf(f)) ::
      NewConfigSettings(p.dir, p.conditions[i].block)
  }

  /** The global block and the first i conditions. */
  ghost function StageDirs(p: PlacedFile, i: nat): (t: DirTable)
    requires AcceptedFile(MeantFile(p)) && IsAbs(p.dir) && i <= |p.conditions|
    ensures PlacedTable(t) && forall key | key in t :: |key| == |VariablesOf(MeantFile(p))|
  {
    if i == 0 then map[NothingBound(|VariablesOf(MeantFile(p))|) := NewConfigSettings(p.dir, p.block)]
    else MergeDirs(StageDirs(p, i - 1), ConditionDirs(p, i - 1))
  }

  ghost function MergeDirCompiled(a: DirCompiled, b: DirCompiled): (c: DirCompiled)
    requires a.Valid() && b.Valid()
    ensures c.Valid()
  {
    var vars := MergedVariables(a.vars, b.vars);
    DirCompiled(vars, MergeDirs(WidenDirs(a.table, a.vars, vars), WidenDirs(b.table, b.vars, vars)))
  }

  lemma AcceptedInclude(p: PlacedFile, i: nat)
    requires AcceptedTree(MeantFile(p)) && i < |p.includes|
    ensures MeantFile(p).includes[i] == MeantFile(p.includes[i]) && AcceptedTree(MeantFile(p.includes[i]))
  {
    hide AcceptedFile;
  }

  /** LoadIsolateAsConfig. */
  ghost function CompileDirs(p: PlacedFile): (c: DirCompiled)
    requires PlacedTree(p) && AcceptedTree(MeantFile(p))
    ensures c.Valid()
    decreases p, |p.includes| + 1
  {
    CompileIncludeDirs(p, 0)
  }

  /** The own table merged with the includes from position i on. */
  ghost function CompileIncludeDirs(p: PlacedFile, i: nat): (c: DirCompiled)
    requires PlacedTree(p) && AcceptedTree(MeantFile(p)) && i <= |p.includes|
    ensures c.Valid()
    decreases p, |p.includes| - i
  {
    var own := StageDirs(p, |p.conditions|);
    if i == |p.includes| then DirCompiled(VariablesOf(MeantFile(p)), own)
    else
      AcceptedInclude(p, i);
      var included := CompileDirs(p.includes[i]);
      MergeDirCompiled(CompileIncludeDirs(p, i + 1),
                       DirCompiled(included.vars, StripDirs(included.table, HasCommandIn(own))))
  }

  /** It stands for the table that the tree is compiled to by what it stands for. */
  ghost predicate StandsFor(c: DirCompiled, f: Compiled) {
    c.vars == f.vars && MeantTable(c.table) == f.table
  }

  /** Within one directory nothing is rebased. */
  ghost predicate InDir(t: DirTable, dir: string) {
    forall key | key in t :: t[key].isolateDir == dir
  }

  lemma StaysInDir(a: DirTable, b: DirTable, dir: string)
    requires IsAbs(dir) && InDir(a, dir) && InDir(b, dir)
    ensures PlacedTable(a) && PlacedTable(b)
    ensures RebasesWell(a, b) && InDir(MergeDirs(a, b), dir)
  {
    hide CleanOf, Rebased, MergedFiles;
    AbsRel(dir, dir);
    assert RebasePath(dir, dir) == ".";
  }

  lemma {:induction false} StageMeant(p: PlacedFile, i: nat)
    requires AcceptedFile(MeantFile(p)) && IsAbs(p.dir) && i <= |p.conditions|
    ensures InDir(StageDirs(p, i), p.dir) && MeantTable(StageDirs(p, i)) == StageTable(MeantFile(p), i)
  {
    hide Meant, NewSettings, KeptValues, VariablesOf, MeantVariables, ConditionTable, IsolateMerge.Merge, MergeDirs;
    if i == 0 {
      NewMeant(p.dir, p.block);
    } else {
      StageMeant(p, i - 1);
      ConditionMeant(p, i - 1);
      StaysInDir(StageDirs(p, i - 1), ConditionDirs(p, i - 1), p.dir);
      MergeMeant(StageDirs(p, i - 1), ConditionDirs(p, i - 1));
    }
  }

  lemma ConditionMeant(p: PlacedFile, i: nat)
    requires AcceptedFile(MeantFile(p)) && IsAbs(p.dir) && i < |p.conditions|
    ensures InDir(ConditionDirs(p, i), p.dir)
    ensures var f := MeantFile(p);
      MeantTable(ConditionDirs(p, i)) == ConditionTable(f.conditions[i], KeptValues(f.conditions), VariablesOf(f))
  {
    hide Meant, NewSettings, KeptValues, VariablesOf, MeantVariables, ConditionTable;
    var f := MeantFile(p);
    NewMeant(p.dir, p.conditions[i].block);
    RowSettings(f.conditions[i], KeptValues(f.conditions), VariablesOf(f));
  }

  /** No entry turns into a path variable when an include is merged. */
  ghost predicate MergesWell(a: DirCompiled, b: DirCompiled)
    requires a.Valid() && b.Valid()
  {
    var vars := MergedVariables(a.vars, b.vars);
    RebasesWell(WidenDirs(a.table, a.vars, vars), WidenDirs(b.table, b.vars, vars))
  }

  lemma MergeCompiledMeant(a: DirCompiled, b: DirCompiled, f: Compiled, g: Compiled)
    requires a.Valid() && b.Valid() && f.Valid() && g.Valid() && StandsFor(a, f) && StandsFor(b, g) && MergesWell(a, b)
    ensures StandsFor(MergeDirCompiled(a, b), MergeCompiled(f, g))
  {
    hide IsolateMerge.Merge, Widen, MergeDirs, WidenDirs, MeantTable, RebasesWell;
    var vars := MergedVariables(a.vars, b.vars);
    WidenMeant(a.table, a.vars, vars);
    WidenMeant(b.table, b.vars, vars);
    MergeMeant(WidenDirs(a.table, a.vars, vars), WidenDirs(b.table, b.vars, vars));
  }

  lemma HasCommandMeant(t: DirTable)
    requires PlacedTable(t)
    ensures HasCommandIn(t) == HasCommand(MeantTable(t))
  {
  }

  lemma OwnMeant(p: PlacedFile)
    requires AcceptedFile(MeantFile(p)) && IsAbs(p.dir)
    ensures var own := StageDirs(p, |p.conditions|);
      MeantTable(own) == OwnTable(MeantFile(p)) && HasCommandIn(own) == HasCommand(OwnTable(MeantFile(p)))
  {
    hide StageDirs, StageTable, MeantTable;
    StageMeant(p, |p.conditions|);
    HasCommandMeant(StageDirs(p, |p.conditions|));
    assert |MeantFile(p).conditions| == |p.conditions|;
  }

  /** The table of an include as it is merged. */
  ghost function StrippedDirs(p: PlacedFile, i: nat): (c: DirCompiled)
    requires PlacedTree(p) && AcceptedTree(MeantFile(p)) && i < |p.includes|
    ensures c.Valid()
  {
    AcceptedInclude(p, i);
    var included := CompileDirs(p.includes[i]);
    DirCompiled(included.vars, StripDirs(included.table, HasCommandIn(StageDirs(p, |p.conditions|))))
  }

  lemma IncludeNextDirs(p: PlacedFile, i: nat)
    requires PlacedTree(p) && AcceptedTree(MeantFile(p)) && i < |p.includes|
    ensures CompileIncludeDirs(p, i) == MergeDirCompiled(CompileIncludeDirs(p, i + 1), StrippedDirs(p, i))
  {
    hide StageDirs, HasCommandIn, StripDirs, MergeDirCompiled;
  }

  lemma NoMoreIncludeDirs(p: PlacedFile)
    requires PlacedTree(p) && AcceptedTree(MeantFile(p))
    ensures CompileIncludeDirs(p, |p.includes|)
         == DirCompiled(VariablesOf(MeantFile(p)), StageDirs(p, |p.conditions|))
  {
    hide StageDirs, VariablesOf;
  }

  lemma StrippedMeant(p: PlacedFile, i: nat)
    requires PlacedTree(p) && AcceptedTree(MeantFile(p)) && i < |p.includes|
    requires AcceptedTree(MeantFile(p.includes[i]))
    requires StandsFor(CompileDirs(p.includes[i]), Compile(MeantFile(p.includes[i])))
    ensures StandsFor(StrippedDirs(p, i), Stripped(MeantFile(p), i))
  {
    hide MeantTable, OwnTable, HasCommand, HasCommandIn, StageDirs, Strip, StripDirs, CompileDirs, Compile;
    AcceptedInclude(p, i);
    OwnMeant(p);
    StripMeant(CompileDirs(p.includes[i]).table, HasCommandIn(StageDirs(p, |p.conditions|)));
  }

  /** No entry turns into a path variable while the includes from position i on are merged, or theirs. */
  ghost predicate LoadsWell(p: PlacedFile, i: nat)
    requires PlacedTree(p) && AcceptedTree(MeantFile(p)) && i <= |p.includes|
    decreases p, |p.includes| - i
  {
    i < |p.includes| ==>
      && LoadsWell(p, i + 1)
      && (AcceptedInclude(p, i); LoadsWell(p.includes[i], 0))
      && MergesWell(CompileIncludeDirs(p, i + 1), StrippedDirs(p, i))
  }

  /** Then the table of entries as they are written stands for the table of what they stand for. */
  lemma {:induction false} IncludesMeant(p: PlacedFile, i: nat)
    requires PlacedTree(p) && AcceptedTree(MeantFile(p)) && i <= |p.includes| && LoadsWell(p, i)
    ensures StandsFor(CompileIncludeDirs(p, i), CompileIncludes(MeantFile(p), i))
    decreases p, |p.includes| - i
  {
    hide CompileIncludeDirs, CompileIncludes, MergeCompiled, MergeDirCompiled, Stripped, StrippedDirs, StandsFor,
         AcceptedTree, MergesWell;
    if i == |p.includes| {
      OwnStands(p);
    } else {
      AcceptedInclude(p, i);
      IncludesMeant(p, i + 1);
      IncludesMeant(p.includes[i], 0);
      IncludeNext(MeantFile(p), i);
      IncludeNextDirs(p, i);
      StrippedMeant(p, i);
      MergeCompiledMeant(CompileIncludeDirs(p, i + 1), StrippedDirs(p, i),
                         CompileIncludes(MeantFile(p), i + 1), Stripped(MeantFile(p), i));
    }
  }

  lemma OwnStands(p: PlacedFile)
    requires PlacedTree(p) && AcceptedTree(MeantFile(p))
    ensures StandsFor(CompileIncludeDirs(p, |p.includes|), CompileIncludes(MeantFile(p), |p.includes|))
  {
    hide StageDirs, OwnTable, MeantTable, VariablesOf, CompileIncludeDirs, CompileIncludes;
    OwnMeant(p);
    NoMoreIncludes(MeantFile(p));
    NoMoreIncludeDirs(p);
    assert |MeantFile(p).includes| == |p.includes|;
  }

  // ----- Querying -----

  /** The keys of a table in the order in which getSortedConfigPairs lists them. */
  ghost predicate InOrder(keys: seq<Name>, t: DirTable, n: nat) {
    && (forall key :: key in keys <==> key in t)
    && (forall i | 0 <= i < |keys| :: |keys[i]| == n)
    && forall i, j | 0 <= i < j < |keys| :: keys[i] != keys[j] && CompareNames(keys[j], keys[i]) <= 0
  }

  /** GetConfig: the union of the rows that apply, starting from the empty object. */
  ghost function QueryAlong(t: DirTable, keys: seq<Name>, config: Name): (c: ConfigSettings)
    requires PlacedTable(t) && forall i | 0 <= i < |keys| :: keys[i] in t && |config| <= |keys[i]|
    ensures Placed(c)
  {
    if keys == [] then ConfigSettings([], [], 0, "")
    else
      var out, key := QueryAlong(t, keys[..|keys| - 1], config), keys[|keys| - 1];
      if Selects(config, key) then UnionOf(out, t[key]) else out
  }

  function MeantRows(t: DirTable, keys: seq<Name>): seq<Row>
    requires forall i | 0 <= i < |keys| :: keys[i] in t
  {
    seq(|keys|, i requires 0 <= i < |keys| => Row(keys[i], Meant(t[keys[i]])))
  }

  /** No entry turns into a path variable while rows are merged. */
  ghost predicate QueriesWell(t: DirTable, keys: seq<Name>, config: Name)
    requires PlacedTable(t) && forall i | 0 <= i < |keys| :: keys[i] in t && |config| <= |keys[i]|
  {
    keys != [] ==>
      var front, key := keys[..|keys| - 1], keys[|keys| - 1];
      QueriesWell(t, front, config) && (Selects(config, key) ==> Mergeable(QueryAlong(t, front, config), t[key]))
  }

  lemma {:induction false} QueryAlongMeant(t: DirTable, keys: seq<Name>, config: Name)
    requires PlacedTable(t) && forall i | 0 <= i < |keys| :: keys[i] in t && |config| <= |keys[i]|
    requires QueriesWell(t, keys, config)
    ensures Meant(QueryAlong(t, keys, config)) == Fold(Selected(MeantRows(t, keys), config))
  {
    hide Selects, UnionOf, FileText, Mergeable;
    if keys != [] {
      var front, key := keys[..|keys| - 1], keys[|keys| - 1];
      QueryAlongMeant(t, front, config);
      if Selects(config, key) {
        UnionMeant(QueryAlong(t, front, config), t[key]);
      }
      var rows := MeantRows(t, keys);
      assert rows[..|rows| - 1] == MeantRows(t, front);
      var values := Selected(MeantRows(t, front), config);
      assert Selected(rows, config) == if Selects(config, key) then values + [Meant(t[key])] else values;
      assert (values + [Meant(t[key])])[..|values|] == values;
    }
  }

  /** The result of a query stands for the files of the rows that apply, each taken in its own directory. */
  lemma QueryAlongFiles(t: DirTable, keys: seq<Name>, config: Name, file: string)
    requires PlacedTable(t) && forall i | 0 <= i < |keys| :: keys[i] in t && |config| <= |keys[i]|
    requires QueriesWell(t, keys, config)
    ensures file in Meant(QueryAlong(t, keys, config)).Files() <==>
            exists key | key in keys :: Selects(config, key) && file in Meant(t[key]).Files()
  {
    hide Selects, Meant, QueryAlong, QueriesWell;
    var rows := MeantRows(t, keys);
    QueryAlongMeant(t, keys, config);
    SelectedFiles(rows, config, file);
    forall key | key in keys ensures Row(key, Meant(t[key])) in rows {
      var i :| 0 <= i < |keys| && keys[i] == key;
      assert rows[i] == Row(key, Meant(t[key]));
    }
  }

  lemma MeantRowsOf(t: DirTable, keys: seq<Name>, n: nat)
    requires InOrder(keys, t, n)
    ensures RowsOf(MeantRows(t, keys), MeantTable(t)) && Wide(MeantTable(t), n)
  {
    hide Meant, CompareNames;
    var rows := MeantRows(t, keys);
    forall key | key in t ensures |key| == n && Row(key, MeantTable(t)[key]) in rows {
      var i :| 0 <= i < |keys| && keys[i] == key;
      assert rows[i] == Row(key, Meant(t[key]));
    }
  }

  lemma MeantOrdered(t: DirTable, keys: seq<Name>, n: nat)
    requires InOrder(keys, t, n)
    ensures Ordered(MeantRows(t, keys), n)
  {
    hide Meant, CompareNames;
    var rows := MeantRows(t, keys);
    forall i, j | 0 <= i < j < |rows| ensures !Before(rows[j], rows[i]) {
      assert CompareNames(keys[j], keys[i]) <= 0;
    }
  }

  lemma MeantListing(t: DirTable, keys: seq<Name>, n: nat)
    requires InOrder(keys, t, n)
    ensures Wide(MeantTable(t), n) && MeantRows(t, keys) == Listing(MeantTable(t), n)
  {
    hide MeantTable, MeantRows, RowsOf, Ordered, Listing;
    MeantRowsOf(t, keys, n);
    MeantOrdered(t, keys, n);
    ListingFacts(MeantTable(t), n);
    OrderedUnique(MeantRows(t, keys), Listing(MeantTable(t), n), MeantTable(t), n);
  }

  lemma QueryMeant(p: PlacedFile, keys: seq<Name>, config: Name)
    requires PlacedTree(p) && AcceptedTree(MeantFile(p)) && LoadsWell(p, 0)
    requires InOrder(keys, CompileDirs(p).table, |config|) && |config| == |Compile(MeantFile(p)).vars|
    requires QueriesWell(CompileDirs(p).table, keys, config)
    ensures Meant(QueryAlong(CompileDirs(p).table, keys, config))
         == Query(Compile(MeantFile(p)).table, |config|, config)
  {
    hide Meant, MeantTable, MeantRows, CompileIncludeDirs, CompileIncludes, Fold, Selects, Listing, QueriesWell,
         LoadsWell;
    IncludesMeant(p, 0);
    QueryAlongMeant(CompileDirs(p).table, keys, config);
    MeantListing(CompileDirs(p).table, keys, |config|);
  }

  lemma RunInInjective(dir: string, command: seq<string>, dir': string, command': seq<string>)
    ensures RunIn(dir, command) == RunIn(dir', command') && command' != [] ==> dir == dir' && command == command'
  {
    assert RunIn(dir, command) != [] ==> RunIn(dir, command)[0] == dir && RunIn(dir, command)[1..] == command;
    assert RunIn(dir', command') != [] ==> RunIn(dir', command')[0] == dir' && RunIn(dir', command')[1..] == command';
  }

  lemma MeantGlobal(p: PlacedFile)
    ensures MeantFile(p).variables == MeantVariables(p.dir, p.block)
  {
  }

  /** When no entry turns into a path variable on the way, the query has a directory, and from there its
      entries stand for exactly the files of the tree that direct evaluation gives, each in the directory of its
      own file. A command comes from a block that applies, and the directory is that of its file; the mode comes
      from such a block too; and those of the global block of the top file win. */
  lemma TreePreserved(p: PlacedFile, keys: seq<Name>, config: Name, b: Binding)
    requires PlacedTree(p) && AcceptedTree(MeantFile(p)) && LoadsWell(p, 0)
    requires Represents(config, Compile(MeantFile(p)).vars, b) && InOrder(keys, CompileDirs(p).table, |config|)
    requires QueriesWell(CompileDirs(p).table, keys, config)
    ensures var c := QueryAlong(CompileDirs(p).table, keys, config);
      && IsAbs(c.isolateDir)
      && (set f | f in c.files :: FileText(c.isolateDir, f)) == DirectFiles(MeantFile(p), b)
      && (if c.command == [] then forall v | v in Applying(MeantFile(p), b) :: v.command == []
          else exists v | v in Applying(MeantFile(p), b) :: v.command == [c.isolateDir] + c.command)
      && (if c.readOnly == NOT_SET then forall v | v in Applying(MeantFile(p), b) :: v.readOnly.None?
          else exists v | v in Applying(MeantFile(p), b) :: v.readOnly == Some(c.readOnly))
      && (p.block.command != [] ==> c.isolateDir == p.dir && c.command == p.block.command)
      && (p.block.readOnly.Some? ==> c.readOnly == p.block.readOnly.value)
  {
    hide CompileDirs, Compile, DirectFiles, Applying, Query, FileText, QueryAlong, MeantFile, Represents, LoadsWell,
         QueriesWell;
    var f, c := MeantFile(p), QueryAlong(CompileDirs(p).table, keys, config);
    RepresentsLength(config, Compile(f).vars, b);
    QueryMeant(p, keys, config);
    GlobalBlockWins(f, config);
    ChoicesPreserved(f, config, b);
    assert f.variables == MeantVariables(p.dir, p.block) by { MeantGlobal(p); }
    RunInInjective(c.isolateDir, c.command, p.dir, p.block.command);
    forall file {
      MeaningPreserved(f, config, b, file);
    }
  }
}
