/** Which blocks the answer to a query is made of, in order of precedence, and so which command and which mode
    it has (client/isolate/format.go:93-152, 250-272, 405-475). */
module IsolateBlocks {
  import opened Text
  import opened IsolateValues
  import opened IsolateCondition
  import opened IsolateOdometer
  import opened IsolateMatch
  import opened IsolateTable
  import opened IsolateMerge
  import opened IsolateFiles
  import opened IsolateMeaning
  import opened IsolateChoice
  import opened IsolateApart

  // ----- Lists of blocks -----

  /** A block of an include, when the including file has a command of its own. */
  function Quiet(v: Variables, quiet: bool): Variables {
    if quiet then v.(command := []) else v
  }

  function QuietAll(blocks: seq<Variables>, quiet: bool): (r: seq<Variables>)
    ensures |r| == |blocks| && forall i | 0 <= i < |r| :: r[i] == Quiet(blocks[i], quiet)
  {
    seq(|blocks|, i requires 0 <= i < |blocks| => Quiet(blocks[i], quiet))
  }

  function FilesOf(blocks: seq<Variables>): set<string> {
    set i, x | 0 <= i < |blocks| && x in blocks[i].files :: x
  }

  function FirstCommand(blocks: seq<Variables>): seq<string> {
    if blocks == [] then [] else if blocks[0].command != [] then blocks[0].command else FirstCommand(blocks[1..])
  }

  function FirstMode(blocks: seq<Variables>): Option<int> {
    if blocks == [] then None else if blocks[0].readOnly.Some? then blocks[0].readOnly else FirstMode(blocks[1..])
  }

  /** A mode as settings have it. */
  function ModeOf(readOnly: Option<int>): int {
    match readOnly case None => NOT_SET case Some(mode) => mode
  }

  /** The settings of these blocks together: the first ones take precedence. */
  function Together(blocks: seq<Variables>): Settings {
    if blocks == [] then Empty else Settings(FilesOf(blocks), FirstCommand(blocks), ModeOf(FirstMode(blocks)))
  }

  ghost predicate AllVerified(blocks: seq<Variables>) {
    forall i | 0 <= i < |blocks| :: Verified(blocks[i])
  }

  lemma {:induction false} FirstOfConcat(a: seq<Variables>, b: seq<Variables>)
    ensures FirstCommand(a + b) == if FirstCommand(a) != [] then FirstCommand(a) else FirstCommand(b)
    ensures FirstMode(a + b) == if FirstMode(a).Some? then FirstMode(a) else FirstMode(b)
  {
    if a == [] {
      assert a + b == b;
    } else {
      assert (a + b)[1..] == a[1..] + b;
      FirstOfConcat(a[1..], b);
    }
  }

  lemma {:induction false} FirstModeVerified(blocks: seq<Variables>)
    requires AllVerified(blocks)
    ensures FirstMode(blocks).Some? ==> FirstMode(blocks).value != NOT_SET
  {
    if blocks != [] {
      FirstModeVerified(blocks[1..]);
    }
  }

  lemma FilesOfConcat(a: seq<Variables>, b: seq<Variables>)
    ensures FilesOf(a + b) == FilesOf(a) + FilesOf(b)
  {
    forall x | x in FilesOf(a) + FilesOf(b) ensures x in FilesOf(a + b) {
      if x in FilesOf(a) {
        var i :| 0 <= i < |a| && x in a[i].files;
        assert (a + b)[i] == a[i];
      } else {
        var i :| 0 <= i < |b| && x in b[i].files;
        assert (a + b)[|a| + i] == b[i];
      }
    }
  }

  /** Merging settings is putting the blocks of the one behind those of the other. */
  lemma TogetherConcat(a: seq<Variables>, b: seq<Variables>)
    requires AllVerified(a)
    ensures Together(a + b) == Union(Together(a), Together(b))
  {
    FirstOfConcat(a, b);
    FilesOfConcat(a, b);
    FirstModeVerified(a);
    assert a == [] ==> a + b == b;
    assert b == [] ==> a + b == a;
  }

  lemma TogetherOne(v: Variables)
    ensures Together([v]) == NewSettings(v)
  {
    assert [v][1..] == [] && [v][0] == v;
    forall x | x in v.files ensures x in FilesOf([v]) {
      assert x in [v][0].files;
    }
    assert FilesOf([v]) == v.files;
    assert FirstCommand([v]) == v.command;
    assert FirstMode([]) == None;
  }

  lemma {:induction false} QuietFirst(blocks: seq<Variables>)
    ensures FirstCommand(QuietAll(blocks, true)) == []
    ensures FirstMode(QuietAll(blocks, true)) == FirstMode(blocks)
  {
    if blocks != [] {
      QuietFirst(blocks[1..]);
      assert QuietAll(blocks, true)[1..] == QuietAll(blocks[1..], true);
    }
  }

  lemma TogetherQuiet(blocks: seq<Variables>, quiet: bool)
    ensures Together(QuietAll(blocks, quiet))
         == if quiet then WithoutCommand(Together(blocks)) else Together(blocks)
  {
    if quiet {
      QuietFirst(blocks);
      var r := QuietAll(blocks, true);
      forall x ensures x in FilesOf(r) <==> x in FilesOf(blocks) {
        if x in FilesOf(blocks) {
          var i :| 0 <= i < |blocks| && x in blocks[i].files;
          assert x in r[i].files;
        }
      }
    } else {
      assert QuietAll(blocks, false) == blocks;
    }
  }

  // ----- The blocks of a row -----

  /** Of the global block and the first i conditions, those with the row that binds m. */
  ghost function OwnBlocks(f: IsolateFile, m: Partial, i: nat): (blocks: seq<Variables>)
    requires AcceptedFile(f) && i <= |f.conditions|
    ensures AllVerified(blocks)
  {
    if i == 0 then if m == map[] then [f.variables] else []
    else OwnBlocks(f, m, i - 1) + if Decides(f, i - 1, m) then [f.conditions[i - 1].variables] else []
  }

  /** Then those of the includes, from the last one to that at position i. */
  ghost function TreeBlocks(f: IsolateFile, m: Partial, i: nat): (blocks: seq<Variables>)
    requires AcceptedTree(f) && i <= |f.includes|
    ensures AllVerified(blocks)
    decreases f, |f.includes| - i
  {
    if i == |f.includes| then OwnBlocks(f, m, |f.conditions|)
    else TreeBlocks(f, m, i + 1) + QuietAll(TreeBlocks(f.includes[i], m, 0), HasCommand(OwnTable(f)))
  }

  /** The value of the row that binds m. */
  ghost function ValueOf(c: Compiled, m: Partial): Settings
    requires c.Valid()
  {
    var name := NameOf(c.vars, m);
    if BoundOf(c.vars, name) == m && name in c.table then c.table[name] else Empty
  }

  lemma NameOfRow(vars: seq<string>, name: Name)
    requires Sorted(vars) && |name| == |vars|
    ensures NameOf(vars, BoundOf(vars, name)) == name
  {
    forall i | 0 <= i < |vars| ensures NameOf(vars, BoundOf(vars, name))[i] == name[i] {
      BoundAt(vars, name, i);
    }
  }

  lemma ValueOfRow(c: Compiled, name: Name)
    requires c.Valid() && name in c.table
    ensures ValueOf(c, BoundOf(c.vars, name)) == c.table[name]
  {
    NameOfRow(c.vars, name);
  }

  lemma NoSuchRow(c: Compiled, m: Partial)
    requires c.Valid() && m !in Rows(c)
    ensures ValueOf(c, m) == Empty
  {
    hide BoundOf, NameOf;
  }

  lemma ValueMerged(vars: seq<string>, a: Table, b: Table, m: Partial)
    requires Sorted(vars) && Wide(a, |vars|) && Wide(b, |vars|)
    ensures Wide(Merge(a, b), |vars|)
    ensures ValueOf(Compiled(vars, Merge(a, b)), m)
         == Union(ValueOf(Compiled(vars, a), m), ValueOf(Compiled(vars, b), m))
  {
    hide BoundOf, NameOf;
    MergeKeys(a, b);
  }

  lemma ValueWidened(t: Table, from: seq<string>, to: seq<string>, m: Partial)
    requires Wide(t, |from|) && Sorted(from) && Sorted(to) && forall x | x in from :: x in to
    ensures Wide(Widen(t, from, to), |to|)
    ensures ValueOf(Compiled(to, Widen(t, from, to)), m) == ValueOf(Compiled(from, t), m)
  {
    RowsWidened(t, from, to);
    hide BoundOf, NameOf, Widen, Project, ValueOf;
    var narrow, wide := Compiled(from, t), Compiled(to, Widen(t, from, to));
    if m in Rows(narrow) {
      var key :| key in t && BoundOf(from, key) == m;
      WidenAt(t, from, to, key);
      BoundProjected(from, to, key);
      ValueOfRow(narrow, key);
      ValueOfRow(wide, Project(key, from, to));
    } else {
      NoSuchRow(narrow, m);
      NoSuchRow(wide, m);
    }
  }

  lemma ValueMergedCompiled(a: Compiled, b: Compiled, m: Partial)
    requires a.Valid() && b.Valid()
    ensures ValueOf(MergeCompiled(a, b), m) == Union(ValueOf(a, m), ValueOf(b, m))
  {
    hide ValueOf, Merge, Widen;
    var vars := MergeCompiled(a, b).vars;
    ValueWidened(a.table, a.vars, vars, m);
    ValueWidened(b.table, b.vars, vars, m);
    ValueMerged(vars, Widen(a.table, a.vars, vars), Widen(b.table, b.vars, vars), m);
  }

  lemma ValueStripped(f: IsolateFile, i: nat, m: Partial)
    requires AcceptedTree(f) && i < |f.includes|
    ensures var before := ValueOf(Compile(f.includes[i]), m);
      ValueOf(Stripped(f, i), m) == if HasCommand(OwnTable(f)) then WithoutCommand(before) else before
  {
    hide Compile, BoundOf, NameOf, OwnTable, HasCommand;
  }

  lemma ValueOfCondition(f: IsolateFile, i: nat, m: Partial)
    requires AcceptedFile(f) && i < |f.conditions|
    ensures ValueOf(Compiled(VariablesOf(f), RowsAt(f, i)), m)
         == Together(if Decides(f, i, m) then [f.conditions[i].variables] else [])
  {
    hide KeptValues, VariablesOf, Decides, ConditionTable, BoundOf, NameOf, Rows, Together;
    var c := Compiled(VariablesOf(f), RowsAt(f, i));
    ConditionRows(f, i, m);
    TogetherOne(f.conditions[i].variables);
    TogetherNone();
    if Decides(f, i, m) {
      var name := RowOf(c, m);
      ValueOfRow(c, name);
      RowSettings(f.conditions[i], KeptValues(f.conditions), VariablesOf(f));
    } else {
      NoSuchRow(c, m);
    }
  }

  lemma TogetherNone()
    ensures Together([]) == Empty
  {
  }

  lemma RowOf(c: Compiled, m: Partial) returns (name: Name)
    requires c.Valid() && m in Rows(c)
    ensures name in c.table && BoundOf(c.vars, name) == m
  {
    name :| name in c.table && BoundOf(c.vars, name) == m;
  }

  lemma ValueOfGlobal(f: IsolateFile, m: Partial)
    requires AcceptedFile(f)
    ensures ValueOf(Compiled(VariablesOf(f), StageTable(f, 0)), m) == Together(OwnBlocks(f, m, 0))
  {
    hide KeptValues, VariablesOf, BoundOf, NameOf, Rows, Together;
    var c := Compiled(VariablesOf(f), StageTable(f, 0));
    GlobalRows(f, m);
    TogetherOne(f.variables);
    TogetherNone();
    if m == map[] {
      var name := RowOf(c, m);
      ValueOfRow(c, name);
    } else {
      NoSuchRow(c, m);
    }
  }

  lemma {:induction false} ValueOfStage(f: IsolateFile, m: Partial, i: nat)
    requires AcceptedFile(f) && i <= |f.conditions|
    ensures ValueOf(Compiled(VariablesOf(f), StageTable(f, i)), m) == Together(OwnBlocks(f, m, i))
  {
    hide KeptValues, VariablesOf, Decides, ConditionTable, ValueOf, Together, Merge, Union;
    if i == 0 {
      ValueOfGlobal(f, m);
    } else {
      ValueOfStage(f, m, i - 1);
      ValueOfCondition(f, i - 1, m);
      ValueMerged(VariablesOf(f), StageTable(f, i - 1), RowsAt(f, i - 1), m);
      TogetherConcat(OwnBlocks(f, m, i - 1), if Decides(f, i - 1, m) then [f.conditions[i - 1].variables] else []);
    }
  }

  /** A row of the compiled table has the settings of its blocks, the first ones taking precedence: those of
      the file itself, in order, and then those of its includes, from the last to the first. */
  lemma {:induction false} ValueOfIncludes(f: IsolateFile, m: Partial, i: nat)
    requires AcceptedTree(f) && i <= |f.includes|
    ensures ValueOf(CompileIncludes(f, i), m) == Together(TreeBlocks(f, m, i))
    decreases f, |f.includes| - i
  {
    hide OwnTable, HasCommand, CompileIncludes, MergeCompiled, ValueOf, Together, Union, QuietAll, OwnBlocks;
    if i == |f.includes| {
      NoMoreIncludes(f);
      OwnIs(f);
      ValueOfStage(f, m, |f.conditions|);
    } else {
      var quiet := HasCommand(OwnTable(f));
      IncludeNext(f, i);
      CompileIs(f.includes[i]);
      ValueOfIncludes(f, m, i + 1);
      ValueOfIncludes(f.includes[i], m, 0);
      ValueStripped(f, i, m);
      ValueMergedCompiled(CompileIncludes(f, i + 1), Stripped(f, i), m);
      TogetherQuiet(TreeBlocks(f.includes[i], m, 0), quiet);
      TogetherConcat(TreeBlocks(f, m, i + 1), QuietAll(TreeBlocks(f.includes[i], m, 0), quiet));
    }
  }

  // ----- The blocks of a query -----

  /** The blocks of the rows that apply, in the order of the rows. */
  ghost function RowBlocks(f: IsolateFile, rows: seq<Row>, vars: seq<string>, config: Name): (blocks: seq<Variables>)
    requires AcceptedTree(f) && |config| == |vars| && Width(rows, |vars|)
    ensures AllVerified(blocks)
  {
    if rows == [] then []
    else
      var front, key := rows[..|rows| - 1], rows[|rows| - 1].key;
      RowBlocks(f, front, vars, config)
      + if Selects(config, key) then TreeBlocks(f, BoundOf(vars, key), 0) else []
  }

  /** The blocks of an answer, in order of precedence. */
  ghost function AnswerBlocks(f: IsolateFile, config: Name): seq<Variables>
    requires AcceptedTree(f) && |config| == |Compile(f).vars|
  {
    RowBlocks(f, Listing(Compile(f).table, |config|), Compile(f).vars, config)
  }

  lemma {:induction false} FoldRows(f: IsolateFile, rows: seq<Row>, config: Name)
    requires AcceptedTree(f) && |config| == |Compile(f).vars| && Width(rows, |config|)
    requires forall row | row in rows :: row.key in Compile(f).table && Compile(f).table[row.key] == row.value
    ensures Fold(Selected(rows, config)) == Together(RowBlocks(f, rows, Compile(f).vars, config))
  {
    hide Compile, TreeBlocks, Together, Union, Selects, BoundOf;
    TogetherNone();
    if rows != [] {
      var front, last := rows[..|rows| - 1], rows[|rows| - 1];
      FoldRows(f, front, config);
      assert last in rows;
      ValueOfTree(f, last.key);
      TogetherConcat(RowBlocks(f, front, Compile(f).vars, config),
                     TreeBlocks(f, BoundOf(Compile(f).vars, last.key), 0));
      var before := Selected(front, config);
      assert (before + [last.value])[..|before|] == before;
      assert before + [] == before;
      assert RowBlocks(f, front, Compile(f).vars, config) + [] == RowBlocks(f, front, Compile(f).vars, config);
    }
  }

  lemma ValueOfTree(f: IsolateFile, key: Name)
    requires AcceptedTree(f) && key in Compile(f).table
    ensures Compile(f).table[key] == Together(TreeBlocks(f, BoundOf(Compile(f).vars, key), 0))
  {
    hide CompileIncludes, BoundOf, TreeBlocks, Together, ValueOf;
    CompileIs(f);
    ValueOfRow(Compile(f), key);
    ValueOfIncludes(f, BoundOf(Compile(f).vars, key), 0);
  }

  lemma ListingFacts(t: Table, n: nat)
    requires Wide(t, n)
    ensures RowsOf(Listing(t, n), t) && Ordered(Listing(t, n), n)
  {
    hide RowsOf, Ordered, ValuesAt;
    SortedRowsOf(Enumerate(t), t, n);
    StableSortCorrect(Enumerate(t), n, []);
  }

  /** The command that is first in a list, and the mode. */
  ghost predicate FirstWin(s: Settings, blocks: seq<Variables>) {
    && (if s.Command() == [] then forall v | v in blocks :: v.command == []
        else exists k | 0 <= k < |blocks| ::
          blocks[k].command == s.Command() && forall j | 0 <= j < k :: blocks[j].command == [])
    && (if s.Mode() == NOT_SET then forall v | v in blocks :: v.readOnly.None?
        else exists k | 0 <= k < |blocks| ::
          blocks[k].readOnly == Some(s.Mode()) && forall j | 0 <= j < k :: blocks[j].readOnly.None?)
  }

  lemma {:induction false} FirstCommandWins(blocks: seq<Variables>)
    ensures var c := FirstCommand(blocks);
      if c == [] then forall v | v in blocks :: v.command == []
      else exists k | 0 <= k < |blocks| :: blocks[k].command == c && forall j | 0 <= j < k :: blocks[j].command == []
  {
    if blocks != [] && blocks[0].command == [] {
      FirstCommandWins(blocks[1..]);
      var c := FirstCommand(blocks);
      if c != [] {
        var k :| 0 <= k < |blocks[1..]| && blocks[1..][k].command == c
          && forall j | 0 <= j < k :: blocks[1..][j].command == [];
        assert blocks[k + 1].command == c;
        forall j | 0 <= j < k + 1 ensures blocks[j].command == [] {
          assert j > 0 ==> blocks[j] == blocks[1..][j - 1];
        }
      }
    }
  }

  lemma {:induction false} FirstModeWins(blocks: seq<Variables>)
    ensures match FirstMode(blocks)
      case None => forall v | v in blocks :: v.readOnly.None?
      case Some(mode) => exists k | 0 <= k < |blocks| ::
        blocks[k].readOnly == Some(mode) && forall j | 0 <= j < k :: blocks[j].readOnly.None?
  {
    if blocks != [] && blocks[0].readOnly.None? {
      FirstModeWins(blocks[1..]);
      if FirstMode(blocks).Some? {
        var k :| 0 <= k < |blocks[1..]| && blocks[1..][k].readOnly == FirstMode(blocks)
          && forall j | 0 <= j < k :: blocks[1..][j].readOnly.None?;
        assert blocks[k + 1].readOnly == FirstMode(blocks);
        forall j | 0 <= j < k + 1 ensures blocks[j].readOnly.None? {
          assert j > 0 ==> blocks[j] == blocks[1..][j - 1];
        }
      }
    }
  }

  lemma TogetherWins(blocks: seq<Variables>)
    requires AllVerified(blocks)
    ensures FirstWin(Together(blocks), blocks)
  {
    FirstCommandWins(blocks);
    FirstModeWins(blocks);
    FirstModeVerified(blocks);
  }

  // ----- Which blocks these are -----

  /** The blocks that apply: the global one, those of conditions that do, and those of the includes, which keep
      their commands only if no row of the file itself has one. */
  ghost function Applying(f: IsolateFile, b: Binding): set<Variables>
    requires AcceptedTree(f)
  {
    {f.variables}
    + (set i | 0 <= i < |f.conditions| && Applies(f.conditions[i], KeptValues(f.conditions), b) ::
         f.conditions[i].variables)
    + set i, v | 0 <= i < |f.includes| && v in Applying(f.includes[i], b) :: Quiet(v, HasCommand(OwnTable(f)))
  }

  ghost predicate HoldsUnder(m: Partial, b: Binding) {
    forall x | x in m :: m[x] == b(x)
  }

  lemma DecidesApplies(f: IsolateFile, i: nat, m: Partial, b: Binding)
    requires AcceptedFile(f) && i < |f.conditions| && Decides(f, i, m) && HoldsUnder(m, b)
    ensures Applies(f.conditions[i], KeptValues(f.conditions), b)
  {
    hide Meaning, KeptValues, ValuesOf, Equalities;
    MeaningMonotone(f.conditions[i].expr, Bind(m), Known(KeptValues(f.conditions), b));
  }

  /** What is known of b. */
  ghost function KnownPart(f: IsolateFile, b: Binding): (m: Partial)
    requires AcceptedFile(f)
    ensures HoldsUnder(m, b)
  {
    map x | x in KeptValues(f.conditions) && b(x) in ValuesOf(KeptValues(f.conditions), x) :: b(x)
  }

  lemma AppliesDecides(f: IsolateFile, i: nat, b: Binding)
    requires AcceptedFile(f) && i < |f.conditions| && Applies(f.conditions[i], KeptValues(f.conditions), b)
    ensures Decides(f, i, KnownPart(f, b))
  {
    hide Meaning, KeptValues, Equalities;
    MeaningAgree(f.conditions[i].expr, Known(KeptValues(f.conditions), b), Bind(KnownPart(f, b)));
  }

  lemma {:induction false} OwnBlockFrom(f: IsolateFile, m: Partial, i: nat, v: Variables)
    requires AcceptedFile(f) && i <= |f.conditions|
    ensures v in OwnBlocks(f, m, i) <==>
      || (m == map[] && v == f.variables)
      || exists j | 0 <= j < i :: Decides(f, j, m) && v == f.conditions[j].variables
  {
    hide Decides;
    if i > 0 {
      OwnBlockFrom(f, m, i - 1, v);
    }
  }

  lemma NextBlocks(f: IsolateFile, m: Partial, i: nat)
    requires AcceptedTree(f) && i < |f.includes|
    ensures TreeBlocks(f, m, i)
         == TreeBlocks(f, m, i + 1) + QuietAll(TreeBlocks(f.includes[i], m, 0), HasCommand(OwnTable(f)))
  {
    hide OwnBlocks, OwnTable, HasCommand, QuietAll;
  }

  lemma LastBlocks(f: IsolateFile, m: Partial)
    requires AcceptedTree(f)
    ensures TreeBlocks(f, m, |f.includes|) == OwnBlocks(f, m, |f.conditions|)
  {
    hide OwnBlocks;
  }

  /** A block of an include, as it is merged. */
  ghost predicate FromInclude(f: IsolateFile, m: Partial, j: nat, v: Variables)
    requires AcceptedTree(f) && j < |f.includes|
  {
    v in QuietAll(TreeBlocks(f.includes[j], m, 0), HasCommand(OwnTable(f)))
  }

  lemma {:induction false} BlockFrom(f: IsolateFile, m: Partial, i: nat, v: Variables)
    requires AcceptedTree(f) && i <= |f.includes|
    ensures v in TreeBlocks(f, m, i) <==>
            v in OwnBlocks(f, m, |f.conditions|) || exists j | i <= j < |f.includes| :: FromInclude(f, m, j, v)
    decreases |f.includes| - i
  {
    hide OwnBlocks, TreeBlocks, FromInclude, AcceptedTree, OwnTable, HasCommand;
    if i < |f.includes| {
      BlockFrom(f, m, i + 1, v);
      NextBlock(f, m, i, v);
    } else {
      LastBlocks(f, m);
    }
  }

  lemma NextBlock(f: IsolateFile, m: Partial, i: nat, v: Variables)
    requires AcceptedTree(f) && i < |f.includes|
    ensures v in TreeBlocks(f, m, i) <==> v in TreeBlocks(f, m, i + 1) || FromInclude(f, m, i, v)
  {
    hide OwnTable, HasCommand, QuietAll, TreeBlocks;
    NextBlocks(f, m, i);
  }

  lemma IncludeBlock(f: IsolateFile, m: Partial, j: nat, v: Variables)
    requires AcceptedTree(f) && j < |f.includes|
    ensures FromInclude(f, m, j, v) <==>
            exists w :: w in TreeBlocks(f.includes[j], m, 0) && v == Quiet(w, HasCommand(OwnTable(f)))
  {
    hide OwnTable, HasCommand, TreeBlocks, Quiet;
    QuietIn(TreeBlocks(f.includes[j], m, 0), HasCommand(OwnTable(f)), v);
  }

  lemma QuietIn(blocks: seq<Variables>, quiet: bool, v: Variables)
    ensures v in QuietAll(blocks, quiet) <==> exists w :: w in blocks && v == Quiet(w, quiet)
  {
    var r := QuietAll(blocks, quiet);
    if w :| w in blocks && v == Quiet(w, quiet) {
      var i :| 0 <= i < |blocks| && blocks[i] == w;
      assert r[i] == v;
    }
  }

  lemma {:induction false} BlocksApply(f: IsolateFile, m: Partial, b: Binding, v: Variables)
    requires AcceptedTree(f) && HoldsUnder(m, b) && v in TreeBlocks(f, m, 0)
    ensures v in Applying(f, b)
  {
    hide OwnTable, HasCommand, KeptValues, Decides, Applies, HoldsUnder, TreeBlocks, FromInclude, Quiet;
    BlockFrom(f, m, 0, v);
    if v in OwnBlocks(f, m, |f.conditions|) {
      OwnBlockFrom(f, m, |f.conditions|, v);
      if v != f.variables {
        var j :| 0 <= j < |f.conditions| && Decides(f, j, m) && v == f.conditions[j].variables;
        DecidesApplies(f, j, m, b);
      }
    } else {
      var j :| 0 <= j < |f.includes| && FromInclude(f, m, j, v);
      IncludeBlock(f, m, j, v);
      var w :| w in TreeBlocks(f.includes[j], m, 0) && v == Quiet(w, HasCommand(OwnTable(f)));
      BlocksApply(f.includes[j], m, b, w);
    }
  }

  /** Such a block of the file itself. */
  ghost predicate OwnApplying(f: IsolateFile, b: Binding, v: Variables)
    requires AcceptedFile(f)
  {
    || v == f.variables
    || exists i | 0 <= i < |f.conditions| && Applies(f.conditions[i], KeptValues(f.conditions), b) ::
         v == f.conditions[i].variables
  }

  lemma OwnApplyingBlock(f: IsolateFile, b: Binding, v: Variables) returns (m: Partial)
    requires AcceptedFile(f) && OwnApplying(f, b, v)
    ensures HoldsUnder(m, b) && v in OwnBlocks(f, m, |f.conditions|)
  {
    hide KeptValues, Decides, Applies, KnownPart, OwnBlocks;
    if v == f.variables {
      m := map[];
    } else {
      var i :| 0 <= i < |f.conditions| && Applies(f.conditions[i], KeptValues(f.conditions), b)
        && v == f.conditions[i].variables;
      m := KnownPart(f, b);
      AppliesDecides(f, i, b);
    }
    OwnBlockFrom(f, m, |f.conditions|, v);
  }

  lemma ApplyingInclude(f: IsolateFile, b: Binding, v: Variables) returns (i: nat, w: Variables)
    requires AcceptedTree(f) && v in Applying(f, b) && !OwnApplying(f, b, v)
    ensures i < |f.includes| && w in Applying(f.includes[i], b) && v == Quiet(w, HasCommand(OwnTable(f)))
  {
    hide OwnTable, HasCommand, KeptValues, Applies, Quiet;
    var own := {f.variables} + set i |
        0 <= i < |f.conditions| && Applies(f.conditions[i], KeptValues(f.conditions), b) :: f.conditions[i].variables;
    assert v !in own;
    var included := set i, w | 0 <= i < |f.includes| && w in Applying(f.includes[i], b) ::
        Quiet(w, HasCommand(OwnTable(f)));
    assert Applying(f, b) == own + included;
    hide Applying;
    i, w :| 0 <= i < |f.includes| && w in Applying(f.includes[i], b) && v == Quiet(w, HasCommand(OwnTable(f)));
  }

  lemma {:induction false} ApplyingBlock(f: IsolateFile, b: Binding, v: Variables) returns (m: Partial)
    requires AcceptedTree(f) && v in Applying(f, b)
    ensures HoldsUnder(m, b) && v in TreeBlocks(f, m, 0)
  {
    hide OwnApplying, OwnBlocks, OwnTable, HasCommand, TreeBlocks, FromInclude, Quiet, Applying, HoldsUnder;
    if OwnApplying(f, b, v) {
      m := OwnApplyingBlock(f, b, v);
    } else {
      var i, w := ApplyingInclude(f, b, v);
      m := ApplyingBlock(f.includes[i], b, w);
      IncludeBlock(f, m, i, v);
    }
    BlockFrom(f, m, 0, v);
  }

  lemma SelectsHolds(vars: seq<string>, config: Name, key: Name, b: Binding)
    requires Sorted(vars) && Represents(config, vars, b) && |key| == |vars|
    ensures |config| == |vars| && (Selects(config, key) <==> HoldsUnder(BoundOf(vars, key), b))
  {
    var m := BoundOf(vars, key);
    forall i | 0 <= i < |vars| ensures vars[i] in m <==> key[i].IsBound() {
      BoundAt(vars, key, i);
    }
    if HoldsUnder(m, b) {
      forall i | 0 <= i < |vars| && key[i].IsBound() ensures key[i] == config[i] {
        BoundAt(vars, key, i);
      }
    }
  }

  lemma {:induction false} RowBlockFrom(f: IsolateFile, rows: seq<Row>, vars: seq<string>, config: Name, v: Variables)
    requires AcceptedTree(f) && |config| == |vars| && Width(rows, |vars|)
    ensures v in RowBlocks(f, rows, vars, config) <==>
      exists i | 0 <= i < |rows| ::
        Selects(config, rows[i].key) && v in TreeBlocks(f, BoundOf(vars, rows[i].key), 0)
  {
    hide TreeBlocks, Selects, BoundOf;
    if rows != [] {
      RowBlockFrom(f, rows[..|rows| - 1], vars, config, v);
    }
  }

  lemma NoBlocks(f: IsolateFile, m: Partial, v: Variables)
    requires AcceptedTree(f) && v in TreeBlocks(f, m, 0)
    ensures m in Rows(Compile(f))
  {
    hide CompileIncludes, Rows, Together;
    CompileIs(f);
    ValueOfIncludes(f, m, 0);
    assert Together(TreeBlocks(f, m, 0)).Settings? by { SomeTogether(TreeBlocks(f, m, 0)); }
    if m !in Rows(Compile(f)) {
      NoSuchRow(Compile(f), m);
    }
  }

  lemma SomeTogether(blocks: seq<Variables>)
    requires blocks != []
    ensures Together(blocks).Settings?
  {
  }

  /** The blocks of an answer are exactly those that apply. */
  lemma AnswerBlocksApply(f: IsolateFile, config: Name, b: Binding, v: Variables)
    requires AcceptedTree(f) && Represents(config, Compile(f).vars, b) && |config| == |Compile(f).vars|
    ensures v in AnswerBlocks(f, config) <==> v in Applying(f, b)
  {
    hide Compile, TreeBlocks, Selects, BoundOf, Listing, Ordered, Applying, HoldsUnder;
    var c := Compile(f);
    var rows := Listing(c.table, |config|);
    ListingFacts(c.table, |config|);
    RowBlockFrom(f, rows, c.vars, config, v);
    if v in AnswerBlocks(f, config) {
      var i :| 0 <= i < |rows| && Selects(config, rows[i].key) && v in TreeBlocks(f, BoundOf(c.vars, rows[i].key), 0);
      SelectsHolds(c.vars, config, rows[i].key, b);
      BlocksApply(f, BoundOf(c.vars, rows[i].key), b, v);
    }
    if v in Applying(f, b) {
      var m := ApplyingBlock(f, b, v);
      NoBlocks(f, m, v);
      var key := RowOf(c, m);
      SelectsHolds(c.vars, config, key, b);
      assert Row(key, c.table[key]) in rows;
      var i :| 0 <= i < |rows| && rows[i] == Row(key, c.table[key]);
      assert Selects(config, rows[i].key);
    }
  }

  // ----- The global block comes first -----

  lemma {:induction false} NothingFirst(n: nat, key: Name)
    requires |key| == n && key != NothingBound(n)
    ensures CompareNames(NothingBound(n), key) == 1
  {
    var nothing := NothingBound(n);
    if key[0].Unbound? {
      assert nothing[1..] == NothingBound(n - 1);
      assert nothing == [nothing[0]] + nothing[1..] && key == [key[0]] + key[1..];
      NothingFirst(n - 1, key[1..]);
    }
  }

  lemma GlobalRowFirst(rows: seq<Row>, t: Table, n: nat)
    requires RowsOf(rows, t) && Ordered(rows, n) && NothingBound(n) in t
    ensures rows != [] && rows[0] == Row(NothingBound(n), t[NothingBound(n)])
  {
    assert Row(NothingBound(n), t[NothingBound(n)]) in rows;
    var i :| 0 <= i < |rows| && rows[i] == Row(NothingBound(n), t[NothingBound(n)]);
    if rows[0].key != NothingBound(n) {
      NothingFirst(n, rows[0].key);
    }
  }

  lemma {:induction false} OwnBlocksStart(f: IsolateFile, i: nat)
    requires AcceptedFile(f) && i <= |f.conditions|
    ensures OwnBlocks(f, map[], i) != [] && OwnBlocks(f, map[], i)[0] == f.variables
  {
    hide Decides;
    if i > 0 {
      OwnBlocksStart(f, i - 1);
    }
  }

  lemma {:induction false} TreeBlocksStart(f: IsolateFile, i: nat)
    requires AcceptedTree(f) && i <= |f.includes|
    ensures TreeBlocks(f, map[], i) != [] && TreeBlocks(f, map[], i)[0] == f.variables
    decreases |f.includes| - i
  {
    hide OwnBlocks, OwnTable, HasCommand, TreeBlocks, QuietAll;
    if i < |f.includes| {
      TreeBlocksStart(f, i + 1);
      NextBlocks(f, map[], i);
    } else {
      LastBlocks(f, map[]);
      OwnBlocksStart(f, |f.conditions|);
    }
  }

  lemma {:induction false} RowBlocksStart(f: IsolateFile, rows: seq<Row>, vars: seq<string>, config: Name)
    requires AcceptedTree(f) && |config| == |vars| && Width(rows, |vars|)
    requires rows != [] && rows[0].key == NothingBound(|vars|)
    ensures var blocks := RowBlocks(f, rows, vars, config); blocks != [] && blocks[0] == f.variables
  {
    hide TreeBlocks;
    if |rows| > 1 {
      RowBlocksStart(f, rows[..|rows| - 1], vars, config);
    } else {
      assert BoundOf(vars, NothingBound(|vars|)) == map[];
      assert Selects(config, rows[0].key);
      TreeBlocksStart(f, 0);
      assert rows[..0] == [];
    }
  }

  lemma AnswerStart(f: IsolateFile, config: Name)
    requires AcceptedTree(f) && |config| == |Compile(f).vars|
    ensures AnswerBlocks(f, config) != [] && AnswerBlocks(f, config)[0] == f.variables
  {
    hide Compile, Listing, Ordered, BoundOf;
    var c, n := Compile(f), |Compile(f).vars|;
    CompiledRows(f, map[]);
    var key := RowOf(c, map[]);
    assert BoundOf(c.vars, NothingBound(n)) == map[] by { NothingIsBound(c.vars); }
    BoundInjective(c.vars, key, NothingBound(n));
    ListingFacts(c.table, n);
    GlobalRowFirst(Listing(c.table, n), c.table, n);
    RowBlocksStart(f, Listing(c.table, n), c.vars, config);
  }

  lemma NothingIsBound(vars: seq<string>)
    ensures BoundOf(vars, NothingBound(|vars|)) == map[]
  {
  }

  // ----- Main results -----

  /** The answer to a query has the files of a list of blocks, and the first command and the first mode in it.
      The list starts with the global block of the top file and goes on row by row, in the order of the keys. */
  lemma QueryBlocks(f: IsolateFile, config: Name)
    requires AcceptedTree(f) && |config| == |Compile(f).vars|
    ensures var s, blocks := Query(Compile(f).table, |config|, config), AnswerBlocks(f, config);
      && s.Settings? && s.files == FilesOf(blocks) && FirstWin(s, blocks)
      && blocks != [] && blocks[0] == f.variables
  {
    hide Compile, Fold, RowBlocks, FirstWin, Listing, Ordered;
    ListingFacts(Compile(f).table, |config|);
    FoldRows(f, Listing(Compile(f).table, |config|), config);
    TogetherWins(AnswerBlocks(f, config));
    AnswerStart(f, config);
  }

  /** The command and the mode are those of some of the blocks; there is none only if no block has one. */
  ghost predicate ChosenFrom(s: Settings, blocks: set<Variables>) {
    && (if s.Command() == [] then forall v | v in blocks :: v.command == []
        else exists v | v in blocks :: v.command == s.Command())
    && (if s.Mode() == NOT_SET then forall v | v in blocks :: v.readOnly.None?
        else exists v | v in blocks :: v.readOnly == Some(s.Mode()))
  }

  /** The command and the mode are those of this block, if it has them. */
  ghost predicate LedBy(s: Settings, v: Variables) {
    && s.Settings?
    && (v.command != [] ==> s.Command() == v.command)
    && (v.readOnly.Some? ==> s.Mode() == v.readOnly.value)
  }

  /** The command of a configuration is that of a block that applies to it, and there is none only if no
      block that applies has one; so is its mode. */
  lemma ChoicesPreserved(f: IsolateFile, config: Name, b: Binding)
    requires AcceptedTree(f) && Represents(config, Compile(f).vars, b)
    ensures |config| == |Compile(f).vars|
    ensures ChosenFrom(Query(Compile(f).table, |config|, config), Applying(f, b))
  {
    hide Compile, Query, Applying, AnswerBlocks, FilesOf;
    RepresentsLength(config, Compile(f).vars, b);
    QueryBlocks(f, config);
    forall v {
      AnswerBlocksApply(f, config, b, v);
    }
  }

  /** A command or mode in the global block of the top file wins over all others. */
  lemma GlobalBlockWins(f: IsolateFile, config: Name)
    requires AcceptedTree(f) && |config| == |Compile(f).vars|
    ensures LedBy(Query(Compile(f).table, |config|, config), f.variables)
  {
    hide Compile, Query, AnswerBlocks, FilesOf;
    QueryBlocks(f, config);
    assert f.variables in AnswerBlocks(f, config);
  }

  /** The file itself has a command when its global block does, or a condition that can be met by literals. */
  lemma HasCommandExactly(f: IsolateFile)
    requires AcceptedFile(f)
    ensures HasCommand(OwnTable(f)) <==>
      || f.variables.command != []
      || exists i, m | 0 <= i < |f.conditions| && Decides(f, i, m) :: f.conditions[i].variables.command != []
  {
    hide KeptValues, VariablesOf, Decides, StageTable, BoundOf, NameOf, FilesOf, Rows;
    var c := Compiled(VariablesOf(f), StageTable(f, |f.conditions|));
    OwnIs(f);
    if HasCommand(OwnTable(f)) {
      var key :| key in c.table && |c.table[key].Command()| > 0;
      var m := BoundOf(c.vars, key);
      ValueOfRow(c, key);
      ValueOfStage(f, m, |f.conditions|);
      FirstCommandWins(OwnBlocks(f, m, |f.conditions|));
      var v :| v in OwnBlocks(f, m, |f.conditions|) && v.command != [];
      OwnBlockFrom(f, m, |f.conditions|, v);
    }
    if f.variables.command != [] {
      OwnBlockFrom(f, map[], |f.conditions|, f.variables);
      OwnCommandShows(f, c, map[], f.variables);
    }
    forall i, m | 0 <= i < |f.conditions| && Decides(f, i, m) && f.conditions[i].variables.command != []
      ensures HasCommand(OwnTable(f))
    {
      OwnBlockFrom(f, m, |f.conditions|, f.conditions[i].variables);
      OwnCommandShows(f, c, m, f.conditions[i].variables);
    }
  }

  lemma OwnCommandShows(f: IsolateFile, c: Compiled, m: Partial, v: Variables)
    requires AcceptedFile(f) && c == Compiled(VariablesOf(f), StageTable(f, |f.conditions|))
    requires v in OwnBlocks(f, m, |f.conditions|) && v.command != []
    ensures HasCommand(c.table)
  {
    hide KeptValues, VariablesOf, StageTable, FilesOf, OwnBlocks, BoundOf;
    ValueOfStage(f, m, |f.conditions|);
    FirstCommandWins(OwnBlocks(f, m, |f.conditions|));
    assert ValueOf(c, m).Command() != [];
  }
}
