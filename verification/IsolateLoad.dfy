/** LoadIsolateAsConfig and LoadIsolateForConfig (client/isolate/format.go:95-197). */
module IsolateLoad {
  import opened Text
  import opened IsolateValues
  import opened IsolateCondition
  import opened IsolateOdometer
  import opened IsolateMatch
  import opened IsolateTable
  import opened IsolateMerge
  import opened IsolateConfigs
  import opened IsolateFiles
  import opened IsolateMeaning
  import opened IsolateChoice
  import opened IsolateBlocks

  /** Go's (configs, nil), an error, or a panic. */
  datatype Outcome = Loaded(configs: Configs) | Failed | Panicked

  const MAX_VARIABLES := 60

  predicate SmallTree(f: IsolateFile)
    requires AcceptedTree(f)
  {
    && |KeptValues(f.conditions)| <= 60
    && forall i | 0 <= i < |f.includes| :: SmallTree(f.includes[i])
  }

  // ----- Processing -----

  lemma KeptValuesSnoc(conditions: seq<Condition>, i: nat)
    requires i < |conditions| && AcceptedConditions(conditions[..i])
    ensures AcceptedConditions(conditions[..i + 1]) <==>
            Accepted(conditions[i].expr) && Verified(conditions[i].variables)
    ensures CollectValues(conditions[i].expr, KeptValues(conditions[..i])).Some? <==> Accepted(conditions[i].expr)
    ensures AcceptedConditions(conditions[..i + 1]) ==>
      KeptValues(conditions[..i + 1]) == CollectValues(conditions[i].expr, KeptValues(conditions[..i])).value
  {
    var front, c := conditions[..i], conditions[i];
    assert conditions[..i + 1] == front + [c];
    assert (front + [c])[..i] == front;
    CollectValuesCorrect(c.expr, KeptValues(front), AllEqualities(front));
    assert (front + [c])[i] == c;
  }

  /** No mode, or writable, read-only files, read-only directories. */
  predicate KnownMode(readOnly: Option<int>) {
    readOnly == None || readOnly == Some(0) || readOnly == Some(1) || readOnly == Some(2)
  }

  /** processIsolate and processCondition; None is any of their errors. */
  method ProcessIsolate(f: IsolateFile) returns (r: Option<ValueSets>)
    ensures r == if AcceptedFile(f) then Some(KeptValues(f.conditions)) else None
    ensures r.Some? <==>
      && KnownMode(f.variables.readOnly)
      && forall i | 0 <= i < |f.conditions| ::
        InGrammar(f.conditions[i].expr) && KnownMode(f.conditions[i].variables.readOnly)
  {
    forall i | 0 <= i < |f.conditions| ensures Accepted(f.conditions[i].expr) <==> InGrammar(f.conditions[i].expr) {
      AcceptedExactly(f.conditions[i].expr);
    }
    if !Verified(f.variables) {
      return None;
    }
    var sets: ValueSets := map[];
    for i := 0 to |f.conditions|
      invariant AcceptedConditions(f.conditions[..i]) && sets == KeptValues(f.conditions[..i])
    {
      KeptValuesSnoc(f.conditions, i);
      var collected := CollectValues(f.conditions[i].expr, sets);
      if collected.None? || !Verified(f.conditions[i].variables) {
        return None;
      }
      sets := collected.value;
    }
    assert f.conditions[..|f.conditions|] == f.conditions;
    return Some(sets);
  }

  /** toConfigs: the variable names, sorted. */
  method ConfigVariables(sets: ValueSets) returns (names: seq<string>)
    ensures names == SortedNames(sets.Keys)
  {
    names := [];
    var left := sets.Keys;
    while left != {}
      invariant left <= sets.Keys && Sorted(names)
      invariant forall x :: x in names <==> x in sets && x !in left
      decreases |left|
    {
      var x :| x in left;
      InsertStringSorted(x, names);
      names := InsertString(x, names);
      left := left - {x};
    }
    SortedUnique(names, SortedNames(sets.Keys));
  }

  // ----- One condition -----

  lemma {:induction false} SomeEquality(e: Expr)
    requires Accepted(e)
    ensures Equalities(e) != {}
  {
    if e.Paren? { SomeEquality(e.x); } else if !e.op.Eql? { SomeEquality(e.l); }
  }

  lemma LookupIsBinding(e: Expr, index: VariableIndex, vars: seq<string>, name: Name)
    requires Accepted(e) && IndexOf(index, vars) && |name| == |vars|
    requires forall atom | atom in Equalities(e) :: atom.0 in vars
    ensures Matches(e, index, name) <==> Meaning(e, BindingOf(vars, name)).True?
  {
    forall atom | atom in Equalities(e) ensures Lookup(index, name)(atom.0) == BindingOf(vars, name)(atom.0) {
      assert index[vars[Index(vars, atom.0)]] == Index(vars, atom.0);
    }
    MeaningAgree(e, Lookup(index, name), BindingOf(vars, name));
  }

  /** The full configurations tried for the conditions of a file. */
  ghost predicate AllConfigs(allConfigs: seq<Name>, sets: ValueSets, vars: seq<string>) {
    && (forall config :: config in allConfigs <==> InProduct(config, sets, vars))
    && (forall i | 0 <= i < |vars| :: ValuesOf(sets, vars[i]) != {})
  }

  ghost predicate SameKeys(rows: seq<Name>, t: Table) {
    && (forall name | name in rows :: name in t)
    && (forall name | name in t :: HasKey(rows, NameKey(name)))
  }

  lemma MatchingRowsOf(rows: seq<Name>, c: Condition, index: VariableIndex, allConfigs: seq<Name>, sets: ValueSets,
                       vars: seq<string>)
    requires Accepted(c.expr) && IndexOf(index, vars) && AllConfigs(allConfigs, sets, vars)
    requires forall atom | atom in Equalities(c.expr) :: atom.0 in vars
    requires MatchingRows(rows, c.expr, index, Pow2(|vars|), allConfigs)
    ensures SameKeys(rows, ConditionTable(c, sets, vars))
  {
    hide NameKey, HasKey, Matches, IsMask;
    var t := ConditionTable(c, sets, vars);
    forall name | name in rows ensures name in t {
      MasksArePartialBindings(name, sets, vars, allConfigs);
      LookupIsBinding(c.expr, index, vars, name);
    }
    forall name | name in t ensures HasKey(rows, NameKey(name)) {
      MasksArePartialBindings(name, sets, vars, allConfigs);
      LookupIsBinding(c.expr, index, vars, name);
    }
  }

  /** The table of one condition; of rows that are spelled alike one is left. */
  method LoadCondition(c: Condition, index: VariableIndex, allConfigs: seq<Name>, ghost sets: ValueSets,
                       vars: seq<string>)
    returns (ok: bool, newConfigs: Configs)
    requires Accepted(c.expr) && IndexOf(index, vars) && |index| == |vars| && Sorted(vars)
    requires AllConfigs(allConfigs, sets, vars)
    requires forall atom | atom in Equalities(c.expr) :: atom.0 in vars
    ensures ok <==> |vars| <= MAX_VARIABLES
    ensures fresh(newConfigs) && newConfigs.Valid() && newConfigs.variables == vars
    ensures ok ==> Picks(newConfigs.Table(), ConditionTable(c, sets, vars))
  {
    hide NameKey, AllConfigs, IndexOf, Accepted, Equalities, ConditionTable, TableOf, Constant, Unambiguous, SameKeys,
         Picks;
    newConfigs := new Configs(vars);
    var configs := MatchConfigs(c.expr, index, allConfigs);
    if configs.None? {
      return false, newConfigs;
    }
    MatchingRowsOf(configs.value, c, index, allConfigs, sets, vars);
    ConditionRows(configs.value, c, sets, vars);
    FillTable(configs.value, NewSettings(c.variables), newConfigs);
    return true, newConfigs;
  }

  ghost function Constant(rows: seq<Name>, value: Settings): Table {
    map name | name in rows :: value
  }

  lemma ConstantSnoc(rows: seq<Name>, i: nat, value: Settings)
    requires i < |rows|
    requires forall i, j | 0 <= i < j < |rows| :: NameKey(rows[i]) != NameKey(rows[j])
    ensures Constant(rows[..i + 1], value) == Constant(rows[..i], value)[rows[i] := value]
    ensures forall key | key in Constant(rows[..i], value) :: NameKey(key) != NameKey(rows[i])
  {
    hide NameKey;
    assert rows[..i + 1] == rows[..i] + [rows[i]];
  }

  method FillTable(rows: seq<Name>, value: Settings, newConfigs: Configs)
    requires newConfigs.Valid() && newConfigs.Table() == map[]
    requires forall i | 0 <= i < |rows| :: |rows[i]| == |newConfigs.variables|
    requires forall i, j | 0 <= i < j < |rows| :: NameKey(rows[i]) != NameKey(rows[j])
    modifies newConfigs`byConfig
    ensures newConfigs.Valid() && newConfigs.Table() == Constant(rows, value)
  {
    hide NameKey, TableOf, Constant, Unambiguous, Wide;
    ConstantEmpty(value);
    for i := 0 to |rows|
      invariant newConfigs.Valid() && newConfigs.Table() == Constant(rows[..i], value)
    {
      ConstantSnoc(rows, i, value);
      var ok := newConfigs.SetConfig(rows[i], value);
      assert ok;  // the assertion of setConfig holds
    }
    assert rows[..|rows|] == rows;
  }

  lemma ConstantEmpty(value: Settings)
    ensures Constant([], value) == map[]
  {
  }

  lemma ConditionRows(rows: seq<Name>, c: Condition, sets: ValueSets, vars: seq<string>)
    requires Accepted(c.expr) && SameKeys(rows, ConditionTable(c, sets, vars))
    requires forall i, j | 0 <= i < j < |rows| :: NameKey(rows[i]) != NameKey(rows[j])
    ensures forall i | 0 <= i < |rows| :: |rows[i]| == |vars|
    ensures Picks(Constant(rows, NewSettings(c.variables)), ConditionTable(c, sets, vars))
  {
    hide NameKey, Accepted, Equalities, Over, Meaning;
    var s, t := Constant(rows, NewSettings(c.variables)), ConditionTable(c, sets, vars);
    forall i | 0 <= i < |rows| ensures |rows[i]| == |vars| {
      assert rows[i] in rows;
    }
    forall name | name in t ensures Spelled(s, NameKey(name)) {
      var kept :| kept in rows && NameKey(kept) == NameKey(name);
      assert kept in s;
    }
  }

  // ----- The file by itself -----

  lemma MergedSelf(a: Table, b: Table, vars: seq<string>, merged: seq<string>)
    requires Sorted(vars) && Wide(a, |vars|) && Wide(b, |vars|) && AllVariables(merged, vars, vars)
    ensures merged == vars && Merged(a, vars, b, vars, merged) == Merge(a, b)
  {
    SortedUnique(merged, vars);
    WidenSelf(a, vars);
    WidenSelf(b, vars);
  }

  lemma ConditionVariables(f: IsolateFile, i: nat)
    requires AcceptedFile(f) && i < |f.conditions|
    ensures forall atom | atom in Equalities(f.conditions[i].expr) :: atom.0 in VariablesOf(f)
    ensures VariablesOf(f) != []
  {
    EqualitiesOf(f.conditions, i);
    SomeEquality(f.conditions[i].expr);
    var atom :| atom in Equalities(f.conditions[i].expr);
    assert atom.0 in KeptValues(f.conditions);
  }

  lemma KeptNonEmpty(f: IsolateFile)
    requires AcceptedFile(f)
    ensures forall id | id in VariablesOf(f) :: ValuesOf(KeptValues(f.conditions), id) != {}
    ensures |VariablesOf(f)| == |KeptValues(f.conditions)|
  {
    var sets := KeptValues(f.conditions);
    forall id | id in VariablesOf(f) ensures ValuesOf(sets, id) != {} {
      ListValuesEmpty(sets[id]);
    }
    SortedCardinality(VariablesOf(f), sets.Keys);
    assert |sets.Keys| == |sets|;
  }

  /** One turn of the loop over conditions; `pick` is the choice of rows that was made. */
  method AddCondition(f: IsolateFile, i: nat, ghost sets: ValueSets, index: VariableIndex, allConfigs: seq<Name>,
                      out: Configs, ghost picks: seq<Table>)
    returns (r: Outcome, ghost pick: Table)
    requires AcceptedFile(f) && i < |f.conditions| && sets == KeptValues(f.conditions)
    requires out.Valid() && out.variables == VariablesOf(f)
    requires IndexOf(index, out.variables) && |index| == |out.variables| && AllConfigs(allConfigs, sets, out.variables)
    requires |picks| == i && ChoosesRows(picks, f) && out.Table() == StageWith(f, picks)
    ensures ChoosesRows(picks + [pick], f)
    ensures !r.Failed?
    ensures r.Loaded? <==> |VariablesOf(f)| <= MAX_VARIABLES && Unambiguous(StageWith(f, picks + [pick]))
    ensures r.Loaded? ==> fresh(r.configs) && r.configs.Valid() && r.configs.variables == VariablesOf(f)
    ensures r.Loaded? ==> r.configs.Table() == StageWith(f, picks + [pick])
  {
    hide KeptValues, Unambiguous, TableOf, ConditionTable, Equalities, Accepted, AllConfigs, IndexOf, OwnTable,
         StageTable, VariablesOf, Merged, Merge, AllVariables, ChoosesRows, StageWith, Picks;
    ConditionVariables(f, i);
    pick := SomePick(RowsAt(f, i));
    StageSnoc(f, picks, pick);
    var fine, newConfigs := LoadCondition(f.conditions[i], index, allConfigs, sets, out.variables);
    if !fine {
      return Panicked, pick;
    }
    pick := newConfigs.Table();
    StageSnoc(f, picks, pick);
    ghost var table := out.Table();
    var ok, union := out.Union(newConfigs);
    MergedSelf(table, pick, VariablesOf(f), union.variables);
    return if ok then Loaded(union) else Panicked, pick;
  }

  lemma ProductIsAllConfigs(f: IsolateFile, allConfigs: seq<Name>)
    requires AcceptedFile(f)
    requires forall name :: name in allConfigs <==> InProduct(name, KeptValues(f.conditions), VariablesOf(f))
    ensures AllConfigs(allConfigs, KeptValues(f.conditions), VariablesOf(f))
  {
    hide KeptValues, VariablesOf;
    KeptNonEmpty(f);
  }

  /** The empty configuration first, then the product and the index of the variables. */
  method Prepare(f: IsolateFile, sets: ValueSets)
    returns (out: Configs, index: VariableIndex, allConfigs: Option<seq<Name>>)
    requires AcceptedFile(f) && sets == KeptValues(f.conditions)
    ensures fresh(out) && out.Valid() && out.variables == VariablesOf(f) && out.Table() == StageWith(f, [])
    ensures IndexOf(index, out.variables) && |index| == |out.variables| == |sets|
    ensures allConfigs.Some?  // the error "some variable had empty valuesSet?" does not happen
    ensures f.conditions != [] ==> AllConfigs(allConfigs.value, sets, out.variables)
  {
    hide KeptValues, Unambiguous, TableOf, Keyed, AllConfigs, InProduct, ValuesOf, Distinct, WellKeyed;
    KeptNonEmpty(f);
    var vars := ConfigVariables(sets);
    out := new Configs(vars);
    var ok := out.SetConfig(NothingBound(|vars|), NewSettings(f.variables));
    assert ok;  // the assertion of setConfig holds
    allConfigs := CartesianProductOfValues(sets, vars);
    if f.conditions != [] {
      ConditionVariables(f, 0);
      ProductIsAllConfigs(f, allConfigs.value);
    }
    index := MakeConfigVariableIndex(vars);
  }

  /** The global block and the conditions; never an error, since every variable has a value. */
  method LoadOwn(f: IsolateFile, sets: ValueSets) returns (r: Outcome, ghost picks: seq<Table>)
    requires AcceptedFile(f) && sets == KeptValues(f.conditions)
    ensures |picks| == |f.conditions| && ChoosesRows(picks, f)
    ensures !r.Failed?
    ensures r.Loaded? <==> |sets| <= MAX_VARIABLES && Unambiguous(StageWith(f, picks))
    ensures r.Loaded? ==> fresh(r.configs) && r.configs.Valid() && r.configs.variables == VariablesOf(f)
    ensures r.Loaded? ==> r.configs.Table() == StageWith(f, picks)
  {
    hide KeptValues, Unambiguous, TableOf, Equalities, Accepted, AllConfigs, IndexOf, StageWith, VariablesOf, Picks;
    var out, index, allConfigs := Prepare(f, sets);
    picks := [];
    if |f.conditions| == 0 {
      NoConditions(f);
      return Loaded(out), picks;
    }
    for i := 0 to |f.conditions|
      invariant fresh(out) && out.Valid() && out.variables == VariablesOf(f)
      invariant |picks| == i && ChoosesRows(picks, f) && out.Table() == StageWith(f, picks)
      invariant i > 0 ==> |sets| <= MAX_VARIABLES
    {
      ghost var pick;
      var step;
      step, pick := AddCondition(f, i, sets, index, allConfigs.value, out, picks);
      picks := picks + [pick];
      if step.Panicked? {
        MorePicksAmbiguous(f, picks);
        return Panicked, MorePicks(f, picks);
      }
      out := step.configs;
    }
    return Loaded(out), picks;
  }

  /** A stage that cannot be stored stays so. */
  lemma MorePicksAmbiguous(f: IsolateFile, picks: seq<Table>)
    requires AcceptedFile(f) && ChoosesRows(picks, f)
    ensures Unambiguous(StageWith(f, MorePicks(f, picks))) ==> Unambiguous(StageWith(f, picks))
  {
    hide Unambiguous, StageWith, Picks, MorePicks;
    var all := MorePicks(f, picks);
    assert all[..|picks|] == picks;
    StageGrows(f, all, |picks|);
    if Unambiguous(StageWith(f, all)) {
      UnambiguousSubset(StageWith(f, picks), StageWith(f, all));
    }
  }

  lemma NoConditions(f: IsolateFile)
    requires AcceptedFile(f) && f.conditions == []
    ensures KeptValues(f.conditions) == map[]
  {
  }

  // ----- Includes -----

  /** Whether a loaded table is the one the file compiles to. */
  ghost predicate IsTable(configs: Configs, c: Compiled)
    reads configs
  {
    configs.Valid() && configs.variables == c.vars && configs.Table() == c.table
  }

  /** What loading a file comes to, for the choice of rows that was made. */
  ghost predicate Comes(r: Outcome, f: IsolateFile, ch: Choice)
    reads if r.Loaded? then {r.configs} else {}
  {
    if AcceptedTree(f) then
      && Chooses(ch, f)
      && !r.Failed?
      && (r.Loaded? <==> SmallTree(f) && Unambiguous(CompileWith(f, ch).table))
      && (r.Loaded? ==> IsTable(r.configs, CompileWith(f, ch)))
    else
      !r.Loaded?
  }

  /** The full table, exactly when it can be stored; and a panic when it cannot although every single
      condition's rows are spelled apart. */
  ghost predicate Exact(r: Outcome, f: IsolateFile)
    reads if r.Loaded? then {r.configs} else {}
  {
    && ((r.Loaded? && AcceptedTree(f) && IsTable(r.configs, Compile(f))) <==>
        (AcceptedTree(f) && SmallTree(f) && Unambiguous(Compile(f).table)))
    && (AcceptedTree(f) && Clear(f) ==> (r.Panicked? <==> !(SmallTree(f) && Unambiguous(Compile(f).table))))
  }

  lemma ExactOutcome(r: Outcome, f: IsolateFile, ch: Choice)
    requires Comes(r, f, ch)
    ensures Exact(r, f)
  {
    hide Chooses, Clear, Compile, CompileWith, TableOf, Unambiguous;
    if AcceptedTree(f) && Unambiguous(Compile(f).table) {
      StorableClear(f);
    }
    if AcceptedTree(f) && Clear(f) {
      ClearCompile(f, ch);
    }
  }

  /** The state of the loop over includes, before position i is merged. */
  ghost predicate IncludedFrom(out: Configs, f: IsolateFile, ch: Choice, i: nat)
    requires i <= |f.includes|
    reads out
  {
    && out.Valid()
    && (AcceptedTree(f) ==> Chooses(ch, f) && IsTable(out, IncludesWith(f, ch, i)))
  }

  lemma UnionStep(a: Compiled, c: Compiled, merged: seq<string>)
    requires a.Valid() && c.Valid() && AllVariables(merged, a.vars, c.vars)
    ensures merged == MergeCompiled(a, c).vars
    ensures Merged(a.table, a.vars, c.table, c.vars, merged) == MergeCompiled(a, c).table
  {
    hide Merged;
    SortedUnique(merged, MergedVariables(a.vars, c.vars));
  }

  /** Loads the included file and merges its table. */
  method AddInclude(f: IsolateFile, i: nat, rootHasCommand: bool, out: Configs, ghost ch: Choice)
    returns (r: Outcome, ghost ch': Choice)
    requires AcceptedFile(f) && i < |f.includes|
    requires IncludedFrom(out, f, ch, i + 1)
    requires AcceptedTree(f) ==> rootHasCommand == HasCommand(StageWith(f, ch.picks))
    ensures ch'.picks == ch.picks && (AcceptedTree(f) ==> Chooses(ch', f))
    ensures AcceptedTree(f) ==> !r.Failed?
    ensures r.Loaded? ==> fresh(r.configs) && IncludedFrom(r.configs, f, ch', i)
    ensures r.Loaded? ==> AcceptedTree(f.includes[i]) && SmallTree(f.includes[i])
    ensures AcceptedTree(f) && !r.Loaded? ==>
      !(SmallTree(f.includes[i]) && Unambiguous(IncludesWith(f, ch', i).table))
    decreases f, 0
  {
    hide Unambiguous, StageWith, HasCommand, MergeCompiled, KeptValues, Merged, AllVariables, TableOf, Wide,
         VariablesOf, Keyed, Sorted, ChoosesRows, CompileWith, IncludesWith;
    ghost var part;
    r, part := LoadIsolateAsConfig(f.includes[i]);
    ch' := ch;
    if AcceptedTree(f) {
      ch' := WithPart(f, ch, i, part);
    }
    if !r.Loaded? {
      return r, ch';
    }
    var included := r.configs;
    if rootHasCommand {
      included.DropCommands();
    }
    var ok, union := out.Union(included);
    if AcceptedTree(f) {
      WithNext(f, ch', i);
      UnionStep(IncludesWith(f, ch', i + 1), StrippedWith(f, ch', i), union.variables);
    }
    return if ok then Loaded(union) else Panicked, ch';
  }

  /** The choice for include i is the one that was made. */
  lemma WithPart(f: IsolateFile, ch: Choice, i: nat, part: Choice) returns (ch': Choice)
    requires AcceptedTree(f) && Chooses(ch, f) && i < |f.includes| && Chooses(part, f.includes[i])
    ensures Chooses(ch', f) && ch'.picks == ch.picks && ch'.parts[i] == part
    ensures IncludesWith(f, ch', i + 1) == IncludesWith(f, ch, i + 1)
    ensures Unambiguous(IncludesWith(f, ch', i).table) ==> Unambiguous(CompileWith(f.includes[i], part).table)
  {
    hide ChoosesRows, IncludesWith, CompileWith, Unambiguous;
    ch' := Choice(ch.picks, ch.parts[i := part]);
    IncludesSame(f, ch', ch, i + 1);
    if Unambiguous(IncludesWith(f, ch', i).table) {
      WithStep(f, ch', i);
    }
  }

  /** Before the includes: their choices are still open. */
  lemma StartIncludes(out: Configs, f: IsolateFile, picks: seq<Table>) returns (ch: Choice)
    requires AcceptedFile(f) && |picks| == |f.conditions| && ChoosesRows(picks, f)
    requires out.Valid() && out.variables == VariablesOf(f) && out.Table() == StageWith(f, picks)
    ensures ch.picks == picks && IncludedFrom(out, f, ch, |f.includes|)
  {
    hide StageWith, VariablesOf, TableOf, ChoosesRows, IncludesWith;
    ch := Choice(picks, []);
    if AcceptedTree(f) {
      ch := Choice(picks, SomeChoice(f).parts);
      WithOwn(f, ch);
    }
  }

  lemma EndIncludes(out: Configs, f: IsolateFile, ch: Choice)
    requires AcceptedTree(f) && SmallTree(f) && IncludedFrom(out, f, ch, 0)
    ensures Comes(Loaded(out), f, ch)
  {
    hide IncludesWith, TableOf, Chooses;
    WithStart(f, ch);
  }

  /** An include that panics, or whose union does, makes the file panic. */
  lemma IncludeLost(r: Outcome, f: IsolateFile, ch: Choice, i: nat)
    requires i < |f.includes| && !r.Loaded? && (AcceptedTree(f) ==> !r.Failed? && Chooses(ch, f))
    requires AcceptedTree(f) ==> !(SmallTree(f.includes[i]) && Unambiguous(IncludesWith(f, ch, i).table))
    ensures Comes(r, f, ch)
  {
    hide IncludesWith, CompileWith, Chooses, Unambiguous;
    if AcceptedTree(f) && Unambiguous(CompileWith(f, ch).table) {
      WithFrom(f, ch, i);
    }
  }

  /** A file that panics by itself panics with its includes. */
  lemma OwnLost(f: IsolateFile, picks: seq<Table>) returns (ch: Choice)
    requires AcceptedFile(f) && |picks| == |f.conditions| && ChoosesRows(picks, f)
    requires |KeptValues(f.conditions)| > MAX_VARIABLES || !Unambiguous(StageWith(f, picks))
    ensures Comes(Panicked, f, ch)
  {
    hide Unambiguous, StageWith, IncludesWith, CompileWith, KeptValues, ChoosesRows;
    ch := Choice(picks, []);
    if AcceptedTree(f) {
      ch := Choice(picks, SomeChoice(f).parts);
      if Unambiguous(CompileWith(f, ch).table) {
        WithFrom(f, ch, |f.includes|);
        WithOwn(f, ch);
      }
    }
  }

  lemma TreeOfParts(f: IsolateFile)
    requires AcceptedFile(f) && |KeptValues(f.conditions)| <= MAX_VARIABLES
    requires forall j | 0 <= j < |f.includes| :: AcceptedTree(f.includes[j]) && SmallTree(f.includes[j])
    ensures AcceptedTree(f) && SmallTree(f)
  {
    hide KeptValues;
  }

  /** LoadIsolateAsConfig. For some choice of one row for every key of every condition: it loads the
      compiled table of these rows precisely when every condition is well formed, there are at most 60
      variables per file and no two rows fall on one key; otherwise it panics, or some part of the tree
      is malformed. That table is the full one precisely when no two of the full table's rows are
      spelled alike. */
  method LoadIsolateAsConfig(f: IsolateFile) returns (r: Outcome, ghost ch: Choice)
    ensures r.Loaded? ==> fresh(r.configs) && r.configs.Valid() && AcceptedTree(f) && SmallTree(f)
    ensures Comes(r, f, ch) && Exact(r, f)
    decreases f, 1
  {
    hide *;
    ch := Choice([], []);
    var processed := ProcessIsolate(f);
    if processed.None? {
      RejectedFile(f, ch);
      ExactOutcome(Failed, f, ch);
      return Failed, ch;
    }
    ghost var picks;
    r, picks := LoadOwn(f, processed.value);
    if !r.Loaded? {
      ch := OwnLost(f, picks);
      ExactOutcome(r, f, ch);
      return r, ch;
    }
    var out := r.configs;
    var rootHasCommand := out.AnyCommand();
    CommandOf(f, out, rootHasCommand, picks);
    ch := StartIncludes(out, f, picks);
    var i := |f.includes|;
    while i > 0
      invariant 0 <= i <= |f.includes|
      invariant fresh(out) && IncludedFrom(out, f, ch, i) && ch.picks == picks
      invariant forall j | i <= j < |f.includes| :: AcceptedTree(f.includes[j]) && SmallTree(f.includes[j])
    {
      i := i - 1;
      ghost var ch';
      var step;
      step, ch' := AddInclude(f, i, rootHasCommand, out, ch);
      if !step.Loaded? {
        IncludeLost(step, f, ch', i);
        ExactOutcome(step, f, ch');
        return step, ch';
      }
      out, ch := step.configs, ch';
    }
    TreeOfParts(f);
    EndIncludes(out, f, ch);
    ValidFrom(out, f, ch);
    ExactOutcome(Loaded(out), f, ch);
    return Loaded(out), ch;
  }

  lemma RejectedFile(f: IsolateFile, ch: Choice)
    requires !AcceptedFile(f)
    ensures Comes(Failed, f, ch)
  {
  }

  lemma ValidFrom(out: Configs, f: IsolateFile, ch: Choice)
    requires IncludedFrom(out, f, ch, 0)
    ensures out.Valid()
  {
  }

  lemma CommandOf(f: IsolateFile, out: Configs, found: bool, picks: seq<Table>)
    requires AcceptedFile(f) && ChoosesRows(picks, f) && out.Valid() && out.Table() == StageWith(f, picks)
    requires found <==> exists key | key in out.Table() :: |out.Table()[key].Command()| > 0
    ensures found == HasCommand(StageWith(f, picks))
  {
    hide StageWith, TableOf, ChoosesRows;
  }

  // ----- The command line -----

  datatype Answer = Answer(settings: Settings) | MissingVariables(names: seq<string>) | Unavailable(why: Outcome)

  /** The values given on the command line. */
  function Given(configVariables: map<string, CString>): Binding {
    x => if x in configVariables then MakeValue(configVariables[x]) else Unbound
  }

  /** The configuration of the given values, or the variables that are missing. */
  method BindVariables(vars: seq<string>, configVariables: map<string, CString>)
    returns (config: Name, missing: seq<string>)
    requires Sorted(vars)
    ensures Sorted(missing) && forall x :: x in missing <==> x in vars && x !in configVariables
    ensures missing == [] ==> Represents(config, vars, Given(configVariables))
  {
    config, missing := [], [];
    for i := 0 to |vars|
      invariant Sorted(missing) && forall x :: x in missing <==> x in vars[..i] && x !in configVariables
      invariant missing == [] ==> Represents(config, vars[..i], Given(configVariables))
    {
      var x := vars[i];
      assert vars[..i + 1] == vars[..i] + [x];
      if x in configVariables {
        config := config + [MakeValue(configVariables[x])];
      } else {
        SortedSnoc(missing, x);
        missing := missing + [x];
      }
    }
    assert vars[..|vars|] == vars;
  }

  /** Exactly the files of direct evaluation; the command and the mode of blocks that apply, if any has them;
      and those of the global block before any other. */
  ghost predicate RightSettings(settings: Settings, f: IsolateFile, b: Binding)
    requires AcceptedTree(f)
  {
    && settings.Files() == DirectFiles(f, b)
    && ChosenFrom(settings, Applying(f, b))
    && LedBy(settings, f.variables)
  }

  /** The list of exactly the missing variables, or settings with no file that direct evaluation does
      not give. */
  ghost predicate Reasonable(r: Answer, f: IsolateFile, configVariables: map<string, CString>)
    requires AcceptedTree(f)
  {
    && !r.Unavailable?
    && (r.MissingVariables? <==> exists x | x in Compile(f).vars :: x !in configVariables)
    && (r.MissingVariables? ==>
          Sorted(r.names) && forall x :: x in r.names <==> x in Compile(f).vars && x !in configVariables)
    && (r.Answer? ==> r.settings.Files() <= DirectFiles(f, Given(configVariables)))
  }

  /** And when no two rows are spelled alike, exactly the right settings. */
  ghost predicate Right(r: Answer, f: IsolateFile, configVariables: map<string, CString>)
    requires AcceptedTree(f)
  {
    && Reasonable(r, f, configVariables)
    && (r.Answer? ==> RightSettings(r.settings, f, Given(configVariables)))
  }

  lemma ReasonableMissing(f: IsolateFile, configVariables: map<string, CString>, missing: seq<string>)
    requires AcceptedTree(f) && missing != [] && Sorted(missing)
    requires forall x :: x in missing <==> x in Compile(f).vars && x !in configVariables
    ensures Right(MissingVariables(missing), f, configVariables)
  {
    assert missing[0] in missing;
  }

  lemma SameVariables(f: IsolateFile, ch: Choice)
    requires AcceptedTree(f) && Chooses(ch, f)
    ensures CompileWith(f, ch).vars == Compile(f).vars
  {
    hide IncludesWith, CompileIncludes, Chooses;
    WithVariables(f, ch, 0);
    WithStart(f, ch);
    CompileIs(f);
  }

  lemma ReasonableAnswer(f: IsolateFile, ch: Choice, configVariables: map<string, CString>, config: Name)
    requires AcceptedTree(f) && Chooses(ch, f) && forall x | x in Compile(f).vars :: x in configVariables
    requires Represents(config, Compile(f).vars, Given(configVariables))
    ensures |config| == |CompileWith(f, ch).vars|
    ensures Reasonable(Answer(Query(CompileWith(f, ch).table, |config|, config)), f, configVariables)
  {
    hide Query, Compile, CompileWith, Chooses, DirectFiles;
    SameVariables(f, ch);
    RepresentsLength(config, Compile(f).vars, Given(configVariables));
    forall file | file in Query(CompileWith(f, ch).table, |config|, config).Files()
      ensures file in DirectFiles(f, Given(configVariables))
    {
      ChoiceOnlyLoses(f, ch, config, Given(configVariables), file);
    }
  }

  lemma RightAnswer(f: IsolateFile, ch: Choice, configVariables: map<string, CString>, config: Name)
    requires AcceptedTree(f) && Chooses(ch, f) && Unambiguous(Compile(f).table)
    requires Represents(config, Compile(f).vars, Given(configVariables)) && |config| == |CompileWith(f, ch).vars|
    ensures RightSettings(Query(CompileWith(f, ch).table, |config|, config), f, Given(configVariables))
  {
    hide Query, Compile, Chooses, CompileIncludes, DirectFiles, Applying, ChosenFrom, LedBy, Unambiguous;
    StorableClear(f);
    ClearCompile(f, ch);
    var settings := Query(Compile(f).table, |Compile(f).vars|, config);
    ChoicesPreserved(f, config, Given(configVariables));
    GlobalBlockWins(f, config);
    forall file ensures file in settings.Files() <==> file in DirectFiles(f, Given(configVariables)) {
      MeaningPreserved(f, config, Given(configVariables), file);
    }
  }

  /** An answer exactly when the file loads; never a file too many; and the right settings when no two
      rows of the compiled table are spelled alike. */
  method LoadIsolateForConfig(f: IsolateFile, configVariables: map<string, CString>)
    returns (r: Answer, ghost ch: Choice)
    ensures AcceptedTree(f) ==> Chooses(ch, f)
    ensures r.Unavailable? <==> !(AcceptedTree(f) && SmallTree(f) && Unambiguous(CompileWith(f, ch).table))
    ensures !r.Unavailable? ==> Reasonable(r, f, configVariables)
    ensures !r.Unavailable? && Unambiguous(Compile(f).table) ==> Right(r, f, configVariables)
  {
    hide AcceptedTree, SmallTree, Unambiguous, Compile, CompileWith, Chooses, TableOf, Query, RightSettings, Reasonable;
    var loaded;
    loaded, ch := LoadIsolateAsConfig(f);
    if !loaded.Loaded? {
      return Unavailable(loaded), ch;
    }
    var isolate := loaded.configs;
    SameVariables(f, ch);
    var config, missing := BindVariables(isolate.variables, configVariables);
    if |missing| > 0 {
      ReasonableMissing(f, configVariables, missing);
      return MissingVariables(missing), ch;
    }
    RepresentsLength(config, isolate.variables, Given(configVariables));
    var settings := isolate.GetConfig(config);
    ReasonableAnswer(f, ch, configVariables, config);
    if Unambiguous(Compile(f).table) {
      RightAnswer(f, ch, configVariables, config);
    }
    return Answer(settings), ch;
  }
}
