/** The compiled table means what direct evaluation of the conditions means. */
module IsolateMeaning {
  import opened IsolateValues
  import opened IsolateCondition
  import opened IsolateOdometer
  import opened IsolateMatch
  import opened IsolateTable
  import opened IsolateMerge
  import opened IsolateFiles

  /** A configuration gives the variables the values that b gives them. */
  ghost predicate Represents(config: Name, vars: seq<string>, b: Binding) {
    && |config| == |vars|
    && forall i | 0 <= i < |vars| :: config[i] == b(vars[i])
  }

  lemma RepresentsProjected(config: Name, vars: seq<string>, b: Binding, to: seq<string>)
    requires Represents(config, vars, b)
    requires forall x | x in to :: x in vars
    ensures Represents(Project(config, vars, to), to, b)
  {
  }

  // ----- One condition -----

  /** The configuration with unmentioned values unbound: the strongest row that can apply. */
  function KnownName(config: Name, sets: ValueSets, vars: seq<string>): Name
    requires |config| == |vars|
  {
    seq(|vars|, i requires 0 <= i < |vars| => if config[i] in ValuesOf(sets, vars[i]) then config[i] else Unbound)
  }

  lemma KnownNameBinding(config: Name, sets: ValueSets, vars: seq<string>, b: Binding, x: string)
    requires Represents(config, vars, b) && x in vars
    ensures BindingOf(vars, KnownName(config, sets, vars))(x) == Known(sets, b)(x)
  {
  }

  /** What is in the table of a condition. */
  lemma RowOfCondition(c: Condition, sets: ValueSets, vars: seq<string>, name: Name)
    requires Accepted(c.expr)
    ensures name in ConditionTable(c, sets, vars) <==>
            Over(name, sets, vars) && Meaning(c.expr, BindingOf(vars, name)).True?
    ensures name in ConditionTable(c, sets, vars) ==>
            ConditionTable(c, sets, vars)[name] == NewSettings(c.variables)
  {
    hide Over, Meaning, Accepted;
  }

  /** A row that applies to a configuration binds no more than what is known of it. */
  lemma RowRefines(e: Expr, sets: ValueSets, vars: seq<string>, config: Name, b: Binding, key: Name)
    requires Accepted(e) && Represents(config, vars, b) && Over(key, sets, vars) && Selects(config, key)
    requires forall atom | atom in Equalities(e) :: atom.0 in vars
    requires Meaning(e, BindingOf(vars, key)).True?
    ensures Meaning(e, Known(sets, b)).True?
  {
    hide Meaning, Accepted, Equalities;
    forall atom | atom in Equalities(e)
      ensures BindingOf(vars, key)(atom.0) == Unbound || BindingOf(vars, key)(atom.0) == Known(sets, b)(atom.0)
    {
      var i := Index(vars, atom.0);
      assert key[i].IsBound() ==> key[i] == config[i] && key[i] in ValuesOf(sets, vars[i]);
    }
    MeaningMonotone(e, BindingOf(vars, key), Known(sets, b));
  }

  /** The strongest row applies to the configuration and decides as much. */
  lemma KnownNameMeans(e: Expr, sets: ValueSets, vars: seq<string>, config: Name, b: Binding)
    requires Accepted(e) && Represents(config, vars, b)
    requires forall atom | atom in Equalities(e) :: atom.0 in vars
    ensures var name := KnownName(config, sets, vars);
      && Over(name, sets, vars) && Selects(config, name)
      && Meaning(e, BindingOf(vars, name)) == Meaning(e, Known(sets, b))
  {
    hide Meaning, Accepted, Equalities;
    var name := KnownName(config, sets, vars);
    forall atom | atom in Equalities(e) ensures BindingOf(vars, name)(atom.0) == Known(sets, b)(atom.0) {
      KnownNameBinding(config, sets, vars, b, atom.0);
    }
    MeaningAgree(e, BindingOf(vars, name), Known(sets, b));
  }

  ghost predicate SomeSelected(t: Table, config: Name)
    requires Wide(t, |config|)
  {
    exists key | key in t :: Selects(config, key)
  }

  /** A row of a condition applies to a configuration exactly when the condition is decided to be
      true by the known values of the configuration. */
  lemma ConditionSelects(c: Condition, sets: ValueSets, vars: seq<string>, config: Name, b: Binding)
    requires Accepted(c.expr) && Represents(config, vars, b)
    requires forall atom | atom in Equalities(c.expr) :: atom.0 in vars
    ensures SomeSelected(ConditionTable(c, sets, vars), config) <==> Applies(c, sets, b)
  {
    hide ConditionTable, Over, Meaning, Known, Accepted, Equalities, KnownName, Selects, BindingOf;
    var t := ConditionTable(c, sets, vars);
    if SomeSelected(t, config) {
      var key: Name :| key in t && Selects(config, key);
      RowOfCondition(c, sets, vars, key);
      RowRefines(c.expr, sets, vars, config, b, key);
    }
    if Applies(c, sets, b) {
      KnownNameMeans(c.expr, sets, vars, config, b);
      RowOfCondition(c, sets, vars, KnownName(config, sets, vars));
    }
  }

  lemma RowSettings(c: Condition, sets: ValueSets, vars: seq<string>)
    requires Accepted(c.expr)
    ensures forall name | name in ConditionTable(c, sets, vars) ::
              ConditionTable(c, sets, vars)[name] == NewSettings(c.variables)
  {
    hide ConditionTable, Accepted;
    forall name | name in ConditionTable(c, sets, vars) {
      RowOfCondition(c, sets, vars, name);
    }
  }

  /** So it offers its files exactly then. */
  lemma ConditionOffers(c: Condition, sets: ValueSets, vars: seq<string>, config: Name, b: Binding, file: string)
    requires Accepted(c.expr) && Represents(config, vars, b)
    requires forall atom | atom in Equalities(c.expr) :: atom.0 in vars
    ensures Offers(ConditionTable(c, sets, vars), config, file) <==> Applies(c, sets, b) && file in c.variables.files
  {
    hide ConditionTable, Accepted, Equalities, Selects, Applies;
    ConditionSelects(c, sets, vars, config, b);
    RowSettings(c, sets, vars);
  }

  // ----- One file -----

  ghost predicate ConditionFile(f: IsolateFile, b: Binding, i: nat, file: string)
    requires AcceptedFile(f) && i < |f.conditions|
  {
    Applies(f.conditions[i], KeptValues(f.conditions), b) && file in f.conditions[i].variables.files
  }

  lemma GlobalOffers(f: IsolateFile, config: Name, file: string)
    requires AcceptedFile(f) && |config| == |VariablesOf(f)|
    ensures Offers(StageTable(f, 0), config, file) <==> file in f.variables.files
  {
    hide VariablesOf, KeptValues;
    var key := NothingBound(|VariablesOf(f)|);
    assert Selects(config, key);
    assert StageTable(f, 0)[key].Files() == f.variables.files;
  }

  lemma StageStep(f: IsolateFile, i: nat, config: Name, b: Binding, file: string)
    requires AcceptedFile(f) && i < |f.conditions|
    requires Represents(config, VariablesOf(f), b)
    ensures |config| == |VariablesOf(f)|
    ensures Offers(StageTable(f, i + 1), config, file) <==>
            Offers(StageTable(f, i), config, file) || ConditionFile(f, b, i, file)
  {
    hide Offers, Merge, ConditionTable, KeptValues, VariablesOf, Applies;
    var c := f.conditions[i];
    EqualitiesOf(f.conditions, i);
    ConditionOffers(c, KeptValues(f.conditions), VariablesOf(f), config, b, file);
    MergeOffers(StageTable(f, i), ConditionTable(c, KeptValues(f.conditions), VariablesOf(f)), config, file);
  }

  lemma {:induction false} StageOffers(f: IsolateFile, i: nat, config: Name, b: Binding, file: string)
    requires AcceptedFile(f) && i <= |f.conditions|
    requires Represents(config, VariablesOf(f), b)
    ensures |config| == |VariablesOf(f)|
    ensures Offers(StageTable(f, i), config, file) <==>
            file in f.variables.files || exists j | 0 <= j < i :: ConditionFile(f, b, j, file)
  {
    hide *;
    RepresentsLength(config, VariablesOf(f), b);
    if i == 0 {
      GlobalOffers(f, config, file);
    } else {
      StageOffers(f, i - 1, config, b, file);
      StageStep(f, i - 1, config, b, file);
    }
  }

  lemma OwnOffers(f: IsolateFile, config: Name, b: Binding, file: string)
    requires AcceptedFile(f)
    requires Represents(config, VariablesOf(f), b)
    ensures Offers(OwnTable(f), config, file) <==> file in OwnFiles(f, b)
  {
    hide Offers, StageTable, KeptValues, VariablesOf, Applies, Known;
    StageOffers(f, |f.conditions|, config, b, file);
    if file in OwnFiles(f, b) && file !in f.variables.files {
      var j :| 0 <= j < |f.conditions| && Applies(f.conditions[j], KeptValues(f.conditions), b)
        && file in f.conditions[j].variables.files;
      assert ConditionFile(f, b, j, file);
    }
    assert OwnTable(f) == StageTable(f, |f.conditions|);
  }

  // ----- A file and its includes -----

  lemma StripOffers(t: Table, strip: bool, config: Name, file: string)
    requires Wide(t, |config|)
    ensures Wide(Strip(t, strip), |config|)
    ensures Offers(Strip(t, strip), config, file) <==> Offers(t, config, file)
  {
    var r := Strip(t, strip);
    forall key | key in t ensures r[key].Files() == t[key].Files() {}
  }

  lemma MergeCompiledOffers(a: Compiled, c: Compiled, config: Name, file: string)
    requires a.Valid() && c.Valid() && |config| == |MergeCompiled(a, c).vars|
    ensures Offers(MergeCompiled(a, c).table, config, file) <==>
            || Offers(a.table, Project(config, MergeCompiled(a, c).vars, a.vars), file)
            || Offers(c.table, Project(config, MergeCompiled(a, c).vars, c.vars), file)
  {
    hide Offers, Widen, Merge, Project;
    var vars := MergeCompiled(a, c).vars;
    WidenOffers(a.table, a.vars, vars, config, file);
    WidenOffers(c.table, c.vars, vars, config, file);
    MergeOffers(Widen(a.table, a.vars, vars), Widen(c.table, c.vars, vars), config, file);
  }

  ghost predicate IncludedFile(f: IsolateFile, b: Binding, j: nat, file: string)
    requires AcceptedTree(f) && j < |f.includes|
  {
    file in DirectFiles(f.includes[j], b)
  }

  lemma RepresentsLength(config: Name, vars: seq<string>, b: Binding)
    requires Represents(config, vars, b)
    ensures |config| == |vars|
  {
  }

  lemma {:induction false} IncludesOffer(f: IsolateFile, i: nat, config: Name, b: Binding, file: string)
    requires AcceptedTree(f) && i <= |f.includes|
    requires Represents(config, CompileIncludes(f, i).vars, b)
    ensures Offers(CompileIncludes(f, i).table, config, file) <==>
            file in OwnFiles(f, b) || exists j | i <= j < |f.includes| :: IncludedFile(f, b, j, file)
    decreases f, |f.includes| - i
  {
    hide Offers, CompileIncludes, OwnTable, OwnFiles, VariablesOf, Strip, HasCommand, Project, MergeCompiled,
         DirectFiles, Represents;
    if i == |f.includes| {
      NoMoreIncludes(f);
      OwnOffers(f, config, b, file);
    } else {
      IncludeNext(f, i);
      var previous, included, stripped := CompileIncludes(f, i + 1), Compile(f.includes[i]), Stripped(f, i);
      var vars := CompileIncludes(f, i).vars;
      RepresentsLength(config, vars, b);
      RepresentsProjected(config, vars, b, previous.vars);
      RepresentsProjected(config, vars, b, included.vars);
      IncludesOffer(f, i + 1, Project(config, vars, previous.vars), b, file);
      CompiledOffers(f.includes[i], Project(config, vars, included.vars), b, file);
      StripOffers(included.table, HasCommand(OwnTable(f)), Project(config, vars, included.vars), file);
      MergeCompiledOffers(previous, stripped, config, file);
      assert IncludedFile(f, b, i, file) <==> file in DirectFiles(f.includes[i], b);
    }
  }

  lemma {:induction false} CompiledOffers(f: IsolateFile, config: Name, b: Binding, file: string)
    requires AcceptedTree(f)
    requires Represents(config, Compile(f).vars, b)
    ensures |config| == |Compile(f).vars|
    ensures Offers(Compile(f).table, config, file) <==> file in DirectFiles(f, b)
    decreases f, |f.includes| + 1
  {
    hide Offers, CompileIncludes, OwnFiles;
    RepresentsLength(config, Compile(f).vars, b);
    IncludesOffer(f, 0, config, b, file);
    if file in DirectFiles(f, b) && file !in OwnFiles(f, b) {
      var j :| 0 <= j < |f.includes| && file in DirectFiles(f.includes[j], b);
      assert IncludedFile(f, b, j, file);
    }
  }

  /** Querying the compiled table gives exactly the files of direct evaluation, for every file
      with its includes and for every configuration. */
  lemma MeaningPreserved(f: IsolateFile, config: Name, b: Binding, file: string)
    requires AcceptedTree(f) && Represents(config, Compile(f).vars, b)
    ensures file in Query(Compile(f).table, |config|, config).Files() <==> file in DirectFiles(f, b)
  {
    hide Offers, CompileIncludes, DirectFiles, Query;
    CompiledOffers(f, config, b, file);
    QueryFiles(Compile(f).table, config, file);
  }
}
