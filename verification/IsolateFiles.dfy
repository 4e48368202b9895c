/** .isolate files and what they mean: the table each file should compile to, and direct evaluation
    of its conditions (client/isolate/format.go:64-152, 477-537, 710-773). */
module IsolateFiles {
  import opened Text
  import opened IsolateValues
  import opened IsolateCondition
  import opened IsolateOdometer
  import opened IsolateMatch
  import opened IsolateTable
  import opened IsolateMerge

  datatype Variables = Variables(files: set<string>, command: seq<string>, readOnly: Option<int>)

  datatype Condition = Condition(expr: Expr, variables: Variables)

  /** A file with its includes already read and parsed; all in one directory. */
  datatype IsolateFile = IsolateFile(variables: Variables, conditions: seq<Condition>, includes: seq<IsolateFile>)

  /** variables.verify. */
  predicate Verified(v: Variables) {
    v.readOnly.None? || 0 <= v.readOnly.value <= 2
  }

  /** newConfigSettings. */
  function NewSettings(v: Variables): Settings {
    Settings(v.files, v.command, if v.readOnly.Some? then v.readOnly.value else NOT_SET)
  }

  // ----- Processing one file -----

  predicate AcceptedConditions(conditions: seq<Condition>) {
    forall i | 0 <= i < |conditions| :: Accepted(conditions[i].expr) && Verified(conditions[i].variables)
  }

  /** What processIsolate accepts. */
  predicate AcceptedFile(f: IsolateFile) {
    Verified(f.variables) && AcceptedConditions(f.conditions)
  }

  function AllEqualities(conditions: seq<Condition>): set<(string, Value)>
    requires AcceptedConditions(conditions)
  {
    if conditions == [] then {}
    else AllEqualities(conditions[..|conditions| - 1]) + Equalities(conditions[|conditions| - 1].expr)
  }

  /** The values kept for each variable of a file. */
  function KeptValues(conditions: seq<Condition>): (sets: ValueSets)
    requires AcceptedConditions(conditions)
    ensures Collected(sets, AllEqualities(conditions))
  {
    if conditions == [] then map[]
    else
      var front, last := conditions[..|conditions| - 1], conditions[|conditions| - 1].expr;
      CollectValuesCorrect(last, KeptValues(front), AllEqualities(front));
      CollectValues(last, KeptValues(front)).value
  }

  lemma {:induction false} EqualitiesOf(conditions: seq<Condition>, i: nat)
    requires AcceptedConditions(conditions) && i < |conditions|
    ensures Equalities(conditions[i].expr) <= AllEqualities(conditions)
  {
    if i < |conditions| - 1 {
      EqualitiesOf(conditions[..|conditions| - 1], i);
    }
  }

  // ----- Sorted variable names -----

  function InsertString(x: string, s: seq<string>): seq<string> {
    if s == [] || Less(x, s[0]) then [x] + s else [s[0]] + InsertString(x, s[1..])
  }

  lemma {:induction false} InsertStringSorted(x: string, s: seq<string>)
    requires Sorted(s) && x !in s
    ensures Sorted(InsertString(x, s))
    ensures forall y :: y in InsertString(x, s) <==> y == x || y in s
  {
    if s != [] {
      LessTrichotomy(x, s[0]);
      assert s == [s[0]] + s[1..];
      if Less(x, s[0]) {
        forall j | 0 < j < |s| ensures Less(x, s[j]) { LessTransitive(x, s[0], s[j]); }
      } else {
        InsertStringSorted(x, s[1..]);
        var rest := InsertString(x, s[1..]);
        forall j | 0 <= j < |rest| ensures Less(s[0], rest[j]) {
          assert rest[j] == x || rest[j] in s[1..];
        }
      }
    }
  }

  lemma NonEmptyTogether(a: seq<string>, b: seq<string>)
    requires forall x | x in a :: x in b
    ensures a != [] ==> b != []
  {
    if a != [] {
      assert a[0] in b;
    }
  }

  lemma {:induction false} SortedUnique(a: seq<string>, b: seq<string>)
    requires Sorted(a) && Sorted(b) && forall x :: x in a <==> x in b
    ensures a == b
  {
    NonEmptyTogether(a, b);
    NonEmptyTogether(b, a);
    if a != [] {
      assert a[0] in b && b[0] in a;
      var i :| 0 <= i < |b| && b[i] == a[0];
      var j :| 0 <= j < |a| && a[j] == b[0];
      LessTrichotomy(a[0], b[0]);
      assert a[0] == b[0];
      forall x ensures x in a[1..] <==> x in b[1..] {
        if x in a[1..] {
          var k :| 0 < k < |a| && a[k] == x;
          LessTrichotomy(a[0], a[k]);
          assert x in b && x != b[0];
        }
        if x in b[1..] {
          var k :| 0 < k < |b| && b[k] == x;
          LessTrichotomy(b[0], b[k]);
          assert x in a && x != a[0];
        }
      }
      SortedUnique(a[1..], b[1..]);
    }
  }

  ghost function SortedNames(names: set<string>): (s: seq<string>)
    ensures Sorted(s) && forall x :: x in s <==> x in names
  {
    if names == {} then []
    else
      var x :| x in names;
      var rest := SortedNames(names - {x});
      InsertStringSorted(x, rest);
      InsertString(x, rest)
  }

  /** The configuration variables of a file by itself. */
  ghost function VariablesOf(f: IsolateFile): (vars: seq<string>)
    requires AcceptedFile(f)
    ensures Sorted(vars) && forall x :: x in vars <==> x in KeptValues(f.conditions)
  {
    SortedNames(KeptValues(f.conditions).Keys)
  }

  // ----- The table of one file -----

  /** All partial bindings of the variables to kept values. */
  ghost function AllNames(sets: ValueSets, vars: seq<string>): (names: set<Name>)
    ensures forall name :: name in names <==> Over(name, sets, vars)
  {
    if vars == [] then {[]}
    else
      var rest := AllNames(sets, vars[1..]);
      var values := ValuesOf(sets, vars[0]) + {Unbound};
      var names := set v, name | v in values && name in rest :: [v] + name;
      OverCons(sets, vars, names, rest, values);
      names
  }

  lemma OverCons(sets: ValueSets, vars: seq<string>, names: set<Name>, rest: set<Name>, values: set<Value>)
    requires vars != [] && values == ValuesOf(sets, vars[0]) + {Unbound}
    requires forall name :: name in rest <==> Over(name, sets, vars[1..])
    requires names == set v, name | v in values && name in rest :: [v] + name
    ensures forall name :: name in names <==> Over(name, sets, vars)
  {
    forall name: Name ensures name in names <==> Over(name, sets, vars) {
      if Over(name, sets, vars) {
        assert Over(name[1..], sets, vars[1..]);
        assert name == [name[0]] + name[1..];
        assert name[0] in values && name[1..] in rest;
      }
      if name in names {
        var v, tail :| v in values && tail in rest && name == [v] + tail;
        assert Over(tail, sets, vars[1..]);
        forall i | 0 <= i < |vars| ensures name[i].Unbound? || name[i] in ValuesOf(sets, vars[i]) {
          if i > 0 { assert name[i] == tail[i - 1] && vars[i] == vars[1..][i - 1]; }
        }
      }
    }
  }

  function BindingOf(vars: seq<string>, name: Name): Binding
    requires |name| == |vars|
  {
    x => if x in vars then name[Index(vars, x)] else Unbound
  }

  /** A condition contributes its settings to every partial binding that decides it to be true. */
  ghost function ConditionTable(c: Condition, sets: ValueSets, vars: seq<string>): (t: Table)
    requires Accepted(c.expr)
    ensures Wide(t, |vars|)
    ensures forall name :: name in t <==> Over(name, sets, vars) && Meaning(c.expr, BindingOf(vars, name)).True?
  {
    map name | name in AllNames(sets, vars) && Meaning(c.expr, BindingOf(vars, name)).True? :: NewSettings(c.variables)
  }

  function NothingBound(n: nat): (name: Name)
    ensures |name| == n
  {
    seq(n, i => Unbound)
  }

  /** The global block and the first i conditions. */
  ghost function StageTable(f: IsolateFile, i: nat): (t: Table)
    requires AcceptedFile(f) && i <= |f.conditions|
    ensures Wide(t, |VariablesOf(f)|)
  {
    if i == 0 then map[NothingBound(|VariablesOf(f)|) := NewSettings(f.variables)]
    else Merge(StageTable(f, i - 1), ConditionTable(f.conditions[i - 1], KeptValues(f.conditions), VariablesOf(f)))
  }

  ghost function OwnTable(f: IsolateFile): (t: Table)
    requires AcceptedFile(f)
    ensures Wide(t, |VariablesOf(f)|)
  {
    StageTable(f, |f.conditions|)
  }

  // ----- Including other files -----

  datatype Compiled = Compiled(vars: seq<string>, table: Table) {
    ghost predicate Valid() { Sorted(vars) && Wide(table, |vars|) }
  }

  predicate HasCommand(t: Table) {
    exists key | key in t :: |t[key].Command()| > 0
  }

  /** What is left of an included table when the including file has a command of its own. */
  function Strip(t: Table, strip: bool): (r: Table)
    ensures r.Keys == t.Keys
  {
    if strip then map key | key in t :: WithoutCommand(t[key]) else t
  }

  predicate AcceptedTree(f: IsolateFile) {
    AcceptedFile(f) && forall i | 0 <= i < |f.includes| :: AcceptedTree(f.includes[i])
  }

  ghost function MergedVariables(a: seq<string>, b: seq<string>): (vars: seq<string>)
    requires Sorted(a) && Sorted(b)
    ensures AllVariables(vars, a, b)
  {
    SortedNames((set x | x in a) + (set x | x in b))
  }

  ghost function MergeCompiled(a: Compiled, b: Compiled): (c: Compiled)
    requires a.Valid() && b.Valid()
    ensures c.Valid() && AllVariables(c.vars, a.vars, b.vars)
  {
    var vars := MergedVariables(a.vars, b.vars);
    Compiled(vars, Merged(a.table, a.vars, b.table, b.vars, vars))
  }

  /** The table a file should load as: its own, then its includes from the last to the first. */
  ghost function Compile(f: IsolateFile): (c: Compiled)
    requires AcceptedTree(f)
    ensures c.Valid()
    decreases f, |f.includes| + 1
  {
    CompileIncludes(f, 0)
  }

  /** The own table merged with the includes from position i on. */
  ghost function CompileIncludes(f: IsolateFile, i: nat): (c: Compiled)
    requires AcceptedTree(f) && i <= |f.includes|
    ensures c.Valid()
    decreases f, |f.includes| - i
  {
    if i == |f.includes| then Compiled(VariablesOf(f), OwnTable(f))
    else
      var included := Compile(f.includes[i]);
      MergeCompiled(CompileIncludes(f, i + 1), Compiled(included.vars, Strip(included.table, HasCommand(OwnTable(f)))))
  }

  /** The table of an include as it is merged. */
  ghost function Stripped(f: IsolateFile, i: nat): (c: Compiled)
    requires AcceptedTree(f) && i < |f.includes|
    ensures c.Valid()
  {
    Compiled(Compile(f.includes[i]).vars, Strip(Compile(f.includes[i]).table, HasCommand(OwnTable(f))))
  }

  lemma IncludeNext(f: IsolateFile, i: nat)
    requires AcceptedTree(f) && i < |f.includes|
    ensures CompileIncludes(f, i) == MergeCompiled(CompileIncludes(f, i + 1), Stripped(f, i))
    ensures AllVariables(CompileIncludes(f, i).vars, CompileIncludes(f, i + 1).vars, Compile(f.includes[i]).vars)
  {
    hide OwnTable, HasCommand;
  }

  lemma NoMoreIncludes(f: IsolateFile)
    requires AcceptedTree(f)
    ensures CompileIncludes(f, |f.includes|) == Compiled(VariablesOf(f), OwnTable(f))
  {
    hide OwnTable, VariablesOf;
  }

  // ----- Direct evaluation -----

  /** Values that no condition of the file mentions are as good as unbound. */
  function Known(sets: ValueSets, b: Binding): Binding {
    x => if b(x) in ValuesOf(sets, x) then b(x) else Unbound
  }

  predicate Applies(c: Condition, sets: ValueSets, b: Binding)
    requires Accepted(c.expr)
  {
    Meaning(c.expr, Known(sets, b)).True?
  }

  /** The files of the global block and of every condition that applies. */
  function OwnFiles(f: IsolateFile, b: Binding): set<string>
    requires AcceptedFile(f)
  {
    f.variables.files
    + set i, x | 0 <= i < |f.conditions| && Applies(f.conditions[i], KeptValues(f.conditions), b)
        && x in f.conditions[i].variables.files :: x
  }

  /** The files of a file and of all its includes. */
  function DirectFiles(f: IsolateFile, b: Binding): set<string>
    requires AcceptedTree(f)
  {
    OwnFiles(f, b) + set i, x | 0 <= i < |f.includes| && x in DirectFiles(f.includes[i], b) :: x
  }
}
