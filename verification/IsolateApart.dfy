/** When the rows of a file can be told apart, in terms of its own conditions and literals. */
module IsolateApart {
  import opened Text
  import opened IsolateValues
  import opened IsolateCondition
  import opened IsolateOdometer
  import opened IsolateMatch
  import opened IsolateTable
  import opened IsolateMerge
  import opened IsolateFiles
  import opened IsolateChoice
  import opened IsolateComplete

  /** Values for some of the variables. */
  type Partial = map<string, Value>

  function Bind(m: Partial): Binding {
    x => if x in m then m[x] else Unbound
  }

  /** Only literals that the conditions keep, and enough of them for condition i to be true. */
  ghost predicate Decides(f: IsolateFile, i: nat, m: Partial)
    requires AcceptedFile(f) && i < |f.conditions|
  {
    && (forall x | x in m :: m[x] in ValuesOf(KeptValues(f.conditions), x))
    && Meaning(f.conditions[i].expr, Bind(m)).True?
  }

  /** What rows the conditions of a file and of its includes give rise to. */
  ghost predicate Decided(f: IsolateFile, m: Partial)
    requires AcceptedTree(f)
  {
    || m == map[]
    || (exists i | 0 <= i < |f.conditions| :: Decides(f, i, m))
    || (exists i | 0 <= i < |f.includes| :: Decided(f.includes[i], m))
  }

  /** The same variables have values, spelled the same way. */
  ghost predicate Lookalike(m: Partial, n: Partial) {
    m.Keys == n.Keys && forall x | x in m :: m[x].Spelling() == n[x].Spelling()
  }

  /** No two of them are spelled alike. */
  ghost predicate Apart(f: IsolateFile)
    requires AcceptedTree(f)
  {
    forall m, n | Decided(f, m) && Decided(f, n) && Lookalike(m, n) :: m == n
  }

  // ----- Rows as partial bindings -----

  /** The values that a row binds. */
  function BoundOf(vars: seq<string>, name: Name): (m: Partial)
    requires |name| == |vars|
    ensures forall x :: x in m <==> x in vars && name[Index(vars, x)].IsBound()
    ensures forall x | x in m :: m[x] == name[Index(vars, x)]
  {
    map x | x in vars && name[Index(vars, x)].IsBound() :: name[Index(vars, x)]
  }

  ghost function Rows(c: Compiled): set<Partial>
    requires c.Valid()
  {
    set name | name in c.table :: BoundOf(c.vars, name)
  }

  lemma BoundAt(vars: seq<string>, name: Name, i: nat)
    requires Sorted(vars) && |name| == |vars| && i < |vars|
    ensures vars[i] in BoundOf(vars, name) <==> name[i].IsBound()
    ensures name[i].IsBound() ==> BoundOf(vars, name)[vars[i]] == name[i]
  {
    IndexAt(vars, i);
  }

  lemma BoundInjective(vars: seq<string>, a: Name, b: Name)
    requires Sorted(vars) && |a| == |b| == |vars| && BoundOf(vars, a) == BoundOf(vars, b)
    ensures a == b
  {
    hide BoundOf;
    forall i | 0 <= i < |vars| ensures a[i] == b[i] {
      BoundAt(vars, a, i);
      BoundAt(vars, b, i);
    }
  }

  /** Two rows share a key exactly when they are spelled alike. */
  lemma KeyAlike(vars: seq<string>, a: Name, b: Name)
    requires Sorted(vars) && |a| == |b| == |vars|
    ensures NameKey(a) == NameKey(b) <==> Lookalike(BoundOf(vars, a), BoundOf(vars, b))
  {
    hide NameKey;
    NameKeyAlike(a, b);
    var m, n := BoundOf(vars, a), BoundOf(vars, b);
    if SpelledAlike(a, b) {
      assert forall x | x in vars :: x in m <==> x in n;
      assert m.Keys == n.Keys;
    }
    if Lookalike(m, n) {
      forall i | 0 <= i < |vars|
        ensures a[i].IsBound() == b[i].IsBound() && a[i].Spelling() == b[i].Spelling()
      {
        BoundAt(vars, a, i);
        BoundAt(vars, b, i);
        assert vars[i] in m.Keys <==> vars[i] in n.Keys;
      }
    }
  }

  ghost predicate RowsApart(rows: set<Partial>) {
    forall m, n | m in rows && n in rows && Lookalike(m, n) :: m == n
  }

  lemma UnambiguousRows(c: Compiled)
    requires c.Valid()
    ensures Unambiguous(c.table) <==> RowsApart(Rows(c))
  {
    hide NameKey, BoundOf, Lookalike;
    forall a: Name, b: Name | a in c.table && b in c.table
      ensures NameKey(a) == NameKey(b) <==> Lookalike(BoundOf(c.vars, a), BoundOf(c.vars, b))
    {
      KeyAlike(c.vars, a, b);
    }
    if RowsApart(Rows(c)) {
      forall a: Name, b: Name | a in c.table && b in c.table && NameKey(a) == NameKey(b) ensures a == b {
        assert BoundOf(c.vars, a) in Rows(c) && BoundOf(c.vars, b) in Rows(c);
        BoundInjective(c.vars, a, b);
      }
    }
    if Unambiguous(c.table) {
      forall m, n | m in Rows(c) && n in Rows(c) && Lookalike(m, n) ensures m == n {
        var a :| a in c.table && BoundOf(c.vars, a) == m;
        var b :| b in c.table && BoundOf(c.vars, b) == n;
      }
    }
  }

  // ----- The rows of a compiled file -----

  function NameOf(vars: seq<string>, m: Partial): (name: Name)
    ensures |name| == |vars|
    ensures forall i | 0 <= i < |vars| :: name[i] == if vars[i] in m then m[vars[i]] else Unbound
  {
    seq(|vars|, i requires 0 <= i < |vars| => if vars[i] in m then m[vars[i]] else Unbound)
  }

  lemma BoundOfName(vars: seq<string>, m: Partial)
    requires forall x | x in m :: x in vars && m[x].IsBound()
    ensures BoundOf(vars, NameOf(vars, m)) == m
  {
    var n := BoundOf(vars, NameOf(vars, m));
    assert n.Keys == m.Keys;
  }

  lemma NameOfBound(f: IsolateFile, m: Partial)
    requires AcceptedFile(f) && forall x | x in m :: m[x] in ValuesOf(KeptValues(f.conditions), x)
    ensures BoundOf(VariablesOf(f), NameOf(VariablesOf(f), m)) == m
    ensures Over(NameOf(VariablesOf(f), m), KeptValues(f.conditions), VariablesOf(f))
  {
    hide KeptValues, VariablesOf, BoundOf, NameOf;
    forall x | x in m ensures x in VariablesOf(f) && m[x].IsBound() {
      KeptBound(f.conditions, x);
    }
    BoundOfName(VariablesOf(f), m);
    NameOver(f, m);
  }

  lemma NameOver(f: IsolateFile, m: Partial)
    requires AcceptedFile(f) && forall x | x in m :: m[x] in ValuesOf(KeptValues(f.conditions), x)
    ensures Over(NameOf(VariablesOf(f), m), KeptValues(f.conditions), VariablesOf(f))
  {
    hide KeptValues, VariablesOf, ValuesOf;
  }

  lemma BoundMeans(e: Expr, vars: seq<string>, name: Name)
    requires Accepted(e) && |name| == |vars|
    ensures Meaning(e, Bind(BoundOf(vars, name))) == Meaning(e, BindingOf(vars, name))
  {
    hide Meaning, Equalities;
    MeaningAgree(e, Bind(BoundOf(vars, name)), BindingOf(vars, name));
  }

  /** What the rows of a condition bind decides it, with literals that are kept; and all that does is in a row. */
  lemma ConditionRows(f: IsolateFile, i: nat, m: Partial)
    requires AcceptedFile(f) && i < |f.conditions|
    ensures m in Rows(Compiled(VariablesOf(f), RowsAt(f, i))) <==> Decides(f, i, m)
  {
    hide KeptValues, VariablesOf, Meaning, BoundOf, NameOf, Bind, BindingOf;
    var e, vars, t := f.conditions[i].expr, VariablesOf(f), RowsAt(f, i);
    if m in Rows(Compiled(vars, t)) {
      var name :| name in t && BoundOf(vars, name) == m;
      BoundMeans(e, vars, name);
      BoundKept(f, name);
    }
    if Decides(f, i, m) {
      NameOfBound(f, m);
      BoundMeans(e, vars, NameOf(vars, m));
      assert NameOf(vars, m) in t;
    }
  }

  lemma BoundKept(f: IsolateFile, name: Name)
    requires AcceptedFile(f) && Over(name, KeptValues(f.conditions), VariablesOf(f))
    ensures var m := BoundOf(VariablesOf(f), name);
      forall x | x in m :: m[x] in ValuesOf(KeptValues(f.conditions), x)
  {
    hide KeptValues, VariablesOf;
  }

  lemma RowsMerged(vars: seq<string>, a: Table, b: Table)
    requires Sorted(vars) && Wide(a, |vars|) && Wide(b, |vars|)
    ensures Wide(Merge(a, b), |vars|)
    ensures Rows(Compiled(vars, Merge(a, b))) == Rows(Compiled(vars, a)) + Rows(Compiled(vars, b))
  {
    hide BoundOf;
    MergeKeys(a, b);
  }

  lemma RowsWidened(t: Table, from: seq<string>, to: seq<string>)
    requires Wide(t, |from|) && Sorted(from) && Sorted(to) && forall x | x in from :: x in to
    ensures Wide(Widen(t, from, to), |to|)
    ensures Rows(Compiled(to, Widen(t, from, to))) == Rows(Compiled(from, t))
  {
    WidenWide(t, from, to);
    hide BoundOf, Widen, Project;
    var wide := Compiled(to, Widen(t, from, to));
    forall m | m in Rows(wide) ensures m in Rows(Compiled(from, t)) {
      var name :| name in wide.table && BoundOf(to, name) == m;
      var key := WidenedFrom(t, from, to, name);
      BoundProjected(from, to, key);
    }
    forall m | m in Rows(Compiled(from, t)) ensures m in Rows(wide) {
      var key :| key in t && BoundOf(from, key) == m;
      WidenAt(t, from, to, key);
      BoundProjected(from, to, key);
    }
  }

  lemma BoundProjected(from: seq<string>, to: seq<string>, key: Name)
    requires |key| == |from| && Sorted(from) && Sorted(to) && forall x | x in from :: x in to
    ensures BoundOf(to, Project(key, from, to)) == BoundOf(from, key)
  {
    var m, n := BoundOf(to, Project(key, from, to)), BoundOf(from, key);
    forall x ensures x in m <==> x in n {
      if x in to {
        IndexAt(to, Index(to, x));
      }
    }
    assert m.Keys == n.Keys;
  }

  lemma {:induction false} StageRows(f: IsolateFile, i: nat, m: Partial)
    requires AcceptedFile(f) && i <= |f.conditions|
    ensures m in Rows(Compiled(VariablesOf(f), StageTable(f, i))) <==>
            m == map[] || exists j | 0 <= j < i :: Decides(f, j, m)
  {
    hide VariablesOf, KeptValues, Decides, Merge, ConditionTable, Rows;
    if i == 0 {
      GlobalRows(f, m);
    } else {
      StageRows(f, i - 1, m);
      ConditionRows(f, i - 1, m);
      RowsMerged(VariablesOf(f), StageTable(f, i - 1), RowsAt(f, i - 1));
    }
  }

  lemma GlobalRows(f: IsolateFile, m: Partial)
    requires AcceptedFile(f)
    ensures m in Rows(Compiled(VariablesOf(f), StageTable(f, 0))) <==> m == map[]
  {
    hide VariablesOf, KeptValues;
    var vars := VariablesOf(f);
    assert BoundOf(vars, NothingBound(|vars|)) == map[];
  }

  lemma {:induction false} IncludeRows(f: IsolateFile, i: nat, m: Partial)
    requires AcceptedTree(f) && i <= |f.includes|
    ensures m in Rows(CompileIncludes(f, i)) <==>
      || m == map[]
      || (exists j | 0 <= j < |f.conditions| :: Decides(f, j, m))
      || (exists j | i <= j < |f.includes| :: Decided(f.includes[j], m))
    decreases f, |f.includes| - i
  {
    hide Rows, CompileIncludes, MergeCompiled, OwnTable, HasCommand, Decides, VariablesOf;
    if i == |f.includes| {
      NoMoreIncludes(f);
      OwnIs(f);
      StageRows(f, |f.conditions|, m);
    } else {
      IncludeRows(f, i + 1, m);
      IncludeRows(f.includes[i], 0, m);
      CompileIs(f.includes[i]);
      IncludeNext(f, i);
      StrippedRows(f, i);
      MergeCompiledRows(CompileIncludes(f, i + 1), Stripped(f, i));
    }
  }

  lemma StrippedRows(f: IsolateFile, i: nat)
    requires AcceptedTree(f) && i < |f.includes|
    ensures Rows(Stripped(f, i)) == Rows(Compile(f.includes[i]))
  {
    hide Compile, BoundOf, OwnTable, HasCommand;
    assert Stripped(f, i).table.Keys == Compile(f.includes[i]).table.Keys;
  }

  lemma MergeCompiledRows(a: Compiled, b: Compiled)
    requires a.Valid() && b.Valid()
    ensures Rows(MergeCompiled(a, b)) == Rows(a) + Rows(b)
  {
    hide Rows, Merge, Widen;
    var vars := MergeCompiled(a, b).vars;
    RowsWidened(a.table, a.vars, vars);
    RowsWidened(b.table, b.vars, vars);
    RowsMerged(vars, Widen(a.table, a.vars, vars), Widen(b.table, b.vars, vars));
  }

  /** The rows of the compiled table bind exactly what decides a condition somewhere in the tree. */
  lemma CompiledRows(f: IsolateFile, m: Partial)
    requires AcceptedTree(f)
    ensures m in Rows(Compile(f)) <==> Decided(f, m)
  {
    hide Rows, CompileIncludes, Decides;
    CompileIs(f);
    IncludeRows(f, 0, m);
  }

  /** The table can be stored if and only if no two of them are spelled alike. */
  lemma StorableExactly(f: IsolateFile)
    requires AcceptedTree(f)
    ensures Unambiguous(Compile(f).table) <==> Apart(f)
  {
    hide Rows, Compile, Decided, Lookalike, Unambiguous;
    UnambiguousRows(Compile(f));
    forall m ensures m in Rows(Compile(f)) <==> Decided(f, m) {
      CompiledRows(f, m);
    }
  }

  ghost predicate ConditionApart(f: IsolateFile, i: nat)
    requires AcceptedFile(f) && i < |f.conditions|
  {
    forall m, n | Decides(f, i, m) && Decides(f, i, n) && Lookalike(m, n) :: m == n
  }

  /** No two that decide one condition are spelled alike, anywhere in the tree. */
  ghost predicate EachApart(f: IsolateFile)
    requires AcceptedTree(f)
  {
    && (forall i | 0 <= i < |f.conditions| :: ConditionApart(f, i))
    && forall i | 0 <= i < |f.includes| :: EachApart(f.includes[i])
  }

  lemma ConditionClear(f: IsolateFile, i: nat)
    requires AcceptedFile(f) && i < |f.conditions|
    ensures Unambiguous(RowsAt(f, i)) <==> ConditionApart(f, i)
  {
    hide RowsAt, Decides, Lookalike, Unambiguous, Rows, VariablesOf;
    var c := Compiled(VariablesOf(f), RowsAt(f, i));
    UnambiguousRows(c);
    forall m ensures m in Rows(c) <==> Decides(f, i, m) {
      ConditionRows(f, i, m);
    }
  }

  /** Nothing is chosen between if and only if that is so. */
  lemma {:induction false} ClearExactly(f: IsolateFile)
    requires AcceptedTree(f)
    ensures Clear(f) <==> EachApart(f)
  {
    hide RowsAt, ConditionApart, Unambiguous;
    forall i | 0 <= i < |f.conditions| ensures Unambiguous(RowsAt(f, i)) <==> ConditionApart(f, i) {
      ConditionClear(f, i);
    }
    forall i | 0 <= i < |f.includes| ensures Clear(f.includes[i]) <==> EachApart(f.includes[i]) {
      ClearExactly(f.includes[i]);
    }
  }

  // ----- Literals that are not spelled alike -----

  function TreeValues(f: IsolateFile, x: string): set<Value>
    requires AcceptedTree(f)
  {
    ValuesOf(KeptValues(f.conditions), x) + set i, v | 0 <= i < |f.includes| && v in TreeValues(f.includes[i], x) :: v
  }

  lemma {:induction false} DecidedValues(f: IsolateFile, m: Partial)
    requires AcceptedTree(f) && Decided(f, m)
    ensures forall x | x in m :: m[x].IsBound() && m[x] in TreeValues(f, x)
  {
    hide KeptValues, ValuesOf, Meaning;
    forall x { KeptBound(f.conditions, x); }
    if i :| 0 <= i < |f.includes| && Decided(f.includes[i], m) {
      DecidedValues(f.includes[i], m);
    }
  }

  /** A check on the literals of a file and its includes that guarantees its table can be stored. */
  lemma NoLookalikeCompiles(f: IsolateFile)
    requires AcceptedTree(f)
    requires forall x :: NoLookalike(TreeValues(f, x))
    ensures Unambiguous(Compile(f).table)
  {
    hide Compile, Decided, TreeValues, Unambiguous;
    StorableExactly(f);
    forall m, n | Decided(f, m) && Decided(f, n) && Lookalike(m, n) ensures m == n {
      DecidedValues(f, m);
      DecidedValues(f, n);
      forall x | x in m ensures m[x] == n[x] {
        SpellingInjective(TreeValues(f, x), m[x], n[x]);
      }
    }
  }
}
