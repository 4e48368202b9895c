/** Inputs on which the compiler does not do what its documentation promises. */
module IsolateLimits {
  import opened Ints
  import opened Text
  import opened IsolateValues
  import opened IsolateCondition
  import opened IsolateOdometer
  import opened IsolateMatch
  import opened IsolateTable
  import opened IsolateMerge
  import opened IsolateFiles
  import opened IsolateChoice
  import opened IsolateApart
  import opened IsolateLoad

  function Eq(x: string, literal: Expr): Expr {
    Binary(Eql, Ident(x), literal)
  }

  function Only(e: Expr, file: string): Condition {
    Condition(e, Variables({file}, [], None))
  }

  function File(conditions: seq<Condition>): IsolateFile {
    IsolateFile(Variables({}, [], None), conditions, [])
  }

  lemma EqMeans(x: string, i: nat)
    requires i <= MAX_INT64
    ensures EqualityOf(Ident(x), IntLit(Dec(i))) == Some((x, IntValue(i)))
  {
    ParseIntDec(i, MIN_INT64, MAX_INT64);
  }

  lemma TwoConditions(c: Condition, d: Condition)
    requires AcceptedConditions([c, d])
    ensures CollectValues(c.expr, map[]).Some?
    ensures CollectValues(d.expr, CollectValues(c.expr, map[]).value) == Some(KeptValues([c, d]))
    ensures AllEqualities([c, d]) == Equalities(c.expr) + Equalities(d.expr)
  {
    CollectValuesCorrect(c.expr, map[], {});
    assert [c, d][..1] == [c] && [c][..0] == [];
    CollectValuesCorrect(d.expr, KeptValues([c]), AllEqualities([c]));
  }

  // ----- An integer and a string spelled like it -----

  /** Condition i compares x with the number n, or with the text of that number. */
  predicate ComparesNumber(f: IsolateFile, i: nat, x: string, n: nat) {
    i < |f.conditions| && n <= MAX_INT64 && f.conditions[i].expr == Eq(x, IntLit(Dec(n)))
  }

  predicate ComparesText(f: IsolateFile, i: nat, x: string, n: nat) {
    i < |f.conditions| && '\0' !in Dec(n) && f.conditions[i].expr == Eq(x, StringLit(Dec(n)))
  }

  /** x has the value v and the other variables have none. */
  function OneBound(vars: seq<string>, x: string, v: Value): (name: Name)
    ensures |name| == |vars|
  {
    seq(|vars|, i requires 0 <= i < |vars| => if vars[i] == x then v else Unbound)
  }

  /** With `x==1` and `x=="1"` as two conditions of a file, whatever else is in it, loading it panics. */
  lemma LookalikePanics(f: IsolateFile, i: nat, j: nat, x: string, n: nat, r: Outcome, ch: Choice)
    requires AcceptedTree(f) && ComparesNumber(f, i, x, n) && ComparesText(f, j, x, n)
    requires {IntValue(n), StrValue(Dec(n))} <= ValuesOf(KeptValues(f.conditions), x)
    requires Comes(r, f, ch)
    ensures r.Panicked?
  {
    hide KeptValues, CompileWith, IncludesWith, Dec, VariablesOf, Unambiguous, ChoosesRows, StageWith, NameKey;
    var vars := VariablesOf(f);
    var a, b := OneBound(vars, x, IntValue(n)), OneBound(vars, x, StrValue(Dec(n)));
    EqMeans(x, n);
    RowStays(f, ch.picks, i, x, IntValue(n));
    RowStays(f, ch.picks, j, x, StrValue(Dec(n)));
    RowsAlike(vars, x, n);
    TwoAlike(StageWith(f, ch.picks), a, b);
    if Unambiguous(CompileWith(f, ch).table) {
      WithFrom(f, ch, |f.includes|);
      WithOwn(f, ch);
    }
  }

  lemma TwoAlike(t: Table, a: Name, b: Name)
    requires a in t && b in t && a != b && NameKey(a) == NameKey(b)
    ensures !Unambiguous(t)
  {
    hide NameKey;
  }

  lemma RowsAlike(vars: seq<string>, x: string, n: nat)
    requires x in vars && '\0' !in Dec(n)
    ensures var a, b := OneBound(vars, x, IntValue(n)), OneBound(vars, x, StrValue(Dec(n)));
      a != b && NameKey(a) == NameKey(b)
  {
    hide NameKey, Dec;
    var a, b := OneBound(vars, x, IntValue(n)), OneBound(vars, x, StrValue(Dec(n)));
    var k :| 0 <= k < |vars| && vars[k] == x;
    assert a[k] != b[k];
    NameKeyAlike(a, b);
  }

  /** Condition i is an equality of x with the literal v: whatever is chosen, the row that binds only x
      stays, since no other row of the condition is spelled like it. */
  lemma RowStays(f: IsolateFile, picks: seq<Table>, i: nat, x: string, v: Value)
    requires AcceptedFile(f) && |picks| == |f.conditions| && ChoosesRows(picks, f) && i < |f.conditions|
    requires f.conditions[i].expr.Binary? && f.conditions[i].expr.op.Eql?
    requires EqualityOf(f.conditions[i].expr.l, f.conditions[i].expr.r) == Some((x, v))
    requires v.IsBound() && v in ValuesOf(KeptValues(f.conditions), x)
    ensures x in VariablesOf(f) && OneBound(VariablesOf(f), x, v) in StageWith(f, picks)
  {
    hide KeptValues, VariablesOf, NameKey, EqualityOf, ChoosesRows, StageWith;
    var vars, name := VariablesOf(f), OneBound(VariablesOf(f), x, v);
    OneBoundRow(f, i, x, v);
    var kept := KeptRow(picks, f, i, name);
    OnlyRow(f, i, x, v, kept);
    PickStays(f, picks, i, name);
  }

  lemma OneBoundRow(f: IsolateFile, i: nat, x: string, v: Value)
    requires AcceptedFile(f) && i < |f.conditions|
    requires f.conditions[i].expr.Binary? && f.conditions[i].expr.op.Eql?
    requires EqualityOf(f.conditions[i].expr.l, f.conditions[i].expr.r) == Some((x, v))
    requires v.IsBound() && v in ValuesOf(KeptValues(f.conditions), x)
    ensures x in VariablesOf(f) && OneBound(VariablesOf(f), x, v) in RowsAt(f, i)
  {
    hide KeptValues, VariablesOf, EqualityOf;
    var vars, name := VariablesOf(f), OneBound(VariablesOf(f), x, v);
    assert BindingOf(vars, name)(x) == v;
    CompareZero(v, v);
    assert Over(name, KeptValues(f.conditions), vars);
  }

  lemma KeptRow(picks: seq<Table>, f: IsolateFile, i: nat, name: Name) returns (kept: Name)
    requires AcceptedFile(f) && i < |picks| && ChoosesRows(picks, f) && name in RowsAt(f, i)
    ensures kept in picks[i] && kept in RowsAt(f, i) && NameKey(kept) == NameKey(name)
  {
    hide NameKey, RowsAt;
    assert Spelled(picks[i], NameKey(name));
    kept :| kept in picks[i] && NameKey(kept) == NameKey(name);
  }

  lemma OnlyRow(f: IsolateFile, i: nat, x: string, v: Value, kept: Name)
    requires AcceptedFile(f) && i < |f.conditions| && x in VariablesOf(f) && v.IsBound()
    requires f.conditions[i].expr.Binary? && f.conditions[i].expr.op.Eql?
    requires EqualityOf(f.conditions[i].expr.l, f.conditions[i].expr.r) == Some((x, v))
    requires kept in RowsAt(f, i) && NameKey(kept) == NameKey(OneBound(VariablesOf(f), x, v))
    ensures kept == OneBound(VariablesOf(f), x, v)
  {
    hide KeptValues, VariablesOf, EqualityOf, NameKey;
    var vars, name := VariablesOf(f), OneBound(VariablesOf(f), x, v);
    NameKeyAlike(kept, name);
    RowMeets(f, i, x, v, kept);
    forall k | 0 <= k < |vars| ensures kept[k] == name[k] {
      if vars[k] == x {
        IndexAt(vars, k);
      }
    }
  }

  lemma RowMeets(f: IsolateFile, i: nat, x: string, v: Value, row: Name)
    requires AcceptedFile(f) && i < |f.conditions| && x in VariablesOf(f) && row in RowsAt(f, i)
    requires f.conditions[i].expr.Binary? && f.conditions[i].expr.op.Eql?
    requires EqualityOf(f.conditions[i].expr.l, f.conditions[i].expr.r) == Some((x, v))
    ensures |row| == |VariablesOf(f)| && row[Index(VariablesOf(f), x)] == v
  {
    hide KeptValues, VariablesOf, EqualityOf;
    CompareZero(BindingOf(VariablesOf(f), row)(x), v);
  }

  lemma PickStays(f: IsolateFile, picks: seq<Table>, i: nat, name: Name)
    requires AcceptedFile(f) && i < |picks| && ChoosesRows(picks, f) && name in picks[i]
    ensures name in StageWith(f, picks)
  {
    hide RowsAt, Picks, VariablesOf;
    StageGrows(f, picks, i + 1);
    assert picks[..i + 1][i] == picks[i];
  }

  /** Such a file: both literals are kept, each in its own slot. */
  lemma LookalikeFile(x: string, n: nat, one: string, two: string)
    requires n <= MAX_INT64
    ensures var f := File([Only(Eq(x, IntLit(Dec(n))), one), Only(TextEq(x, n), two)]);
      && AcceptedTree(f) && ComparesNumber(f, 0, x, n) && ComparesText(f, 1, x, n)
      && {IntValue(n), StrValue(Dec(n))} <= ValuesOf(KeptValues(f.conditions), x)
  {
    var c, d := Only(Eq(x, IntLit(Dec(n))), one), Only(TextEq(x, n), two);
    EqMeans(x, n);
    TwoConditions(c, d);
    BothSlots(x, n, KeptValues([c, d]));
  }

  function TextEq(x: string, n: nat): Expr {
    DecNatDigits(n);
    Eq(x, StringLit(Dec(n)))
  }

  lemma BothSlots(x: string, n: nat, sets: ValueSets)
    requires n <= MAX_INT64 && '\0' !in Dec(n)
    requires var number, text := IntValue(n), StrValue(Dec(n));
      sets == map[x := map[ValueKey(number) := number][ValueKey(text) := text]]
    ensures {IntValue(n), StrValue(Dec(n))} <= ValuesOf(sets, x)
  {
    var number, text := IntValue(n), StrValue(Dec(n));
    assert ValueKey(text)[1..] == Dec(n);
    var slots := sets[x];
    assert slots[ValueKey(number)] == number && slots[ValueKey(text)] == text;
  }

  // ----- The same in one condition -----

  /** `x==1 or x=="1"`. */
  function Either(x: string, n: nat): Expr {
    Binary(Or, Eq(x, IntLit(Dec(n))), TextEq(x, n))
  }

  function EitherFile(x: string, n: nat, one: string): IsolateFile {
    File([Only(Either(x, n), one)])
  }

  lemma EitherKept(x: string, n: nat, one: string)
    requires n <= MAX_INT64
    ensures var f := EitherFile(x, n, one);
      && AcceptedTree(f) && KeptValues(f.conditions).Keys == {x}
      && ValuesOf(KeptValues(f.conditions), x) == {IntValue(n), StrValue(Dec(n))}
  {
    var f := EitherFile(x, n, one);
    EqMeans(x, n);
    assert Accepted(f.conditions[0].expr.l) && Accepted(f.conditions[0].expr.r);
    assert f.conditions == [Only(Either(x, n), one)];
    OneCondition(f.conditions[0]);
    DecNatDigits(n);
    BothSlots(x, n, KeptValues(f.conditions));
  }

  lemma EitherMeans(x: string, n: nat, b: Binding)
    requires n <= MAX_INT64 && (b(x).Unbound? || b(x) == IntValue(n) || b(x) == StrValue(Dec(n)))
    ensures Accepted(Either(x, n)) && (Meaning(Either(x, n), b).True? <==> b(x).IsBound())
  {
    EqMeans(x, n);
    hide Dec;
    assert Accepted(Either(x, n).l) && Accepted(Either(x, n).r);
    CompareZero(b(x), IntValue(n));
    CompareZero(b(x), StrValue(Dec(n)));
  }

  /** The condition has two rows. */
  lemma EitherRows(x: string, n: nat, one: string, name: Name)
    requires n <= MAX_INT64
    ensures var f := EitherFile(x, n, one);
      AcceptedFile(f) && VariablesOf(f) == [x] &&
      (name in RowsAt(f, 0) <==> name == [IntValue(n)] || name == [StrValue(Dec(n))])
  {
    hide KeptValues, VariablesOf, Meaning, Accepted, Dec, ValuesOf;
    var f := EitherFile(x, n, one);
    EitherKept(x, n, one);
    SortedUnique(VariablesOf(f), [x]);
    if |name| == 1 && (name[0].Unbound? || name[0] == IntValue(n) || name[0] == StrValue(Dec(n))) {
      EitherMeans(x, n, BindingOf([x], name));
      assert BindingOf([x], name)(x) == name[0];
    }
  }

  /** With both in one condition the file loads, whatever is chosen, but under exactly one of the two
      values its file is missing, though the condition holds under both. */
  lemma SilentLoss(x: string, n: nat, one: string, ch: Choice)
    requires n <= MAX_INT64
    ensures var f := EitherFile(x, n, one);
      && AcceptedTree(f) && SmallTree(f)
      && one in DirectFiles(f, y => IntValue(n)) && one in DirectFiles(f, y => StrValue(Dec(n)))
      && (Chooses(ch, f) ==>
            var c := CompileWith(f, ch);
            && c.vars == [x] && Unambiguous(c.table)
            && (one in Query(c.table, 1, [IntValue(n)]).Files() <==>
                one !in Query(c.table, 1, [StrValue(Dec(n))]).Files()))
  {
    hide KeptValues, VariablesOf, Chooses, CompileWith, Query, Dec, Meaning, Unambiguous;
    var f := EitherFile(x, n, one);
    EitherKept(x, n, one);
    EitherSmall(f, x);
    EitherApplies(x, n, one, IntValue(n));
    EitherApplies(x, n, one, StrValue(Dec(n)));
    if Chooses(ch, f) {
      EitherTable(x, n, one, ch);
    }
  }

  lemma EitherSmall(f: IsolateFile, x: string)
    requires AcceptedTree(f) && f.includes == [] && KeptValues(f.conditions).Keys == {x}
    ensures SmallTree(f)
  {
    hide KeptValues;
    assert |KeptValues(f.conditions)| == |KeptValues(f.conditions).Keys| == 1;
  }

  lemma EitherApplies(x: string, n: nat, one: string, v: Value)
    requires n <= MAX_INT64 && (v == IntValue(n) || v == StrValue(Dec(n)))
    ensures AcceptedTree(EitherFile(x, n, one)) && one in DirectFiles(EitherFile(x, n, one), y => v)
  {
    hide KeptValues, Dec, Meaning, ValuesOf;
    var f, b: Binding := EitherFile(x, n, one), y => v;
    EitherKept(x, n, one);
    EitherMeans(x, n, Known(KeptValues(f.conditions), b));
    assert Applies(f.conditions[0], KeptValues(f.conditions), b);
    assert one in OwnFiles(f, b);
  }

  lemma EitherTable(x: string, n: nat, one: string, ch: Choice)
    requires n <= MAX_INT64 && AcceptedTree(EitherFile(x, n, one)) && Chooses(ch, EitherFile(x, n, one))
    ensures var c := CompileWith(EitherFile(x, n, one), ch);
      && c.vars == [x] && Unambiguous(c.table)
      && (one in Query(c.table, 1, [IntValue(n)]).Files() <==>
          one !in Query(c.table, 1, [StrValue(Dec(n))]).Files())
  {
    hide VariablesOf, CompileWith, IncludesWith, Query, Dec, NameKey, Merge, RowsAt, KeptValues;
    var f, number, text := EitherFile(x, n, one), [IntValue(n)], [StrValue(Dec(n))];
    EitherRows(x, n, one, number);
    WithStart(f, ch);
    WithOwn(f, ch);
    var pick := ch.picks[0];
    forall name ensures name in RowsAt(f, 0) <==> name == number || name == text {
      EitherRows(x, n, one, name);
    }
    assert ch.picks == [pick] && [pick][..0] == [];
    EitherPick(pick, RowsAt(f, 0), n);
    FirstRowSettings(f);
    var c := CompileWith(f, ch);
    assert c.table == Merge(map[NothingBound(1) := NewSettings(f.variables)], pick);
    EitherQuery(c.table, pick, n, one);
  }

  lemma FirstRowSettings(f: IsolateFile)
    requires AcceptedFile(f) && f.conditions != []
    ensures forall name | name in RowsAt(f, 0) :: RowsAt(f, 0)[name] == NewSettings(f.conditions[0].variables)
  {
    hide KeptValues, VariablesOf;
  }

  lemma EitherPick(pick: Table, rows: Table, n: nat)
    requires Picks(pick, rows) && '\0' !in Dec(n)
    requires forall name :: name in rows <==> name == [IntValue(n)] || name == [StrValue(Dec(n))]
    ensures forall name | name in pick :: name == [IntValue(n)] || name == [StrValue(Dec(n))]
    ensures [IntValue(n)] in pick <==> [StrValue(Dec(n))] !in pick
  {
    hide NameKey, Dec;
    var number, text := [IntValue(n)], [StrValue(Dec(n))];
    NameKeyAlike(number, text);
    assert number in rows && Spelled(pick, NameKey(number));
    assert number[0] != text[0];
  }

  lemma EitherQuery(t: Table, pick: Table, n: nat, one: string)
    requires '\0' !in Dec(n)
    requires t == Merge(map[NothingBound(1) := Settings({}, [], NOT_SET)], pick)
    requires forall name | name in pick :: name == [IntValue(n)] || name == [StrValue(Dec(n))]
    requires forall name | name in pick :: pick[name] == Settings({one}, [], NOT_SET)
    requires [IntValue(n)] in pick <==> [StrValue(Dec(n))] !in pick
    ensures Wide(t, 1) && Unambiguous(t)
    ensures one in Query(t, 1, [IntValue(n)]).Files() <==> [IntValue(n)] in pick
    ensures one in Query(t, 1, [StrValue(Dec(n))]).Files() <==> [StrValue(Dec(n))] in pick
  {
    hide NameKey, Dec, Query;
    var nothing, number, text := NothingBound(1), [IntValue(n)], [StrValue(Dec(n))];
    assert nothing == [Unbound];
    NameKeyAlike(nothing, number);
    NameKeyAlike(nothing, text);
    assert nothing[0].Unbound? && number[0].IsBound() && text[0].IsBound();
    QueryFiles(t, number, one);
    QueryFiles(t, text, one);
    assert Selects(number, number) && Selects(text, text) && !Selects(number, text) && !Selects(text, number);
  }

  /** And the value that loses the file can be the one that a command line gives. */
  lemma GivenValueLost(x: string, n: nat, one: string) returns (ch: Choice)
    requires n <= MAX_INT64
    ensures AcceptedTree(EitherFile(x, n, one)) && Chooses(ch, EitherFile(x, n, one))
    ensures var c := CompileWith(EitherFile(x, n, one), ch);
      c.vars == [x] && one !in Query(c.table, 1, [IntValue(n)]).Files()
  {
    hide VariablesOf, CompileWith, Dec, NameKey, RowsAt, KeptValues, Query, AcceptedTree, IncludesWith, Merge;
    var f, text := EitherFile(x, n, one), [StrValue(Dec(n))];
    ch := TextChoice(x, n, one);
    EitherTable(x, n, one, ch);
    WithStart(f, ch);
    WithOwn(f, ch);
    EitherRows(x, n, one, text);
    FirstRowSettings(f);
    assert ch.picks == [ch.picks[0]] && [ch.picks[0]][..0] == [];
    EitherQuery(CompileWith(f, ch).table, ch.picks[0], n, one);
  }

  lemma TextChoice(x: string, n: nat, one: string) returns (ch: Choice)
    requires n <= MAX_INT64
    ensures '\0' !in Dec(n)
    ensures var f := EitherFile(x, n, one);
      && AcceptedTree(f) && Chooses(ch, f)
      && ch.picks[0].Keys == {[StrValue(Dec(n))]}
  {
    hide VariablesOf, Dec, NameKey, RowsAt, KeptValues;
    var f, number, text := EitherFile(x, n, one), [IntValue(n)], [StrValue(Dec(n))];
    DecNatDigits(n);
    EitherKept(x, n, one);
    EitherRows(x, n, one, text);
    var rows := RowsAt(f, 0);
    forall name ensures name in rows <==> name == number || name == text {
      EitherRows(x, n, one, name);
    }
    NameKeyAlike(number, text);
    var pick := map[text := rows[text]];
    assert Spelled(pick, NameKey(text));
    assert Picks(pick, rows);
    ch := Choice([pick], []);
  }

  // ----- Files whose rows can be told apart -----

  /** A file loads as its full table if and only if its conditions are well formed, it has at most 60
      variables, and of what its own conditions and those of its includes are decided true by, no two are
      spelled alike. When only the last one fails, and not within one condition, it panics. */
  lemma LoadsExactly(f: IsolateFile, r: Outcome, ch: Choice)
    requires Comes(r, f, ch)
    ensures (r.Loaded? && AcceptedTree(f) && IsTable(r.configs, Compile(f))) <==>
            (AcceptedTree(f) && SmallTree(f) && Apart(f))
    ensures AcceptedTree(f) && EachApart(f) ==> (r.Panicked? <==> !(SmallTree(f) && Apart(f)))
  {
    hide Chooses, Compile, CompileWith, Apart, EachApart, Clear, Unambiguous;
    ExactOutcome(r, f, ch);
    if AcceptedTree(f) {
      StorableExactly(f);
      ClearExactly(f);
    }
  }

  /** A check on the literals of a file and its includes that guarantees it loads as its full table. */
  lemma NoLookalikeLoads(f: IsolateFile, r: Outcome, ch: Choice)
    requires AcceptedTree(f) && SmallTree(f) && forall x :: NoLookalike(TreeValues(f, x))
    requires Comes(r, f, ch)
    ensures r.Loaded? && IsTable(r.configs, Compile(f))
  {
    hide Chooses, Compile, CompileWith, TreeValues, Unambiguous;
    NoLookalikeCompiles(f);
    ExactOutcome(r, f, ch);
  }

  // ----- Conditions that hold but do not apply -----

  /** Integers beyond the last Unicode character share one slot: a condition on the earlier one
      holds but does not apply, so its files are lost. */
  lemma LargeIntegersLost(x: string, i: nat, j: nat, v: Variables, w: Variables)
    requires 0x11_0000 <= i <= MAX_INT64 && 0x11_0000 <= j <= MAX_INT64 && i != j
    requires Verified(v) && Verified(w)
    ensures var c, d := Condition(Eq(x, IntLit(Dec(i))), v), Condition(Eq(x, IntLit(Dec(j))), w);
      var b: Binding := y => IntValue(i);
      Accepted(c.expr) && AcceptedConditions([c, d]) && Holds(c.expr, b) && !Applies(c, KeptValues([c, d]), b)
  {
    EqMeans(x, i);
    EqMeans(x, j);
    hide Dec;
    var c, d := Condition(Eq(x, IntLit(Dec(i))), v), Condition(Eq(x, IntLit(Dec(j))), w);
    TwoConditions(c, d);
    assert KeptValues([c, d])[x] == map[RuneString(i) := IntValue(j)];
    assert IntValue(i) !in ValuesOf(KeptValues([c, d]), x);
  }

  /** `x==1 or y==2` under x=5, y=2: it holds, but no condition mentions 5, so it does not apply. */
  lemma UnmentionedValueLost(x: string, y: string, i: nat, j: nat, other: int, v: Variables)
    requires x != y && i <= MAX_INT64 && j <= MAX_INT64 && other != i && Verified(v)
    ensures var c := Condition(Binary(Or, Eq(x, IntLit(Dec(i))), Eq(y, IntLit(Dec(j)))), v);
      var b: Binding := name => if name == x then IntValue(other) else IntValue(j);
      Accepted(c.expr) && AcceptedConditions([c]) && Holds(c.expr, b) && !Applies(c, KeptValues([c]), b)
  {
    EqMeans(x, i);
    EqMeans(y, j);
    hide Dec;
    var c := Condition(Binary(Or, Eq(x, IntLit(Dec(i))), Eq(y, IntLit(Dec(j)))), v);
    var b: Binding := name => if name == x then IntValue(other) else IntValue(j);
    assert Accepted(c.expr.l) && Accepted(c.expr.r);
    FirstKept(c, x, y, i, j, other);
    var known := Known(KeptValues([c]), b);
    assert known(x) == Unbound;
    hide KeptValues, ValuesOf, Known, CollectValues, EqualityOf;
    assert Meaning(c.expr.l, known).Undecided?;
    assert Holds(c.expr.r, b);
  }

  lemma FirstKept(c: Condition, x: string, y: string, i: nat, j: nat, other: int)
    requires x != y && AcceptedConditions([c]) && other != i
    requires c.expr == Binary(Or, Eq(x, IntLit(Dec(i))), Eq(y, IntLit(Dec(j))))
    requires EqualityOf(Ident(x), IntLit(Dec(i))) == Some((x, IntValue(i)))
    requires EqualityOf(Ident(y), IntLit(Dec(j))) == Some((y, IntValue(j)))
    ensures IntValue(other) !in ValuesOf(KeptValues([c]), x)
  {
    hide Dec, EqualityOf;
    OneCondition(c);
    assert KeptValues([c])[x] == map[RuneString(i) := IntValue(i)];
  }

  lemma OneCondition(c: Condition)
    requires AcceptedConditions([c])
    ensures CollectValues(c.expr, map[]) == Some(KeptValues([c]))
  {
    CollectValuesCorrect(c.expr, map[], {});
    assert [c][..0] == [];
  }

  /** A condition that compares with a quoted number is never met: such a value on the command line
      is taken for an integer. All other texts can be met. */
  lemma QuotedNumberNeverHolds(x: string, s: CString)
    ensures (exists given :: Holds(Eq(x, StringLit(s)), Given(given))) <==> Atoi(s).None?
  {
    if Atoi(s).None? {
      CompareZero(StrValue(s), StrValue(s));
      assert Holds(Eq(x, StringLit(s)), Given(map[x := s]));
    } else {
      forall given ensures !Holds(Eq(x, StringLit(s)), Given(given)) {
        CompareZero(Given(given)(x), StrValue(s));
      }
    }
  }
}
