/** Every table a file can load as. The rows of one condition are kept by the spelling of their keys,
    so of rows that are spelled alike only one is left, whichever was stored last
    (client/isolate/format.go:95-152, 842-855). */
module IsolateChoice {
  import opened Text
  import opened IsolateValues
  import opened IsolateCondition
  import opened IsolateTable
  import opened IsolateMerge
  import opened IsolateFiles
  import opened IsolateMeaning

  /** s has one row of t for every key that the rows of t fall on. */
  ghost predicate Picks(s: Table, t: Table) {
    && (forall name | name in s :: name in t && s[name] == t[name])
    && Unambiguous(s)
    && (forall name | name in t :: Spelled(s, NameKey(name)))
  }

  ghost predicate Spelled(t: Table, key: string) {
    exists name | name in t :: NameKey(name) == key
  }

  lemma PicksAll(s: Table, t: Table)
    requires Picks(s, t) && Unambiguous(t)
    ensures s == t
  {
    hide NameKey;
    forall name | name in t ensures name in s {
      var other :| other in s && NameKey(other) == NameKey(name);
    }
  }

  ghost function SomePick(t: Table): (s: Table)
    ensures Picks(s, t)
    decreases |t|
  {
    if t == map[] then map[]
    else
      var name :| name in t;
      var rest := SomePick(t - {name});
      AddPick(rest, t, name);
      if Spelled(rest, NameKey(name)) then rest else rest[name := t[name]]
  }

  lemma AddPick(rest: Table, t: Table, name: Name)
    requires name in t && Picks(rest, t - {name})
    ensures Picks(if Spelled(rest, NameKey(name)) then rest else rest[name := t[name]], t)
  {
    hide NameKey;
    var s := if Spelled(rest, NameKey(name)) then rest else rest[name := t[name]];
    forall other | other in t ensures Spelled(s, NameKey(other)) {
      if other != name {
        assert other in t - {name};
        var kept :| kept in rest && NameKey(kept) == NameKey(other);
        assert kept in s;
      } else if !Spelled(rest, NameKey(name)) {
        assert name in s;
      }
    }
  }

  // ----- One file -----

  /** The full table of condition i. */
  ghost function RowsAt(f: IsolateFile, i: nat): (t: Table)
    requires AcceptedFile(f) && i < |f.conditions|
    ensures Wide(t, |VariablesOf(f)|)
  {
    ConditionTable(f.conditions[i], KeptValues(f.conditions), VariablesOf(f))
  }

  /** One choice of rows for each of the first conditions. */
  ghost predicate ChoosesRows(picks: seq<Table>, f: IsolateFile)
    requires AcceptedFile(f)
  {
    |picks| <= |f.conditions| && forall i | 0 <= i < |picks| :: Picks(picks[i], RowsAt(f, i))
  }

  /** The global block and the chosen rows. */
  ghost function StageWith(f: IsolateFile, picks: seq<Table>): (t: Table)
    requires AcceptedFile(f) && ChoosesRows(picks, f)
    ensures Wide(t, |VariablesOf(f)|)
  {
    hide VariablesOf, KeptValues, ConditionTable;
    if picks == [] then map[NothingBound(|VariablesOf(f)|) := NewSettings(f.variables)]
    else Merge(StageWith(f, picks[..|picks| - 1]), picks[|picks| - 1])
  }

  lemma StageSnoc(f: IsolateFile, picks: seq<Table>, pick: Table)
    requires AcceptedFile(f) && ChoosesRows(picks, f) && |picks| < |f.conditions| && Picks(pick, RowsAt(f, |picks|))
    ensures ChoosesRows(picks + [pick], f)
    ensures StageWith(f, picks + [pick]) == Merge(StageWith(f, picks), pick)
  {
    hide RowsAt, Picks, VariablesOf;
    assert (picks + [pick])[..|picks|] == picks;
  }

  lemma {:induction false} StageGrows(f: IsolateFile, picks: seq<Table>, i: nat)
    requires AcceptedFile(f) && ChoosesRows(picks, f) && i <= |picks|
    ensures ChoosesRows(picks[..i], f) && StageWith(f, picks[..i]).Keys <= StageWith(f, picks).Keys
  {
    hide RowsAt, Picks, VariablesOf;
    if i == |picks| {
      assert picks[..i] == picks;
    } else {
      assert picks[..|picks| - 1][..i] == picks[..i];
      StageGrows(f, picks[..|picks| - 1], i);
    }
  }

  ghost function MorePicks(f: IsolateFile, picks: seq<Table>): (all: seq<Table>)
    requires AcceptedFile(f) && ChoosesRows(picks, f)
    ensures picks <= all && |all| == |f.conditions| && ChoosesRows(all, f)
    decreases |f.conditions| - |picks|
  {
    if |picks| == |f.conditions| then picks
    else
      var pick := SomePick(RowsAt(f, |picks|));
      StageSnoc(f, picks, pick);
      MorePicks(f, picks + [pick])
  }

  // ----- A file and its includes -----

  datatype Choice = Choice(picks: seq<Table>, parts: seq<Choice>)

  ghost predicate Chooses(ch: Choice, f: IsolateFile)
    requires AcceptedTree(f)
  {
    && |ch.picks| == |f.conditions| && ChoosesRows(ch.picks, f)
    && |ch.parts| == |f.includes|
    && forall i | 0 <= i < |f.includes| :: Chooses(ch.parts[i], f.includes[i])
  }

  ghost function SomeChoice(f: IsolateFile): (ch: Choice)
    requires AcceptedTree(f)
    ensures Chooses(ch, f)
  {
    Choice(MorePicks(f, []), seq(|f.includes|, i requires 0 <= i < |f.includes| => SomeChoice(f.includes[i])))
  }

  ghost function CompileWith(f: IsolateFile, ch: Choice): (c: Compiled)
    requires AcceptedTree(f) && Chooses(ch, f)
    ensures c.Valid()
    decreases f, |f.includes| + 1
  {
    IncludesWith(f, ch, 0)
  }

  /** The own table merged with the includes from position i on. */
  ghost function IncludesWith(f: IsolateFile, ch: Choice, i: nat): (c: Compiled)
    requires AcceptedTree(f) && Chooses(ch, f) && i <= |f.includes|
    ensures c.Valid()
    decreases f, |f.includes| - i
  {
    if i == |f.includes| then Compiled(VariablesOf(f), StageWith(f, ch.picks))
    else
      var included := CompileWith(f.includes[i], ch.parts[i]);
      MergeCompiled(IncludesWith(f, ch, i + 1),
                    Compiled(included.vars, Strip(included.table, HasCommand(StageWith(f, ch.picks)))))
  }

  ghost function StrippedWith(f: IsolateFile, ch: Choice, i: nat): (c: Compiled)
    requires AcceptedTree(f) && Chooses(ch, f) && i < |f.includes|
    ensures c.Valid()
  {
    var included := CompileWith(f.includes[i], ch.parts[i]);
    Compiled(included.vars, Strip(included.table, HasCommand(StageWith(f, ch.picks))))
  }

  lemma WithNext(f: IsolateFile, ch: Choice, i: nat)
    requires AcceptedTree(f) && Chooses(ch, f) && i < |f.includes|
    ensures IncludesWith(f, ch, i) == MergeCompiled(IncludesWith(f, ch, i + 1), StrippedWith(f, ch, i))
  {
    hide StageWith, HasCommand, MergeCompiled, ChoosesRows;
  }

  lemma WithOwn(f: IsolateFile, ch: Choice)
    requires AcceptedTree(f) && Chooses(ch, f)
    ensures IncludesWith(f, ch, |f.includes|) == Compiled(VariablesOf(f), StageWith(f, ch.picks))
  {
    hide StageWith, VariablesOf, ChoosesRows;
  }

  lemma WithStart(f: IsolateFile, ch: Choice)
    requires AcceptedTree(f) && Chooses(ch, f)
    ensures CompileWith(f, ch) == IncludesWith(f, ch, 0)
  {
    hide IncludesWith;
  }

  /** The tail of the includes does not depend on the choices before it. */
  lemma {:induction false} IncludesSame(f: IsolateFile, ch: Choice, ch': Choice, i: nat)
    requires AcceptedTree(f) && Chooses(ch, f) && Chooses(ch', f) && i <= |f.includes|
    requires ch.picks == ch'.picks && forall j | i <= j < |f.includes| :: ch.parts[j] == ch'.parts[j]
    ensures IncludesWith(f, ch, i) == IncludesWith(f, ch', i)
    decreases |f.includes| - i
  {
    hide CompileWith, StageWith, HasCommand, MergeCompiled, ChoosesRows, VariablesOf;
    if i < |f.includes| {
      IncludesSame(f, ch, ch', i + 1);
    }
  }

  // ----- Storable tables -----

  lemma UnambiguousSubset(small: Table, large: Table)
    requires small.Keys <= large.Keys && Unambiguous(large)
    ensures Unambiguous(small)
  {
    hide NameKey;
    assert forall key | key in small :: key in large;
  }

  lemma MergeKeys(a: Table, b: Table)
    ensures Merge(a, b).Keys == a.Keys + b.Keys
  {
  }

  lemma WidenUnambiguous(t: Table, from: seq<string>, to: seq<string>)
    requires Wide(t, |from|) && Sorted(from) && Sorted(to) && forall x | x in from :: x in to
    requires Unambiguous(Widen(t, from, to))
    ensures Unambiguous(t)
  {
    hide NameKey;
    forall a: Name, b: Name | a in t && b in t && NameKey(a) == NameKey(b) ensures a == b {
      NameKeyAlike(a, b);
      NameKeyAlike(Project(a, from, to), Project(b, from, to));
      WidenAt(t, from, to, a);
      WidenAt(t, from, to, b);
      ProjectBack(a, from, to);
      ProjectBack(b, from, to);
    }
  }

  lemma UnambiguousParts(a: Compiled, c: Compiled)
    requires a.Valid() && c.Valid() && Unambiguous(MergeCompiled(a, c).table)
    ensures Unambiguous(a.table) && Unambiguous(c.table)
  {
    var merged := MergeCompiled(a, c);
    assert Widen(a.table, a.vars, merged.vars).Keys <= merged.table.Keys;
    assert Widen(c.table, c.vars, merged.vars).Keys <= merged.table.Keys;
    hide MergeCompiled, Widen, Unambiguous;
    UnambiguousSubset(Widen(a.table, a.vars, merged.vars), merged.table);
    UnambiguousSubset(Widen(c.table, c.vars, merged.vars), merged.table);
    WidenUnambiguous(a.table, a.vars, merged.vars);
    WidenUnambiguous(c.table, c.vars, merged.vars);
  }

  lemma WithStep(f: IsolateFile, ch: Choice, i: nat)
    requires AcceptedTree(f) && Chooses(ch, f) && i < |f.includes| && Unambiguous(IncludesWith(f, ch, i).table)
    ensures Unambiguous(IncludesWith(f, ch, i + 1).table)
    ensures Unambiguous(CompileWith(f.includes[i], ch.parts[i]).table)
  {
    hide MergeCompiled, Unambiguous, StageWith, HasCommand, IncludesWith, ChoosesRows;
    WithNext(f, ch, i);
    UnambiguousParts(IncludesWith(f, ch, i + 1), StrippedWith(f, ch, i));
    UnambiguousSubset(CompileWith(f.includes[i], ch.parts[i]).table, StrippedWith(f, ch, i).table);
  }

  lemma {:induction false} WithFrom(f: IsolateFile, ch: Choice, i: nat)
    requires AcceptedTree(f) && Chooses(ch, f) && i <= |f.includes| && Unambiguous(CompileWith(f, ch).table)
    ensures Unambiguous(IncludesWith(f, ch, i).table)
  {
    hide *;
    WithStart(f, ch);
    if i > 0 {
      WithFrom(f, ch, i - 1);
      WithStep(f, ch, i - 1);
    }
  }

  // ----- Without a choice -----

  /** No two rows of one condition are spelled alike, anywhere in the tree. */
  ghost predicate Clear(f: IsolateFile)
    requires AcceptedTree(f)
  {
    && (forall i | 0 <= i < |f.conditions| :: Unambiguous(RowsAt(f, i)))
    && forall i | 0 <= i < |f.includes| :: Clear(f.includes[i])
  }

  lemma {:induction false} StageClear(f: IsolateFile, picks: seq<Table>)
    requires AcceptedFile(f) && ChoosesRows(picks, f)
    requires forall i | 0 <= i < |f.conditions| :: Unambiguous(RowsAt(f, i))
    ensures StageWith(f, picks) == StageTable(f, |picks|)
  {
    hide Unambiguous, VariablesOf, KeptValues, ConditionTable, Picks, Merge;
    if picks != [] {
      StageClear(f, picks[..|picks| - 1]);
      PicksAll(picks[|picks| - 1], RowsAt(f, |picks| - 1));
    }
  }

  lemma {:induction false} IncludesClear(f: IsolateFile, ch: Choice, i: nat)
    requires AcceptedTree(f) && Chooses(ch, f) && Clear(f) && i <= |f.includes|
    ensures IncludesWith(f, ch, i) == CompileIncludes(f, i)
    decreases f, |f.includes| - i
  {
    hide Unambiguous, VariablesOf, StageWith, StageTable, HasCommand, MergeCompiled, RowsAt, Picks;
    StageClear(f, ch.picks);
    if i < |f.includes| {
      IncludesClear(f, ch, i + 1);
      IncludesClear(f.includes[i], ch.parts[i], 0);
    }
  }

  /** Then there is nothing to choose. */
  lemma ClearCompile(f: IsolateFile, ch: Choice)
    requires AcceptedTree(f) && Chooses(ch, f) && Clear(f)
    ensures CompileWith(f, ch) == Compile(f)
  {
    hide IncludesWith, CompileIncludes, Chooses, Clear;
    IncludesClear(f, ch, 0);
    WithStart(f, ch);
    assert Compile(f) == CompileIncludes(f, 0);
  }

  lemma {:induction false} StageKeys(f: IsolateFile, i: nat, j: nat)
    requires AcceptedFile(f) && i <= j <= |f.conditions|
    ensures StageTable(f, i).Keys <= StageTable(f, j).Keys
  {
    hide KeptValues, VariablesOf, ConditionTable, Merge;
    if i < j {
      StageKeys(f, i, j - 1);
      MergeKeys(StageTable(f, j - 1), ConditionTable(f.conditions[j - 1], KeptValues(f.conditions), VariablesOf(f)));
    }
  }

  /** Storable tables come from storable stages. */
  lemma StageUnambiguous(f: IsolateFile, i: nat)
    requires AcceptedFile(f) && i < |f.conditions| && Unambiguous(OwnTable(f))
    ensures Unambiguous(StageTable(f, i)) && Unambiguous(StageTable(f, i + 1))
    ensures Unambiguous(ConditionTable(f.conditions[i], KeptValues(f.conditions), VariablesOf(f)))
  {
    hide KeptValues, VariablesOf, ConditionTable, Unambiguous;
    StageKeys(f, i, |f.conditions|);
    StageKeys(f, i + 1, |f.conditions|);
    UnambiguousSubset(StageTable(f, i), OwnTable(f));
    UnambiguousSubset(StageTable(f, i + 1), OwnTable(f));
    UnambiguousSubset(ConditionTable(f.conditions[i], KeptValues(f.conditions), VariablesOf(f)), StageTable(f, i + 1));
  }

  lemma IncludeStep(f: IsolateFile, i: nat)
    requires AcceptedTree(f) && i < |f.includes|
    ensures CompileIncludes(f, i) == MergeCompiled(CompileIncludes(f, i + 1), Stripped(f, i))
    ensures Unambiguous(CompileIncludes(f, i).table) ==>
      && Unambiguous(CompileIncludes(f, i + 1).table)
      && Unambiguous(Compile(f.includes[i]).table)
  {
    hide MergeCompiled, Unambiguous, OwnTable, HasCommand;
    if Unambiguous(CompileIncludes(f, i).table) {
      UnambiguousParts(CompileIncludes(f, i + 1), Stripped(f, i));
      UnambiguousSubset(Compile(f.includes[i]).table, Stripped(f, i).table);
    }
  }

  lemma {:induction false} UnambiguousFrom(f: IsolateFile, i: nat)
    requires AcceptedTree(f) && i <= |f.includes| && Unambiguous(Compile(f).table)
    ensures Unambiguous(CompileIncludes(f, i).table)
  {
    hide *;
    CompileIs(f);
    if i > 0 {
      UnambiguousFrom(f, i - 1);
      IncludeStep(f, i - 1);
    }
  }

  lemma OwnUnambiguous(f: IsolateFile)
    requires AcceptedTree(f) && Unambiguous(Compile(f).table)
    ensures Unambiguous(OwnTable(f))
  {
    UnambiguousFrom(f, |f.includes|);
  }

  /** A table that can be stored leaves nothing to choose. */
  lemma {:induction false} StorableClear(f: IsolateFile)
    requires AcceptedTree(f) && Unambiguous(Compile(f).table)
    ensures Clear(f)
  {
    hide Compile, CompileIncludes, OwnTable, Unambiguous, VariablesOf;
    OwnUnambiguous(f);
    forall i | 0 <= i < |f.conditions| ensures Unambiguous(RowsAt(f, i)) {
      StageUnambiguous(f, i);
    }
    forall i | 0 <= i < |f.includes| ensures Clear(f.includes[i]) {
      UnambiguousFrom(f, i);
      IncludeStep(f, i);
      StorableClear(f.includes[i]);
    }
  }

  // ----- A choice only loses rows -----

  lemma PickOffers(s: Table, t: Table, config: Name, file: string)
    requires Wide(t, |config|) && Picks(s, t)
    ensures Wide(s, |config|)
    ensures Offers(s, config, file) ==> Offers(t, config, file)
  {
    hide NameKey, Unambiguous, Selects;
  }

  lemma {:induction false} StageWithOffers(f: IsolateFile, picks: seq<Table>, config: Name, file: string)
    requires AcceptedFile(f) && ChoosesRows(picks, f) && |config| == |VariablesOf(f)|
    ensures Offers(StageWith(f, picks), config, file) ==> Offers(StageTable(f, |picks|), config, file)
  {
    hide VariablesOf, KeptValues, ConditionTable, Picks, Merge, Offers;
    if picks != [] {
      var n := |picks| - 1;
      StageWithOffers(f, picks[..n], config, file);
      PickOffers(picks[n], RowsAt(f, n), config, file);
      MergeOffers(StageWith(f, picks[..n]), picks[n], config, file);
      MergeOffers(StageTable(f, n), RowsAt(f, n), config, file);
    }
  }

  lemma {:induction false} WithVariables(f: IsolateFile, ch: Choice, i: nat)
    requires AcceptedTree(f) && Chooses(ch, f) && i <= |f.includes|
    ensures IncludesWith(f, ch, i).vars == CompileIncludes(f, i).vars
    decreases f, |f.includes| - i
  {
    hide StageWith, OwnTable, HasCommand, Merged, VariablesOf, ChoosesRows, Strip;
    if i < |f.includes| {
      WithVariables(f, ch, i + 1);
      WithVariables(f.includes[i], ch.parts[i], 0);
    }
  }

  lemma {:induction false} IncludesWithOffer(f: IsolateFile, ch: Choice, i: nat, config: Name, file: string)
    requires AcceptedTree(f) && Chooses(ch, f) && i <= |f.includes| && |config| == |CompileIncludes(f, i).vars|
    ensures |config| == |IncludesWith(f, ch, i).vars|
    ensures Offers(IncludesWith(f, ch, i).table, config, file) ==> Offers(CompileIncludes(f, i).table, config, file)
    decreases f, |f.includes| - i
  {
    hide ChoosesRows, CompileIncludes, HasCommand, IncludesWith, MergeCompiled, Offers, OwnTable, Project, StageTable,
         StageWith, Strip, VariablesOf;
    WithVariables(f, ch, i);
    if i == |f.includes| {
      NoMoreIncludes(f);
      WithOwn(f, ch);
      StageWithOffers(f, ch.picks, config, file);
      OwnIs(f);
    } else {
      IncludeNext(f, i);
      WithNext(f, ch, i);
      WithVariables(f, ch, i + 1);
      WithStart(f.includes[i], ch.parts[i]);
      WithVariables(f.includes[i], ch.parts[i], 0);
      var vars, before, included := CompileIncludes(f, i).vars, CompileIncludes(f, i + 1), Compile(f.includes[i]);
      var left, right := Project(config, vars, before.vars), Project(config, vars, included.vars);
      ProjectLength(config, vars, before.vars);
      ProjectLength(config, vars, included.vars);
      CompileIs(f.includes[i]);
      IncludesWithOffer(f, ch, i + 1, left, file);
      IncludesWithOffer(f.includes[i], ch.parts[i], 0, right, file);
      StripOffers(included.table, HasCommand(OwnTable(f)), right, file);
      StripOffers(CompileWith(f.includes[i], ch.parts[i]).table, HasCommand(StageWith(f, ch.picks)), right, file);
      MergeCompiledOffers(before, Stripped(f, i), config, file);
      MergeCompiledOffers(IncludesWith(f, ch, i + 1), StrippedWith(f, ch, i), config, file);
    }
  }

  lemma ProjectLength(name: Name, from: seq<string>, to: seq<string>)
    requires |name| == |from|
    ensures |Project(name, from, to)| == |to|
  {
  }

  lemma CompileIs(f: IsolateFile)
    requires AcceptedTree(f)
    ensures Compile(f) == CompileIncludes(f, 0)
  {
    hide CompileIncludes;
  }

  lemma OwnIs(f: IsolateFile)
    requires AcceptedFile(f)
    ensures OwnTable(f) == StageTable(f, |f.conditions|)
  {
  }

  /** Whatever is chosen, a query never returns a file that direct evaluation does not. */
  lemma ChoiceOnlyLoses(f: IsolateFile, ch: Choice, config: Name, b: Binding, file: string)
    requires AcceptedTree(f) && Chooses(ch, f) && Represents(config, Compile(f).vars, b)
    ensures |config| == |CompileWith(f, ch).vars| == |Compile(f).vars|
    ensures file in Query(CompileWith(f, ch).table, |config|, config).Files() ==> file in DirectFiles(f, b)
  {
    hide Chooses, CompileIncludes, DirectFiles, IncludesWith, Offers, Query;
    RepresentsLength(config, Compile(f).vars, b);
    CompileIs(f);
    WithStart(f, ch);
    WithVariables(f, ch, 0);
    IncludesWithOffer(f, ch, 0, config, file);
    CompiledOffers(f, config, b, file);
    QueryFiles(CompileWith(f, ch).table, config, file);
  }
}
