/** Configs: a table of settings indexed by configuration keys (client/isolate/format.go:224-353). */
module IsolateConfigs {
  import opened Text
  import opened IsolateValues
  import opened IsolateTable
  import opened IsolateMerge

  ghost predicate Above(low: seq<string>, high: seq<string>) {
    forall i, j | 0 <= i < |low| && 0 <= j < |high| :: Less(low[i], high[j])
  }

  lemma SortedSnoc(s: seq<string>, x: string)
    requires Sorted(s) && Above(s, [x])
    ensures Sorted(s + [x])
  {
  }

  /** Moving the smallest remaining element over keeps the merge sorted. */
  lemma MergeStep(done: seq<string>, ls: seq<string>, rs: seq<string>)
    requires Sorted(done) && Sorted(ls) && Sorted(rs) && Above(done, ls) && Above(done, rs)
    requires ls != [] && rs != [] && !Less(rs[0], ls[0])
    ensures Sorted(done + [ls[0]]) && Above(done + [ls[0]], ls[1..])
    ensures Less(ls[0], rs[0]) ==> Above(done + [ls[0]], rs)
    ensures !Less(ls[0], rs[0]) ==> ls[0] == rs[0] && Above(done + [ls[0]], rs[1..])
  {
    LessTrichotomy(ls[0], rs[0]);
    SortedSnoc(done, ls[0]);
    if Less(ls[0], rs[0]) {
      forall j | 0 < j < |rs| ensures Less(ls[0], rs[j]) { LessTransitive(ls[0], rs[0], rs[j]); }
    }
  }

  /** uniqueMergeSortedStrings (client/isolate/utils.go:37-60). */
  method UniqueMergeSortedStrings(ls0: seq<string>, rs0: seq<string>) returns (merged: seq<string>)
    requires Sorted(ls0) && Sorted(rs0)
    ensures AllVariables(merged, ls0, rs0)
  {
    var ls, rs := ls0, rs0;
    var varSet := new string[|ls| + |rs|];
    var i := 0;
    while true
      invariant i + |ls| + |rs| <= varSet.Length
      invariant Sorted(varSet[..i]) && Sorted(ls) && Sorted(rs)
      invariant Above(varSet[..i], ls) && Above(varSet[..i], rs)
      invariant forall x :: x in ls0 || x in rs0 <==> x in varSet[..i] || x in ls || x in rs
      decreases |ls| + |rs|
    {
      if |ls| == 0 {
        rs, ls := ls, rs;
      }
      if |rs| == 0 {
        ghost var done := varSet[..i];
        forall k | 0 <= k < |ls| { varSet[i + k] := ls[k]; }
        assert varSet[..i + |ls|] == done + ls;
        return varSet[..i + |ls|];
      }
      if Less(rs[0], ls[0]) {
        ls, rs := rs, ls;
        LessTrichotomy(rs[0], ls[0]);
      }
      ghost var done := varSet[..i];
      MergeStep(done, ls, rs);
      varSet[i] := ls[0];
      assert varSet[..i + 1] == done + [ls[0]];
      assert ls == [ls[0]] + ls[1..] && rs == [rs[0]] + rs[1..];
      if Less(ls[0], rs[0]) {
        ls := ls[1..];
      } else {
        ls, rs := ls[1..], rs[1..];
      }
      i := i + 1;
    }
  }

  // ----- The stored map and the table it means -----

  type Store = map<string, Row>

  ghost predicate Keyed(store: Store, n: nat) {
    forall k | k in store :: NameKey(store[k].key) == k && |store[k].key| == n
  }

  ghost function StoredNames(store: Store): set<Name> {
    set k | k in store :: store[k].key
  }

  ghost function TableOf(store: Store): (t: Table) {
    map key | key in StoredNames(store) && NameKey(key) in store :: store[NameKey(key)].value
  }

  lemma InTable(store: Store, n: nat, key: Name)
    requires Keyed(store, n)
    ensures key in TableOf(store) <==> NameKey(key) in store && store[NameKey(key)].key == key
  {
  }

  lemma TableOfUpdate(store: Store, n: nat, row: Row)
    requires Keyed(store, n) && |row.key| == n && NameKey(row.key) !in store
    ensures Keyed(store[NameKey(row.key) := row], n)
    ensures row.key !in TableOf(store)
    ensures TableOf(store[NameKey(row.key) := row]) == TableOf(store)[row.key := row.value]
  {
    hide NameKey;
    var after := store[NameKey(row.key) := row];
    forall key ensures key in TableOf(after) <==> key in TableOf(store) || key == row.key {
      InTable(store, n, key);
      InTable(after, n, key);
    }
  }

  lemma StoredRows(rows: seq<Row>, store: Store, n: nat)
    requires Keyed(store, n)
    requires forall i | 0 <= i < |rows| :: NameKey(rows[i].key) in store && store[NameKey(rows[i].key)] == rows[i]
    requires forall k | k in store :: store[k] in rows
    requires forall i, j | 0 <= i < j < |rows| :: rows[i].key != rows[j].key
    ensures RowsOf(rows, TableOf(store)) && Width(rows, n)
  {
    hide NameKey;
    forall key | key in TableOf(store) ensures Row(key, TableOf(store)[key]) in rows {
      InTable(store, n, key);
      assert store[NameKey(key)] in rows;
    }
  }

  class Configs {
    var variables: seq<string>
    var byConfig: Store

    ghost predicate Valid()
      reads this
    {
      Sorted(variables) && Keyed(byConfig, |variables|)
    }

    ghost function Table(): (t: Table)
      requires Valid()
      reads this
      ensures Wide(t, |variables|) && Unambiguous(t)
    {
      TableOf(byConfig)
    }

    /** newConfigs. */
    constructor (variables: seq<string>)
      requires Sorted(variables)
      ensures Valid() && this.variables == variables && Table() == map[]
    {
      this.variables := variables;
      byConfig := map[];
    }

    /** False is the panic "setConfig must not override existing keys". */
    method SetConfig(name: Name, value: Settings) returns (ok: bool)
      requires Valid() && |name| == |variables|
      modifies this`byConfig
      ensures Valid()
      ensures ok <==> forall key | key in old(Table()) :: NameKey(key) != NameKey(name)
      ensures ok ==> name !in old(Table()) && Table() == old(Table())[name := value]
      ensures !ok ==> byConfig == old(byConfig)
    {
      if NameKey(name) in byConfig {
        assert byConfig[NameKey(name)].key in Table();
        return false;
      }
      TableOfUpdate(byConfig, |variables|, Row(name, value));
      byConfig := byConfig[NameKey(name) := Row(name, value)];
      return true;
    }

    /** Ranging over byConfig. */
    method Pairs() returns (rows: seq<Row>)
      requires Valid()
      ensures RowsOf(rows, Table()) && Width(rows, |variables|)
    {
      hide NameKey, TableOf;
      rows := [];
      var left := byConfig.Keys;
      while left != {}
        invariant left <= byConfig.Keys
        invariant forall i | 0 <= i < |rows| ::
          NameKey(rows[i].key) in byConfig && byConfig[NameKey(rows[i].key)] == rows[i] && NameKey(rows[i].key) !in left
        invariant forall k | k in byConfig :: k in left || byConfig[k] in rows
        invariant forall i, j | 0 <= i < j < |rows| :: rows[i].key != rows[j].key
        decreases |left|
      {
        var k :| k in left;
        rows := rows + [byConfig[k]];
        left := left - {k};
      }
      StoredRows(rows, byConfig, |variables|);
    }

    /** expandConfigVariables; the panic "unreachable code" does not happen. */
    method ExpandConfigVariables(newVars: seq<string>) returns (rows: seq<Row>)
      requires Valid() && Sorted(newVars) && forall x | x in variables :: x in newVars
      ensures Width(rows, |newVars|)
      ensures RowsOf(rows, Widen(Table(), variables, newVars))
    {
      var mapping := MapVariables(variables, newVars);
      var pairs := Pairs();
      rows := ExpandRows(pairs, mapping, variables, newVars);
      ExpandedRows(pairs, rows, Table(), variables, newVars);
    }

    /** union: false is a panic in setConfig. */
    method Union(rhs: Configs) returns (ok: bool, out: Configs)
      requires Valid() && rhs.Valid()
      ensures fresh(out) && out.Valid() && AllVariables(out.variables, variables, rhs.variables)
      ensures ok <==> Unambiguous(Merged(Table(), variables, rhs.Table(), rhs.variables, out.variables))
      ensures ok ==> out.Table() == Merged(Table(), variables, rhs.Table(), rhs.variables, out.variables)
    {
      hide NameKey, Widen, Merge, TableOf, Grouped;
      ghost var a, b := Table(), rhs.Table();
      var configVariables := UniqueMergeSortedStrings(variables, rhs.variables);
      out := new Configs(configVariables);
      var left := ExpandConfigVariables(configVariables);
      var right := rhs.ExpandConfigVariables(configVariables);
      ok := MergeRows(left + right, out);
      GroupedConcat(left, right, Widen(a, variables, configVariables), Widen(b, rhs.variables, configVariables));
    }

    /** Whether some row has a command. */
    method AnyCommand() returns (found: bool)
      requires Valid()
      ensures found <==> exists key | key in Table() :: |Table()[key].Command()| > 0
    {
      hide NameKey, TableOf, Keyed, Wide, Unambiguous;
      var rows := Pairs();
      for i := 0 to |rows|
        invariant forall j | 0 <= j < i :: |rows[j].value.Command()| == 0
      {
        if |rows[i].value.Command()| > 0 {
          assert rows[i].key in Table();
          return true;
        }
      }
      forall key | key in Table() ensures |Table()[key].Command()| == 0 {
        assert Row(key, Table()[key]) in rows;
      }
      return false;
    }

    /** Empties the command of every row. */
    method DropCommands()
      requires Valid()
      modifies this`byConfig
      ensures Valid() && Table() == map key | key in old(Table()) :: WithoutCommand(old(Table())[key])
    {
      hide NameKey;
      byConfig := map k | k in byConfig :: byConfig[k].(value := WithoutCommand(byConfig[k].value));
      forall key ensures key in Table() <==> key in old(Table()) {
        InTable(byConfig, |variables|, key);
        InTable(old(byConfig), |variables|, key);
      }
    }

    /** getSortedConfigPairs and GetConfig. */
    method GetConfig(config: Name) returns (out: Settings)
      requires Valid() && |config| <= |variables|
      ensures out == Query(Table(), |variables|, config)
    {
      var rows := Pairs();
      SortIsListing(rows, Table(), |variables|);
      var pairs := StableSort(rows, |variables|);
      out := FoldSelected(pairs, config);
    }
  }

  /** Whether every bound value of a row's key is that of the configuration. */
  method RowApplies(config: Name, key: Name) returns (ok: bool)
    requires |config| <= |key|
    ensures ok == Selects(config, key)
  {
    for i := 0 to |config|
      invariant forall j | 0 <= j < i :: key[j].IsBound() ==> key[j] == config[j]
    {
      CompareZero(key[i], config[i]);
      if key[i].IsBound() && Compare(key[i], config[i]) != 0 {
        return false;
      }
    }
    return true;
  }

  lemma SelectedSnoc(front: seq<Row>, row: Row, config: Name)
    requires forall i | 0 <= i < |front| :: |config| <= |front[i].key|
    requires |config| <= |row.key|
    ensures Fold(Selected(front + [row], config)) ==
            if Selects(config, row.key) then Union(Fold(Selected(front, config)), row.value)
            else Fold(Selected(front, config))
  {
    var earlier := Selected(front, config);
    assert (front + [row])[..|front|] == front;
    if Selects(config, row.key) {
      assert Selected(front + [row], config) == earlier + [row.value];
      assert (earlier + [row.value])[..|earlier|] == earlier;
    } else {
      assert Selected(front + [row], config) == earlier;
    }
  }

  method FoldSelected(pairs: seq<Row>, config: Name) returns (out: Settings)
    requires forall i | 0 <= i < |pairs| :: |config| <= |pairs[i].key|
    ensures out == Fold(Selected(pairs, config))
  {
    out := Empty;
    for p := 0 to |pairs|
      invariant out == Fold(Selected(pairs[..p], config))
    {
      SelectedSnoc(pairs[..p], pairs[p], config);
      assert pairs[..p + 1] == pairs[..p] + [pairs[p]];
      var ok := RowApplies(config, pairs[p].key);
      if ok {
        out := Union(out, pairs[p].value);
      }
    }
    assert pairs[..|pairs|] == pairs;
  }

  // ----- Aligning variables -----

  /** Where each new variable was among the old ones, -1 for new ones. */
  method MapVariables(vars: seq<string>, newVars: seq<string>) returns (mapping: array<int>)
    requires Sorted(vars) && Sorted(newVars) && forall x | x in vars :: x in newVars
    ensures fresh(mapping) && mapping.Length == |newVars|
    ensures forall n | 0 <= n < |newVars| :: mapping[n] == if newVars[n] in vars then Index(vars, newVars[n]) else -1
  {
    mapping := new int[|newVars|];
    var i := 0;
    for n := 0 to |newVars|
      invariant 0 <= i <= |vars|
      invariant forall p | 0 <= p < |vars| :: vars[p] in newVars[..n] <==> p < i
      invariant forall m | 0 <= m < n :: mapping[m] == if newVars[m] in vars then Index(vars, newVars[m]) else -1
    {
      var nk := newVars[n];
      NextVariable(vars, newVars, i, n);
      if i == |vars| || Less(nk, vars[i]) {
        mapping[n] := -1;
      } else if vars[i] == nk {
        IndexAt(vars, i);
        mapping[n] := i;
        i := i + 1;
      } else {
        assert false;  // the panic "unreachable code"
      }
      assert newVars[..n + 1] == newVars[..n] + [nk];
    }
  }

  /** The next new variable is the next old one, or comes before it and is not an old one. */
  lemma NextVariable(vars: seq<string>, newVars: seq<string>, i: nat, n: nat)
    requires Sorted(vars) && Sorted(newVars) && forall x | x in vars :: x in newVars
    requires i <= |vars| && n < |newVars|
    requires forall p | 0 <= p < |vars| :: vars[p] in newVars[..n] <==> p < i
    ensures (i < |vars| && newVars[n] == vars[i]) || (newVars[n] !in vars && (i == |vars| || Less(newVars[n], vars[i])))
    ensures i < |vars| ==> !(newVars[n] == vars[i] && Less(newVars[n], vars[i]))
  {
    forall m | 0 <= m < n ensures newVars[m] != newVars[n] { LessTrichotomy(newVars[m], newVars[n]); }
    if i < |vars| {
      LessTrichotomy(newVars[n], vars[i]);
      assert vars[i] in newVars;
      var q :| 0 <= q < |newVars| && newVars[q] == vars[i];
      assert q >= n;
      forall p | i < p < |vars| ensures vars[p] != newVars[n] {
        if q > n { LessTransitive(newVars[n], vars[i], vars[p]); }
        LessTrichotomy(newVars[n], vars[p]);
      }
    }
  }

  method ExpandRows(pairs: seq<Row>, mapping: array<int>, ghost vars: seq<string>, ghost newVars: seq<string>)
    returns (rows: seq<Row>)
    requires Width(pairs, |vars|) && mapping.Length == |newVars|
    requires forall n | 0 <= n < |newVars| :: mapping[n] == if newVars[n] in vars then Index(vars, newVars[n]) else -1
    ensures |rows| == |pairs|
    ensures forall i | 0 <= i < |rows| :: rows[i] == Row(Project(pairs[i].key, vars, newVars), pairs[i].value)
  {
    rows := [];
    for p := 0 to |pairs|
      invariant |rows| == p
      invariant forall i | 0 <= i < p :: rows[i] == Row(Project(pairs[i].key, vars, newVars), pairs[i].value)
    {
      var name := ExpandName(pairs[p].key, mapping, vars, newVars);
      rows := rows + [Row(name, pairs[p].value)];
    }
  }

  method ExpandName(name: Name, mapping: array<int>, ghost vars: seq<string>, ghost newVars: seq<string>)
    returns (out: Name)
    requires |name| == |vars| && mapping.Length == |newVars|
    requires forall n | 0 <= n < |newVars| :: mapping[n] == if newVars[n] in vars then Index(vars, newVars[n]) else -1
    ensures out == Project(name, vars, newVars)
  {
    out := [];
    for k := 0 to mapping.Length
      invariant |out| == k
      invariant forall j | 0 <= j < k :: out[j] == Project(name, vars, newVars)[j]
    {
      var v := mapping[k];
      out := out + [if v != -1 then name[v] else Unbound];
    }
  }

  lemma ExpandedRows(pairs: seq<Row>, rows: seq<Row>, t: Table, from: seq<string>, to: seq<string>)
    requires RowsOf(pairs, t) && Width(pairs, |from|) && Wide(t, |from|)
    requires Sorted(from) && Sorted(to) && forall x | x in from :: x in to
    requires |rows| == |pairs|
    requires forall i | 0 <= i < |rows| :: rows[i] == Row(Project(pairs[i].key, from, to), pairs[i].value)
    ensures RowsOf(rows, Widen(t, from, to))
  {
    var w := Widen(t, from, to);
    forall i | 0 <= i < |rows| ensures rows[i].key in w && w[rows[i].key] == rows[i].value {
      WidenAt(t, from, to, pairs[i].key);
    }
    forall key | key in w ensures Row(key, w[key]) in rows {
      var k :| k in t && Project(k, from, to) == key;
      var i :| 0 <= i < |pairs| && pairs[i] == Row(k, t[k]);
      WidenAt(t, from, to, k);
      assert rows[i] == Row(key, w[key]);
    }
    forall i, j | 0 <= i < j < |rows| ensures rows[i].key != rows[j].key {
      ProjectBack(pairs[i].key, from, to);
      ProjectBack(pairs[j].key, from, to);
    }
  }

  // ----- Merging sorted rows -----

  lemma FoldAt(rows: seq<Row>, t: Table, key: Name)
    requires RowsOf(rows, t)
    ensures Fold(ValuesAt(rows, key)) == if key in t then t[key] else Empty
  {
    GroupedRowsOf(rows, t);
    ValuesAtNone(rows, key);
    assert key in t ==> Grouped(rows)[key] == t[key];
  }

  lemma FoldAtConcat(left: seq<Row>, right: seq<Row>, a: Table, b: Table, key: Name)
    requires RowsOf(left, a) && RowsOf(right, b) && key in a.Keys + b.Keys
    ensures Fold(ValuesAt(left + right, key)) == Merge(a, b)[key]
  {
    hide RowsOf, ValuesAt, Fold;
    FoldAt(left, a, key);
    FoldAt(right, b, key);
    ValuesAtConcat(left, right, key);
    FoldConcat(ValuesAt(left, key), ValuesAt(right, key));
    if key in a && key !in b {
      assert Union(a[key], Empty) == a[key];
    }
  }

  lemma GroupedConcat(left: seq<Row>, right: seq<Row>, a: Table, b: Table)
    requires RowsOf(left, a) && RowsOf(right, b)
    ensures Grouped(left + right) == Merge(a, b)
  {
    GroupedRowsOf(left, a);
    GroupedRowsOf(right, b);
    hide ValuesAt, Fold;
    var rows := left + right;
    assert Keys(rows) == a.Keys + b.Keys by {
      assert forall row :: row in rows <==> row in left || row in right;
    }
    hide RowsOf, Keys;
    forall key | key in a.Keys + b.Keys ensures Fold(ValuesAt(rows, key)) == Merge(a, b)[key] {
      FoldAtConcat(left, right, a, b, key);
    }
  }

  /** In ordered rows a key that differs from the last one does not come again. */
  lemma NewKey(rows: seq<Row>, p: nat, n: nat)
    requires Ordered(rows, n) && 0 < p < |rows|
    requires rows[p].key != rows[p - 1].key
    ensures rows[p].key !in Keys(rows[..p])
  {
    forall i | 0 <= i < p ensures rows[i].key != rows[p].key {
      if rows[i].key == rows[p].key {
        CompareNamesZero(rows[p - 1].key, rows[p].key);
        CompareNamesZero(rows[i].key, rows[p - 1].key);
      }
    }
  }

  method MergeRows(rows: seq<Row>, out: Configs) returns (ok: bool)
    requires out.Valid() && out.Table() == map[] && Width(rows, |out.variables|)
    modifies out`byConfig
    ensures out.Valid()
    ensures ok <==> Unambiguous(Grouped(rows))
    ensures ok ==> out.Table() == Grouped(rows)
  {
    if |rows| == 0 {
      return true;
    }
    var byConfig := StableSort(rows, |out.variables|);
    StableSortCorrect(rows, |out.variables|, []);
    StableSortGrouped(rows, |out.variables|);
    assert |multiset(byConfig)| == |multiset(rows)|;
    ok := MergeAdjacent(byConfig, out);
  }

  lemma GroupedFirst(row: Row)
    ensures Grouped([row]) == map[row.key := row.value]
  {
    assert [] + [row] == [row];
    GroupedSnoc([], row);
    assert Grouped([]) == map[];
  }

  /** The stored rows plus the pending one; the next row extends the pending one or starts a new one. */
  lemma GroupedNext(front: seq<Row>, row: Row, stored: Table, last: Row)
    requires last.key !in stored && Grouped(front) == stored[last.key := last.value]
    requires row.key != last.key ==> row.key !in Keys(front)
    ensures row.key == last.key ==> Grouped(front + [row]) == stored[last.key := Union(last.value, row.value)]
    ensures row.key != last.key ==>
      row.key !in stored && Grouped(front + [row]) == stored[last.key := last.value][row.key := row.value]
  {
    assert Grouped(front).Keys == Keys(front);
    assert last.key in Grouped(front);
    GroupedSnoc(front, row);
  }

  /** One step of merging: the first p rows are what is stored plus the pending row. */
  lemma MergeRowStep(rows: seq<Row>, p: nat, n: nat, stored: Table, last: Row)
    requires Ordered(rows, n) && 0 < p < |rows|
    requires last.key == rows[p - 1].key && last.key !in stored
    requires Grouped(rows[..p]) == stored[last.key := last.value]
    ensures rows[p].key == last.key ==> Grouped(rows[..p + 1]) == stored[last.key := Union(last.value, rows[p].value)]
    ensures rows[p].key != last.key ==>
      rows[p].key !in stored && Grouped(rows[..p + 1]) == stored[last.key := last.value][rows[p].key := rows[p].value]
  {
    hide *;
    assert rows[..p + 1] == rows[..p] + [rows[p]];
    if rows[p].key != last.key {
      NewKey(rows, p, n);
    }
    GroupedNext(rows[..p], rows[p], stored, last);
  }

  lemma Clash(rows: seq<Row>, p: nat, stored: Table, last: Row)
    requires p <= |rows| && last.key !in stored
    requires Grouped(rows[..p]) == stored[last.key := last.value]
    requires exists key :: key in stored && NameKey(key) == NameKey(last.key)
    ensures !Unambiguous(Grouped(rows))
  {
    var key :| key in stored && NameKey(key) == NameKey(last.key);
    assert key in Grouped(rows[..p]) && last.key in Grouped(rows[..p]);
    assert Keys(rows[..p]) <= Keys(rows);
    assert key in Grouped(rows) && last.key in Grouped(rows);
  }

  /** Folds runs of rows with one key and stores each; false is a panic in setConfig. */
  method MergeAdjacent(byConfig: seq<Row>, out: Configs) returns (ok: bool)
    requires out.Valid() && out.Table() == map[]
    requires byConfig != [] && Ordered(byConfig, |out.variables|)
    modifies out`byConfig
    ensures out.Valid()
    ensures ok <==> Unambiguous(Grouped(byConfig))
    ensures ok ==> out.Table() == Grouped(byConfig)
  {
    hide NameKey, Grouped, TableOf, Keyed, CompareNames, Unambiguous;
    var last := byConfig[0];
    assert byConfig[..1] == [last];
    GroupedFirst(last);
    ghost var stored: Table := map[];
    for p := 1 to |byConfig|
      invariant out.Valid() && out.Table() == stored
      invariant last.key == byConfig[p - 1].key && last.key !in stored
      invariant Grouped(byConfig[..p]) == stored[last.key := last.value]
    {
      var curr := byConfig[p];
      CompareNamesZero(last.key, curr.key);
      MergeRowStep(byConfig, p, |out.variables|, stored, last);
      if CompareNames(last.key, curr.key) == 0 {
        last := Row(last.key, Union(last.value, curr.value));
      } else {
        ok := out.SetConfig(last.key, last.value);
        if !ok {
          Clash(byConfig, p, stored, last);
          return false;
        }
        stored := stored[last.key := last.value];
        last := curr;
      }
    }
    assert byConfig[..|byConfig|] == byConfig;
    ok := out.SetConfig(last.key, last.value);
    if !ok {
      Clash(byConfig, |byConfig|, stored, last);
    }
  }
}
