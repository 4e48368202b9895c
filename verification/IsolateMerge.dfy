/** Merging tables over different variables, and querying a table (client/isolate/format.go:250-354). */
module IsolateMerge {
  import opened Text
  import opened IsolateValues
  import opened IsolateTable

  // ----- Aligning names -----

  function Index(vars: seq<string>, x: string): (i: nat)
    requires x in vars
    ensures i < |vars| && vars[i] == x
  {
    if vars[0] == x then 0 else 1 + Index(vars[1..], x)
  }

  lemma IndexAt(vars: seq<string>, i: nat)
    requires Sorted(vars) && i < |vars|
    ensures Index(vars, vars[i]) == i
  {
    SortedDistinct(vars, Index(vars, vars[i]), i);
  }

  /** The same values over other variables; variables not in `from` are unbound. */
  function Project(name: Name, from: seq<string>, to: seq<string>): (out: Name)
    requires |name| == |from|
    ensures |out| == |to|
  {
    seq(|to|, i requires 0 <= i < |to| => if to[i] in from then name[Index(from, to[i])] else Unbound)
  }

  lemma ProjectBack(name: Name, from: seq<string>, to: seq<string>)
    requires |name| == |from| && Sorted(from) && Sorted(to)
    requires forall x | x in from :: x in to
    ensures Project(Project(name, from, to), to, from) == name
  {
    var wide := Project(name, from, to);
    forall i | 0 <= i < |from| ensures Project(wide, to, from)[i] == name[i] {
      IndexAt(from, i);
    }
  }

  lemma ProjectSelf(name: Name, vars: seq<string>)
    requires |name| == |vars| && Sorted(vars)
    ensures Project(name, vars, vars) == name
  {
    forall i | 0 <= i < |vars| ensures Project(name, vars, vars)[i] == name[i] {
      IndexAt(vars, i);
    }
  }

  // ----- Merging -----

  ghost predicate Wide(t: Table, n: nat) {
    forall key | key in t :: |key| == n
  }

  /** A table over `from`, restated over `to`. */
  ghost function Widen(t: Table, from: seq<string>, to: seq<string>): Table
    requires Wide(t, |from|)
  {
    map key | key in (set k | k in t :: Project(k, from, to)) && Project(key, to, from) in t ::
      t[Project(key, to, from)]
  }

  /** Entry by entry union, the left table first. */
  ghost function Merge(a: Table, b: Table): Table {
    map key | key in a.Keys + b.Keys ::
      if key in a && key in b then Union(a[key], b[key]) else if key in a then a[key] else b[key]
  }

  lemma WidenAt(t: Table, from: seq<string>, to: seq<string>, key: Name)
    requires Wide(t, |from|) && Sorted(from) && Sorted(to)
    requires forall x | x in from :: x in to
    requires key in t
    ensures Project(key, from, to) in Widen(t, from, to)
    ensures Widen(t, from, to)[Project(key, from, to)] == t[key]
  {
    ProjectBack(key, from, to);
  }

  lemma WidenedFrom(t: Table, from: seq<string>, to: seq<string>, key: Name) returns (k: Name)
    requires Wide(t, |from|) && Sorted(from) && Sorted(to) && forall x | x in from :: x in to
    requires key in Widen(t, from, to)
    ensures k in t && key == Project(k, from, to) && Widen(t, from, to)[key] == t[k]
  {
    k :| k in t && Project(k, from, to) == key;
    WidenAt(t, from, to, k);
  }

  lemma WidenSelf(t: Table, vars: seq<string>)
    requires Wide(t, |vars|) && Sorted(vars)
    ensures Widen(t, vars, vars) == t
  {
    forall key | key in t ensures Project(key, vars, vars) == key { ProjectSelf(key, vars); }
    var w := Widen(t, vars, vars);
    forall key ensures key in w <==> key in t {
      if key in t { WidenAt(t, vars, vars, key); }
    }
  }

  lemma WidenWide(t: Table, from: seq<string>, to: seq<string>)
    requires Wide(t, |from|)
    ensures Wide(Widen(t, from, to), |to|)
  {
  }

  /** No two rows of the table fall on one key of the map: exactly then the table can be stored. */
  ghost predicate Unambiguous(t: Table) {
    forall a, b | a in t && b in t && NameKey(a) == NameKey(b) :: a == b
  }

  // ----- Querying -----

  /** A row applies to a configuration when its bound values are those of the configuration. */
  predicate Selects(config: Name, key: Name)
    requires |config| <= |key|
  {
    forall i | 0 <= i < |config| :: key[i].IsBound() ==> key[i] == config[i]
  }

  function Selected(rows: seq<Row>, config: Name): seq<Settings>
    requires forall i | 0 <= i < |rows| :: |config| <= |rows[i].key|
  {
    if rows == [] then []
    else Selected(rows[..|rows| - 1], config) +
         if Selects(config, rows[|rows| - 1].key) then [rows[|rows| - 1].value] else []
  }

  lemma RowsOfCons(rest: seq<Row>, t: Table, key: Name)
    requires key in t && RowsOf(rest, t - {key})
    ensures RowsOf([Row(key, t[key])] + rest, t)
  {
    var rows := [Row(key, t[key])] + rest;
    forall k | k in t ensures Row(k, t[k]) in rows {
      if k == key {
        assert rows[0] == Row(k, t[k]);
      } else {
        assert Row(k, (t - {key})[k]) in rest;
      }
    }
  }

  ghost function Enumerate(t: Table): (rows: seq<Row>)
    ensures RowsOf(rows, t)
    decreases |t.Keys|
  {
    if t == map[] then []
    else
      var key :| key in t;
      var rest := Enumerate(t - {key});
      RowsOfCons(rest, t, key);
      [Row(key, t[key])] + rest
  }

  /** The rows of a table in the order GetConfig visits them. */
  ghost function Listing(t: Table, n: nat): (rows: seq<Row>)
    requires Wide(t, n)
    ensures Width(rows, n)
  {
    StableSort(Enumerate(t), n)
  }

  lemma TwiceInMultiset(rows: seq<Row>, i: nat, j: nat)
    requires i < j < |rows| && rows[i] == rows[j]
    ensures multiset(rows)[rows[i]] >= 2
  {
    assert rows == rows[..j] + rows[j..];
    assert rows[i] in rows[..j] && rows[j] in rows[j..];
  }

  lemma SortedKeysDistinct(rows: seq<Row>, sorted: seq<Row>, i: nat, j: nat)
    requires multiset(sorted) == multiset(rows)
    requires forall i, j | 0 <= i < j < |rows| :: rows[i].key != rows[j].key
    requires forall row :: row in sorted <==> row in rows
    requires i < j < |sorted|
    ensures sorted[i].key != sorted[j].key
  {
    if sorted[i].key == sorted[j].key {
      assert sorted[i] in rows && sorted[j] in rows;
      assert sorted[i] == sorted[j];
      TwiceInMultiset(sorted, i, j);
      OnePerKey(rows, sorted[i]);
    }
  }

  lemma SortedRowsOf(rows: seq<Row>, t: Table, n: nat)
    requires RowsOf(rows, t) && Wide(t, n)
    ensures Width(rows, n) && RowsOf(StableSort(rows, n), t)
  {
    var sorted := StableSort(rows, n);
    forall row ensures row in sorted <==> row in rows {
      assert row in sorted <==> row in multiset(sorted);
    }
    forall i | 0 <= i < |sorted| ensures sorted[i].key in t && t[sorted[i].key] == sorted[i].value {
      assert sorted[i] in rows;
    }
    forall i, j | 0 <= i < j < |sorted| ensures sorted[i].key != sorted[j].key {
      SortedKeysDistinct(rows, sorted, i, j);
    }
  }

  lemma {:induction false} OnePerKey(rows: seq<Row>, row: Row)
    requires forall i, j | 0 <= i < j < |rows| :: rows[i].key != rows[j].key
    ensures multiset(rows)[row] <= 1
  {
    if rows != [] {
      assert rows == [rows[0]] + rows[1..];
      OnePerKey(rows[1..], row);
      if row == rows[0] {
        assert row !in rows[1..];
      }
    }
  }

  /** Whatever the order of ranging over the map, the sorted rows are the listing. */
  lemma SortIsListing(rows: seq<Row>, t: Table, n: nat)
    requires RowsOf(rows, t) && Wide(t, n)
    ensures Width(rows, n) && StableSort(rows, n) == Listing(t, n)
  {
    SortedRowsOf(rows, t, n);
    SortedRowsOf(Enumerate(t), t, n);
    StableSortCorrect(rows, n, []);
    StableSortCorrect(Enumerate(t), n, []);
    OrderedUnique(StableSort(rows, n), Listing(t, n), t, n);
  }

  /** Configs.GetConfig on a table over n variables. */
  ghost function Query(t: Table, n: nat, config: Name): Settings
    requires Wide(t, n) && |config| <= n
  {
    Fold(Selected(Listing(t, n), config))
  }

  lemma {:induction false} SelectedFiles(rows: seq<Row>, config: Name, f: string)
    requires forall i | 0 <= i < |rows| :: |config| <= |rows[i].key|
    ensures f in Fold(Selected(rows, config)).Files() <==>
            exists row | row in rows :: Selects(config, row.key) && f in row.value.Files()
  {
    if rows != [] {
      var front, last := rows[..|rows| - 1], rows[|rows| - 1];
      SelectedFiles(front, config, f);
      FoldConcat(Selected(front, config), if Selects(config, last.key) then [last.value] else []);
      assert [last.value][..0] == [];
      assert forall row :: row in rows <==> row in front || row == last;
    }
  }

  ghost predicate Offers(t: Table, config: Name, f: string)
    requires Wide(t, |config|)
  {
    exists key | key in t :: Selects(config, key) && f in t[key].Files()
  }

  /** A query returns exactly the files of the rows that apply. */
  lemma QueryFiles(t: Table, config: Name, f: string)
    requires Wide(t, |config|)
    ensures f in Query(t, |config|, config).Files() <==> Offers(t, config, f)
  {
    var rows := Listing(t, |config|);
    SortedRowsOf(Enumerate(t), t, |config|);
    SelectedFiles(rows, config, f);
    if Offers(t, config, f) {
      var key :| key in t && Selects(config, key) && f in t[key].Files();
      assert Row(key, t[key]) in rows;
    }
  }

  lemma SelectsProjected(config: Name, key: Name, from: seq<string>, to: seq<string>)
    requires |key| == |from| && |config| == |to|
    requires Sorted(from) && Sorted(to) && forall x | x in from :: x in to
    ensures Selects(config, Project(key, from, to)) <==> Selects(Project(config, to, from), key)
  {
    var wide, narrow := Project(key, from, to), Project(config, to, from);
    if Selects(config, wide) {
      forall i | 0 <= i < |from| && key[i].IsBound() ensures key[i] == narrow[i] {
        IndexAt(from, i);
        assert wide[Index(to, from[i])] == key[i];
      }
    }
    if Selects(narrow, key) {
      forall j | 0 <= j < |to| && wide[j].IsBound() ensures wide[j] == config[j] {
        IndexAt(to, j);
        assert narrow[Index(from, to[j])] == config[j];
      }
    }
  }

  lemma WidenOffers(t: Table, from: seq<string>, to: seq<string>, config: Name, f: string)
    requires Wide(t, |from|) && |config| == |to|
    requires Sorted(from) && Sorted(to) && forall x | x in from :: x in to
    ensures Wide(Widen(t, from, to), |to|)
    ensures Offers(Widen(t, from, to), config, f) <==> Offers(t, Project(config, to, from), f)
  {
    var w := Widen(t, from, to);
    if Offers(w, config, f) {
      var key :| key in w && Selects(config, key) && f in w[key].Files();
      var k :| k in t && Project(k, from, to) == key;
      WidenAt(t, from, to, k);
      SelectsProjected(config, k, from, to);
      assert k in t && Selects(Project(config, to, from), k) && f in t[k].Files();
    }
    if Offers(t, Project(config, to, from), f) {
      var k :| k in t && Selects(Project(config, to, from), k) && f in t[k].Files();
      WidenAt(t, from, to, k);
      SelectsProjected(config, k, from, to);
      assert Selects(config, Project(k, from, to)) && f in w[Project(k, from, to)].Files();
    }
  }

  lemma MergeOffers(a: Table, b: Table, config: Name, f: string)
    requires Wide(a, |config|) && Wide(b, |config|)
    ensures Offers(Merge(a, b), config, f) <==> Offers(a, config, f) || Offers(b, config, f)
  {
    var m := Merge(a, b);
    if Offers(a, config, f) {
      var key :| key in a && Selects(config, key) && f in a[key].Files();
      assert key in m && f in m[key].Files();
    }
    if Offers(b, config, f) {
      var key :| key in b && Selects(config, key) && f in b[key].Files();
      assert key in m && f in m[key].Files();
    }
  }

  /** The table of Configs.union: both tables restated over all variables, then merged. */
  ghost function Merged(a: Table, avars: seq<string>, b: Table, bvars: seq<string>, vars: seq<string>): (m: Table)
    requires Wide(a, |avars|) && Wide(b, |bvars|)
    ensures Wide(m, |vars|)
  {
    Merge(Widen(a, avars, vars), Widen(b, bvars, vars))
  }

  ghost predicate AllVariables(vars: seq<string>, avars: seq<string>, bvars: seq<string>) {
    && Sorted(avars) && Sorted(bvars) && Sorted(vars)
    && forall x :: x in vars <==> x in avars || x in bvars
  }

  /** Merging is a homomorphism: querying the merged table gives the files of querying each table
      with its own variables. */
  lemma MergeHomomorphism(a: Table, avars: seq<string>, b: Table, bvars: seq<string>, vars: seq<string>, config: Name,
                          f: string)
    requires Wide(a, |avars|) && Wide(b, |bvars|) && |config| == |vars|
    requires AllVariables(vars, avars, bvars)
    ensures f in Query(Merged(a, avars, b, bvars, vars), |vars|, config).Files() <==>
            || f in Query(a, |avars|, Project(config, vars, avars)).Files()
            || f in Query(b, |bvars|, Project(config, vars, bvars)).Files()
  {
    WidenOffers(a, avars, vars, config, f);
    WidenOffers(b, bvars, vars, config, f);
    MergeOffers(Widen(a, avars, vars), Widen(b, bvars, vars), config, f);
    QueryFiles(Merged(a, avars, b, bvars, vars), config, f);
    QueryFiles(a, Project(config, vars, avars), f);
    QueryFiles(b, Project(config, vars, bvars), f);
  }
}
