/** Tables of settings keyed by configuration names: what Configs stores, how two tables are
    merged and how a table is queried (client/isolate/format.go:250-475). */
module IsolateTable {
  import opened IsolateValues

  const NOT_SET: int := -1

  /** ConfigSettings of files in one directory; Empty is the object without IsolateDir. The list of
      files is kept as its set of entries. */
  datatype Settings = Empty | Settings(files: set<string>, command: seq<string>, readOnly: int) {
    function Files(): set<string> { if Empty? then {} else files }

    function Command(): seq<string> { if Empty? then [] else command }

    function Mode(): int { if Empty? then NOT_SET else readOnly }
  }

  /** ConfigSettings.union within one directory: the left command and mode take precedence. */
  function Union(l: Settings, r: Settings): Settings {
    if l.Empty? then r
    else if r.Empty? then l
    else Settings(
           l.files + r.files,
           if |l.command| > 0 then l.command else r.command,
           if l.readOnly != NOT_SET then l.readOnly else r.readOnly)
  }

  lemma UnionAssociative(a: Settings, b: Settings, c: Settings)
    ensures Union(Union(a, b), c) == Union(a, Union(b, c))
  {
    if a.Settings? && b.Settings? && c.Settings? {
      assert a.files + b.files + c.files == a.files + (b.files + c.files);
    }
  }

  function WithoutCommand(s: Settings): Settings {
    if s.Empty? then s else s.(command := [])
  }

  function Fold(values: seq<Settings>): Settings {
    if values == [] then Empty else Union(Fold(values[..|values| - 1]), values[|values| - 1])
  }

  lemma {:induction false} FoldConcat(a: seq<Settings>, b: seq<Settings>)
    ensures Fold(a + b) == Union(Fold(a), Fold(b))
  {
    if b == [] {
      assert a + b == a;
    } else {
      var front, last := b[..|b| - 1], b[|b| - 1];
      assert (a + b)[..|a + b| - 1] == a + front;
      FoldConcat(a, front);
      UnionAssociative(Fold(a), Fold(front), last);
    }
  }

  lemma {:induction false} FoldFiles(values: seq<Settings>, f: string)
    ensures f in Fold(values).Files() <==> exists i | 0 <= i < |values| :: f in values[i].Files()
  {
    if values != [] {
      FoldFiles(values[..|values| - 1], f);
    }
  }

  // ----- Rows -----

  datatype Row = Row(key: Name, value: Settings)

  type Table = map<Name, Settings>

  ghost predicate Width(rows: seq<Row>, n: nat) {
    forall i | 0 <= i < |rows| :: |rows[i].key| == n
  }

  /** The settings stored under a key, in the order of the rows. */
  ghost function ValuesAt(rows: seq<Row>, key: Name): seq<Settings> {
    if rows == [] then []
    else
      ValuesAt(rows[..|rows| - 1], key) +
      if rows[|rows| - 1].key == key then [rows[|rows| - 1].value] else []
  }

  ghost function Keys(rows: seq<Row>): set<Name> {
    set row | row in rows :: row.key
  }

  /** One entry per key: the in-order union of everything stored under it. */
  ghost function Grouped(rows: seq<Row>): Table {
    map key | key in Keys(rows) :: Fold(ValuesAt(rows, key))
  }

  lemma {:induction false} ValuesAtConcat(a: seq<Row>, b: seq<Row>, key: Name)
    ensures ValuesAt(a + b, key) == ValuesAt(a, key) + ValuesAt(b, key)
  {
    if b == [] {
      assert a + b == a;
    } else {
      assert (a + b)[..|a + b| - 1] == a + b[..|b| - 1];
      ValuesAtConcat(a, b[..|b| - 1], key);
    }
  }

  lemma {:induction false} ValuesAtNone(rows: seq<Row>, key: Name)
    ensures ValuesAt(rows, key) == [] <==> key !in Keys(rows)
  {
    if rows != [] {
      var front, last := rows[..|rows| - 1], rows[|rows| - 1];
      ValuesAtNone(front, key);
      assert forall row :: row in rows <==> row in front || row == last;
    }
  }

  lemma FoldSnoc(rows: seq<Row>, row: Row, key: Name)
    ensures Fold(ValuesAt(rows + [row], key)) ==
            if key == row.key then Union(Fold(ValuesAt(rows, key)), row.value) else Fold(ValuesAt(rows, key))
    ensures key !in Keys(rows) ==> Fold(ValuesAt(rows, key)) == Empty
  {
    assert (rows + [row])[..|rows|] == rows;
    ValuesAtNone(rows, key);
    var earlier := ValuesAt(rows, key);
    assert ValuesAt(rows + [row], key) == if key == row.key then earlier + [row.value] else earlier;
    assert (earlier + [row.value])[..|earlier|] == earlier;
  }

  /** Appending a row extends one entry. */
  lemma GroupedSnoc(rows: seq<Row>, row: Row)
    ensures Grouped(rows + [row]) ==
      Grouped(rows)[row.key := if row.key in Keys(rows) then Union(Grouped(rows)[row.key], row.value) else row.value]
  {
    var all := rows + [row];
    assert Keys(all) == Keys(rows) + {row.key} by {
      assert forall r :: r in all <==> r in rows || r == row;
    }
    FoldSnoc(rows, row, row.key);
    forall key | key in Keys(rows) && key != row.key
      ensures Fold(ValuesAt(all, key)) == Fold(ValuesAt(rows, key))
    {
      FoldSnoc(rows, row, key);
    }
  }

  /** The rows of a table, in any order. */
  ghost predicate RowsOf(rows: seq<Row>, t: Table) {
    && (forall i | 0 <= i < |rows| :: rows[i].key in t && t[rows[i].key] == rows[i].value)
    && (forall key | key in t :: Row(key, t[key]) in rows)
    && (forall i, j | 0 <= i < j < |rows| :: rows[i].key != rows[j].key)
  }

  lemma {:induction false} ValuesAtSingle(rows: seq<Row>, t: Table, key: Name)
    requires forall i | 0 <= i < |rows| :: rows[i].key in t && t[rows[i].key] == rows[i].value
    requires forall i, j | 0 <= i < j < |rows| :: rows[i].key != rows[j].key
    ensures ValuesAt(rows, key) == if key in Keys(rows) then [t[key]] else []
  {
    if rows != [] {
      var front, last := rows[..|rows| - 1], rows[|rows| - 1];
      ValuesAtSingle(front, t, key);
      assert forall row :: row in rows <==> row in front || row == last;
    }
  }

  lemma GroupedRowsOf(rows: seq<Row>, t: Table)
    requires RowsOf(rows, t)
    ensures Keys(rows) == t.Keys
    ensures Grouped(rows) == t
  {
    assert Keys(rows) == t.Keys;
    forall key | key in t
      ensures Fold(ValuesAt(rows, key)) == t[key]
    {
      ValuesAtSingle(rows, t, key);
      assert [t[key]][..0] == [];
    }
  }

  // ----- Sorting -----

  /** configPairs.Less. */
  predicate Before(a: Row, b: Row)
    requires |a.key| == |b.key|
  {
    CompareNames(a.key, b.key) > 0
  }

  ghost predicate Ordered(rows: seq<Row>, n: nat) {
    && Width(rows, n)
    && forall i, j | 0 <= i < j < |rows| :: !Before(rows[j], rows[i])
  }

  function Insert(row: Row, rows: seq<Row>, n: nat): (out: seq<Row>)
    requires |row.key| == n && Width(rows, n)
    ensures Width(out, n) && multiset(out) == multiset([row] + rows)
  {
    if rows == [] || !Before(rows[0], row) then [row] + rows
    else
      assert rows == [rows[0]] + rows[1..];
      assert Width(rows[1..], n);
      [rows[0]] + Insert(row, rows[1..], n)
  }

  /** sort.Stable (and sort.Sort) on configPairs. */
  function StableSort(rows: seq<Row>, n: nat): (out: seq<Row>)
    requires Width(rows, n)
    ensures Width(out, n) && multiset(out) == multiset(rows)
  {
    if rows == [] then []
    else
      assert rows == [rows[0]] + rows[1..];
      Insert(rows[0], StableSort(rows[1..], n), n)
  }

  lemma NotBeforeTransitive(a: Row, b: Row, c: Row)
    requires |a.key| == |b.key| == |c.key|
    requires !Before(b, a) && !Before(c, b)
    ensures !Before(c, a)
  {
    CompareNamesZero(a.key, b.key);
    CompareNamesZero(b.key, c.key);
    CompareNamesZero(a.key, c.key);
    if CompareNames(a.key, b.key) == 1 && CompareNames(b.key, c.key) == 1 {
      CompareNamesTransitive(a.key, b.key, c.key);
    }
  }

  lemma {:induction false} InsertOrdered(row: Row, rows: seq<Row>, n: nat)
    requires |row.key| == n && Ordered(rows, n)
    ensures Ordered(Insert(row, rows, n), n)
  {
    var out := Insert(row, rows, n);
    if rows == [] {
    } else if !Before(rows[0], row) {
      forall j | 0 < j < |out| ensures !Before(out[j], row) {
        if j > 1 { NotBeforeTransitive(row, rows[0], out[j]); }
      }
    } else {
      InsertOrdered(row, rows[1..], n);
      CompareNamesZero(rows[0].key, row.key);
      var rest := Insert(row, rows[1..], n);
      forall j | 0 <= j < |rest| ensures !Before(rest[j], rows[0]) {
        assert rest[j] in multiset(rest);
        assert rest[j] == row || rest[j] in rows[1..];
      }
    }
  }

  lemma ValuesAtOther(a: Row, b: Row, key: Name)
    requires a.key != b.key
    ensures ValuesAt([a], key) + ValuesAt([b], key) == ValuesAt([b], key) + ValuesAt([a], key)
  {
    assert [a][..0] == [] && [b][..0] == [];
  }

  lemma {:induction false} InsertValues(row: Row, rows: seq<Row>, n: nat, key: Name)
    requires |row.key| == n && Width(rows, n)
    ensures ValuesAt(Insert(row, rows, n), key) == ValuesAt([row], key) + ValuesAt(rows, key)
  {
    hide CompareNames, ValuesAt;
    ValuesAtConcat([row], rows, key);
    if rows != [] && Before(rows[0], row) {
      CompareNamesZero(rows[0].key, row.key);
      InsertValues(row, rows[1..], n, key);
      ValuesAtConcat([rows[0]], Insert(row, rows[1..], n), key);
      ValuesAtConcat([rows[0]], rows[1..], key);
      ValuesAtOther(row, rows[0], key);
      assert rows == [rows[0]] + rows[1..];
      var x, y, z := ValuesAt([row], key), ValuesAt([rows[0]], key), ValuesAt(rows[1..], key);
      assert x + (y + z) == (x + y) + z && y + (x + z) == (y + x) + z;
    }
  }

  /** Sorting orders the rows and keeps the order of rows with one key. */
  lemma {:induction false} StableSortCorrect(rows: seq<Row>, n: nat, key: Name)
    requires Width(rows, n)
    ensures Ordered(StableSort(rows, n), n)
    ensures ValuesAt(StableSort(rows, n), key) == ValuesAt(rows, key)
  {
    if rows != [] {
      StableSortCorrect(rows[1..], n, key);
      var rest := StableSort(rows[1..], n);
      InsertOrdered(rows[0], rest, n);
      InsertValues(rows[0], rest, n, key);
      ValuesAtConcat([rows[0]], rows[1..], key);
      assert rows == [rows[0]] + rows[1..];
    }
  }

  lemma SortedKeys(rows: seq<Row>, n: nat)
    requires Width(rows, n)
    ensures Keys(StableSort(rows, n)) == Keys(rows)
  {
    var sorted := StableSort(rows, n);
    forall row ensures row in sorted <==> row in rows {
      assert row in sorted <==> row in multiset(sorted);
    }
  }

  lemma StableSortGrouped(rows: seq<Row>, n: nat)
    requires Width(rows, n)
    ensures Grouped(StableSort(rows, n)) == Grouped(rows)
  {
    hide Fold, ValuesAt, Keys, StableSort;
    SortedKeys(rows, n);
    forall key | key in Keys(rows)
      ensures Fold(ValuesAt(StableSort(rows, n), key)) == Fold(ValuesAt(rows, key))
    {
      StableSortCorrect(rows, n, key);
    }
  }

  lemma RowsOfTail(rows: seq<Row>, t: Table)
    requires RowsOf(rows, t) && rows != []
    ensures RowsOf(rows[1..], t - {rows[0].key})
  {
    var rest := t - {rows[0].key};
    forall key | key in rest ensures Row(key, rest[key]) in rows[1..] {
      var i :| 0 <= i < |rows| && rows[i] == Row(key, t[key]);
      assert rows[1..][i - 1] == rows[i];
    }
  }

  lemma RowsOfEmpty(rows: seq<Row>, t: Table)
    requires RowsOf(rows, t)
    ensures rows == [] <==> t == map[]
  {
    if rows != [] {
      assert rows[0].key in t;
    }
    if t != map[] {
      var key :| key in t;
      assert Row(key, t[key]) in rows;
    }
  }

  lemma OrderedHead(a: seq<Row>, b: seq<Row>, t: Table, n: nat)
    requires RowsOf(a, t) && RowsOf(b, t) && Ordered(a, n) && Ordered(b, n)
    requires a != [] && b != []
    ensures a[0] == b[0]
  {
    var i :| 0 <= i < |a| && a[i] == Row(b[0].key, t[b[0].key]);
    var j :| 0 <= j < |b| && b[j] == Row(a[0].key, t[a[0].key]);
    CompareNamesZero(a[0].key, b[0].key);
  }

  lemma OrderedTail(rows: seq<Row>, n: nat)
    requires Ordered(rows, n) && rows != []
    ensures Ordered(rows[1..], n)
  {
    hide CompareNames;
  }

  /** The sorted rows of a table do not depend on the order they were listed in. */
  lemma {:induction false} OrderedUnique(a: seq<Row>, b: seq<Row>, t: Table, n: nat)
    requires RowsOf(a, t) && RowsOf(b, t) && Ordered(a, n) && Ordered(b, n)
    ensures a == b
  {
    hide RowsOf, Ordered;
    RowsOfEmpty(a, t);
    RowsOfEmpty(b, t);
    if t != map[] {
      OrderedTail(a, n);
      OrderedTail(b, n);
      OrderedHead(a, b, t, n);
      RowsOfTail(a, t);
      RowsOfTail(b, t);
      OrderedUnique(a[1..], b[1..], t - {a[0].key}, n);
    }
  }
}
