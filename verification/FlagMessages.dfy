/** Untyped protobuf messages, their descriptors and their printing as flags (client/flagpb/marshal.go). */
module FlagMessages {
  import opened Text

  // ----- Descriptors -----

  /** A signed or unsigned integer type is given by its range. */
  datatype FieldType =
    | BoolType
    | IntType(lo: int, hi: int)
    | UintType(hi: int)
    | StringType
    | MessageType(typeName: string)

  datatype Field = Field(name: string, typ: FieldType, repeated: bool)

  type Descriptor = seq<Field>

  /** Message types by name. */
  type Resolver = map<string, Descriptor>

  /** descutil.FindField. */
  function FindField(desc: Descriptor, name: string): (r: Option<Field>)
    ensures r.Some? ==> r.value in desc && r.value.name == name
  {
    if desc == [] then None
    else if desc[0].name == name then Some(desc[0])
    else FindField(desc[1..], name)
  }

  // ----- Messages -----

  /** What the parser builds: Go's map[string]interface{} and its contents. */
  datatype Value =
    | Bool(b: bool)
    | Int(i: int)
    | Str(s: string)
    | Msg(fields: Fields)
    | List(elems: seq<Value>)

  type Fields = map<string, Value>

  /** A message together with an order in which Go may range over each of its maps. */
  datatype Tree =
    | BoolLeaf(b: bool)
    | IntLeaf(i: int)
    | StrLeaf(s: string)
    | Node(entries: seq<Entry>)
    | Many(elems: seq<Tree>)

  datatype Entry = Entry(name: string, tree: Tree)

  /** The message without the order. */
  function ToValue(t: Tree): Value
    decreases t
  {
    match t
    case BoolLeaf(b) => Bool(b)
    case IntLeaf(i) => Int(i)
    case StrLeaf(s) => Str(s)
    case Node(entries) => Msg(ToFields(entries))
    case Many(elems) => List(ToValues(elems))
  }

  function ToFields(entries: seq<Entry>): Fields
    decreases entries
  {
    if entries == [] then map[] else ToFields(entries[1..])[entries[0].name := ToValue(entries[0].tree)]
  }

  function ToValues(elems: seq<Tree>): seq<Value>
    decreases elems
  {
    if elems == [] then [] else [ToValue(elems[0])] + ToValues(elems[1..])
  }

  // ----- Well-typed messages -----

  /** A protobuf identifier, as far as the flag syntax depends on it. */
  predicate GoodName(name: string) {
    name != "" && name[0] != '-' && '.' !in name && '=' !in name
  }

  predicate DistinctNames(entries: seq<Entry>) {
    forall i, j | 0 <= i < j < |entries| :: entries[i].name != entries[j].name
  }

  predicate FitsType(t: Tree, typ: FieldType, res: Resolver)
    decreases t, 0
  {
    match t
    case BoolLeaf(_) => typ.BoolType?
    case IntLeaf(i) =>
      || (typ.IntType? && typ.lo <= i <= typ.hi)
      || (typ.UintType? && 0 <= i <= typ.hi)
    case StrLeaf(_) => typ.StringType?
    case Node(entries) => typ.MessageType? && typ.typeName in res && FitsMessage(entries, res[typ.typeName], res)
    case Many(_) => false
  }

  predicate FitsField(t: Tree, f: Field, res: Resolver)
    decreases t, 1
  {
    if f.repeated then t.Many? && forall i | 0 <= i < |t.elems| :: FitsType(t.elems[i], f.typ, res)
    else FitsType(t, f.typ, res)
  }

  /** The entries of a message of the given type. */
  predicate FitsMessage(entries: seq<Entry>, desc: Descriptor, res: Resolver)
    decreases entries
  {
    && DistinctNames(entries)
    && forall i | 0 <= i < |entries| ::
      && GoodName(entries[i].name)
      && FindField(desc, entries[i].name).Some?
      && FitsField(entries[i].tree, FindField(desc, entries[i].name).value, res)
  }

  // ----- Printing -----

  function FlagName(path: seq<string>): string {
    "-" + Join(path, '.')
  }

  /** appendFlags: the flags it adds for a value at a path. */
  function Flags(t: Tree, path: seq<string>): seq<string>
    decreases t
  {
    match t
    case BoolLeaf(b) => [if b then FlagName(path) else FlagName(path) + "=false"]
    case IntLeaf(i) => [FlagName(path), Dec(i)]
    case StrLeaf(s) => [FlagName(path), s]
    case Node(entries) => EntryFlags(entries, path)
    case Many(elems) => ListFlags(elems, path, false)
  }

  function EntryFlags(entries: seq<Entry>, path: seq<string>): seq<string>
    decreases entries
  {
    if entries == [] then [] else Flags(entries[0].tree, path + [entries[0].name]) + EntryFlags(entries[1..], path)
  }

  /** After a message, the bare flag starts the next element. */
  function ListFlags(elems: seq<Tree>, path: seq<string>, sep: bool): seq<string>
    decreases elems
  {
    if elems == [] then []
    else (if sep then [FlagName(path)] else []) + Flags(elems[0], path) + ListFlags(elems[1..], path, elems[0].Node?)
  }

  // ----- What is visible in the flags -----

  /** Whether a value leaves any trace in the flags. */
  predicate Visible(t: Tree)
    decreases t
  {
    match t
    case Node(entries) => AnyVisible(entries)
    case Many(elems) => elems != [] && (|elems| > 1 || Visible(elems[0]))
    case _ => true
  }

  predicate AnyVisible(entries: seq<Entry>)
    decreases entries
  {
    entries != [] && (Visible(entries[0].tree) || AnyVisible(entries[1..]))
  }

  /** The message without what leaves no trace: invisible fields and an invisible first element. */
  function Prune(t: Tree): Value
    decreases t
  {
    match t
    case BoolLeaf(b) => Bool(b)
    case IntLeaf(i) => Int(i)
    case StrLeaf(s) => Str(s)
    case Node(entries) => Msg(PruneEntries(entries))
    case Many(elems) => List(PruneElems(elems))
  }

  function PruneEntries(entries: seq<Entry>): Fields
    decreases entries
  {
    if entries == [] then map[]
    else
      var rest := PruneEntries(entries[1..]);
      if Visible(entries[0].tree) then rest[entries[0].name := Prune(entries[0].tree)] else rest
  }

  function PruneAll(elems: seq<Tree>): seq<Value>
    decreases elems
  {
    if elems == [] then [] else [Prune(elems[0])] + PruneAll(elems[1..])
  }

  function PruneElems(elems: seq<Tree>): seq<Value>
    decreases elems
  {
    if elems == [] then []
    else (if Visible(elems[0]) then [Prune(elems[0])] else []) + PruneAll(elems[1..])
  }

  /** Nothing is lost: every field is visible, and so is the first element of every list. */
  predicate Solid(t: Tree)
    decreases t
  {
    match t
    case Node(entries) => SolidEntries(entries)
    case Many(elems) => (elems != [] ==> Visible(elems[0])) && SolidElems(elems)
    case _ => true
  }

  predicate SolidEntries(entries: seq<Entry>)
    decreases entries
  {
    entries == [] || (Visible(entries[0].tree) && Solid(entries[0].tree) && SolidEntries(entries[1..]))
  }

  predicate SolidElems(elems: seq<Tree>)
    decreases elems
  {
    elems == [] || (Solid(elems[0]) && SolidElems(elems[1..]))
  }

  // ----- Marshalling -----

  /** appendFlags: whatever the order of ranging over the maps, the flags are
      those of the message in some order. */
  method AppendFlags(flags: seq<string>, path: seq<string>, v: Value) returns (out: seq<string>, ghost t: Tree)
    ensures ToValue(t) == v && OrderedTree(t)
    ensures out == flags + Flags(t, path)
    decreases v, 1
  {
    match v {
      case Msg(fields) =>
        ghost var entries;
        out, entries := AppendEntries(flags, path, fields, v);
        t := Node(entries);
      case List(elems) =>
        ghost var trees;
        out, trees := AppendElems(flags, path, elems, v);
        t := Many(trees);
      case Bool(b) =>
        out, t := flags + [if b then FlagName(path) else FlagName(path) + "=false"], BoolLeaf(b);
      case Int(i) =>
        out, t := flags + [FlagName(path), Dec(i)], IntLeaf(i);
      case Str(s) =>
        out, t := flags + [FlagName(path), s], StrLeaf(s);
    }
  }

  method AppendEntries(flags: seq<string>, path: seq<string>, fields: Fields, ghost whole: Value)
    returns (out: seq<string>, ghost entries: seq<Entry>)
    requires whole == Msg(fields)
    ensures ToFields(entries) == fields && DistinctNames(entries)
    ensures forall i | 0 <= i < |entries| :: OrderedTree(entries[i].tree)
    ensures out == flags + EntryFlags(entries, path)
    decreases whole, 0
  {
    hide Flags, OrderedTree, ToValue;
    out, entries := flags, [];
    var left := fields.Keys;
    ghost var done: Fields := map[];
    while left != {}
      invariant left <= fields.Keys && done == map k | k in fields && k !in left :: fields[k]
      invariant ToFields(entries) == done && DistinctNames(entries)
      invariant forall i | 0 <= i < |entries| :: entries[i].name in done && OrderedTree(entries[i].tree)
      invariant out == flags + EntryFlags(entries, path)
      decreases |left|
    {
      var k :| k in left;
      ghost var child;
      ghost var before := out;
      out, child := AppendFlags(out, path + [k], fields[k]);
      EntryFlagsSnoc(entries, Entry(k, child), path);
      ToFieldsSnoc(entries, Entry(k, child));
      entries := entries + [Entry(k, child)];
      left := left - {k};
      done := done[k := fields[k]];
    }
  }

  method AppendElems(flags: seq<string>, path: seq<string>, elems: seq<Value>, ghost whole: Value)
    returns (out: seq<string>, ghost trees: seq<Tree>)
    requires whole == List(elems)
    ensures ToValues(trees) == elems
    ensures forall i | 0 <= i < |trees| :: OrderedTree(trees[i])
    ensures out == flags + ListFlags(trees, path, false)
    decreases whole, 0
  {
    hide Flags, FlagName, OrderedTree;
    out, trees := flags, [];
    var sep := false;
    for i := 0 to |elems|
      invariant ToValues(trees) == elems[..i]
      invariant forall j | 0 <= j < |trees| :: OrderedTree(trees[j])
      invariant out == flags + ListFlags(trees, path, false)
      invariant |trees| == i && sep == (i > 0 && elems[i - 1].Msg?)
      invariant i > 0 ==> ToValue(trees[i - 1]) == elems[i - 1]
    {
      if sep {
        out := out + [FlagName(path)];
      }
      ghost var child;
      out, child := AppendFlags(out, path, elems[i]);
      ListFlagsSnoc(trees, child, path, false);
      ToValuesSnoc(trees, child);
      trees := trees + [child];
      sep := elems[i].Msg?;
      assert elems[..i + 1] == elems[..i] + [elems[i]];
    }
    assert elems[..|elems|] == elems;
  }

  /** These are the flags of the message, its maps and the maps within it each in some order. */
  ghost predicate FlagsOf(out: seq<string>, fields: Fields) {
    exists t :: ToValue(t) == Msg(fields) && OrderedTree(t) && out == Flags(t, [])
  }

  /** MarshalUntyped. */
  method MarshalUntyped(fields: Fields) returns (out: seq<string>)
    ensures FlagsOf(out, fields)
  {
    ghost var t;
    out, t := AppendFlags([], [], Msg(fields));
    assert out == Flags(t, []);
  }

  /** Every map is ranged over without repeating a key. */
  ghost predicate OrderedTree(t: Tree)
    decreases t
  {
    match t
    case Node(entries) => DistinctNames(entries) && forall i | 0 <= i < |entries| :: OrderedTree(entries[i].tree)
    case Many(elems) => forall i | 0 <= i < |elems| :: OrderedTree(elems[i])
    case _ => true
  }

  lemma {:induction false} EntryFlagsSnoc(entries: seq<Entry>, e: Entry, path: seq<string>)
    ensures EntryFlags(entries + [e], path) == EntryFlags(entries, path) + Flags(e.tree, path + [e.name])
  {
    if entries != [] {
      EntryFlagsSnoc(entries[1..], e, path);
      assert (entries + [e])[1..] == entries[1..] + [e];
    }
  }

  lemma {:induction false} ToFieldsSnoc(entries: seq<Entry>, e: Entry)
    requires e.name !in ToFields(entries)
    ensures ToFields(entries + [e]) == ToFields(entries)[e.name := ToValue(e.tree)]
  {
    if entries != [] {
      ToFieldsSnoc(entries[1..], e);
      assert (entries + [e])[1..] == entries[1..] + [e];
    }
  }

  lemma {:induction false} ToValuesSnoc(elems: seq<Tree>, t: Tree)
    ensures ToValues(elems + [t]) == ToValues(elems) + [ToValue(t)]
  {
    if elems != [] {
      ToValuesSnoc(elems[1..], t);
      assert (elems + [t])[1..] == elems[1..] + [t];
    }
  }

  lemma {:induction false} ListFlagsSnoc(elems: seq<Tree>, t: Tree, path: seq<string>, sep: bool)
    ensures ListFlags(elems + [t], path, sep) ==
      ListFlags(elems, path, sep) +
      (if (if elems == [] then sep else elems[|elems| - 1].Node?) then [FlagName(path)] else []) + Flags(t, path)
  {
    hide Flags, FlagName;
    if elems == [] {
      assert [t][1..] == [];
      assert [] + [t] == [t];
    } else {
      ListFlagsSnoc(elems[1..], t, path, elems[0].Node?);
      assert (elems + [t])[1..] == elems[1..] + [t];
      var head := (if sep then [FlagName(path)] else []) + Flags(elems[0], path);
      var mid := ListFlags(elems[1..], path, elems[0].Node?);
      var bare := if elems[|elems| - 1].Node? then [FlagName(path)] else [];
      assert elems[1..] != [] ==> elems[1..][|elems[1..]| - 1] == elems[|elems| - 1];
      assert head + (mid + bare + Flags(t, path)) == (head + mid) + bare + Flags(t, path);
    }
  }
}
