/** What parsing and printing keep: types, and the message whatever the order of its maps. */
module FlagSafety {
  import opened Text
  import opened FlagMessages
  import opened FlagParser
  import opened FlagRoundTrip

  // ----- Printing loses exactly what is not visible -----

  lemma {:induction false} PruneExact(t: Tree)
    requires OrderedTree(t)
    ensures Prune(t) == ToValue(t) <==> Solid(t)
    decreases t, 0
  {
    match t
    case Node(entries) => PruneEntriesExact(entries);
    case Many(elems) => PruneElemsExact(elems);
    case _ =>
  }

  lemma {:induction false} NamesOf(entries: seq<Entry>, name: string)
    ensures name in ToFields(entries) <==> exists i | 0 <= i < |entries| :: entries[i].name == name
    ensures name in PruneEntries(entries) ==> name in ToFields(entries)
  {
    if entries != [] {
      NamesOf(entries[1..], name);
      if i :| 0 <= i < |entries| && entries[i].name == name {
        if i > 0 { assert entries[1..][i - 1].name == name; }
      }
    }
  }

  /** The first entry does not come again. */
  lemma FirstName(entries: seq<Entry>)
    requires entries != [] && DistinctNames(entries)
    ensures DistinctNames(entries[1..])
    ensures entries[0].name !in ToFields(entries[1..]) && entries[0].name !in PruneEntries(entries[1..])
  {
    NamesOf(entries[1..], entries[0].name);
    forall i | 0 <= i < |entries[1..]| ensures entries[1..][i].name != entries[0].name {
      assert entries[1..][i] == entries[i + 1];
    }
  }

  lemma {:induction false} PruneEntriesExact(entries: seq<Entry>)
    requires DistinctNames(entries) && forall i | 0 <= i < |entries| :: OrderedTree(entries[i].tree)
    ensures PruneEntries(entries) == ToFields(entries) <==> SolidEntries(entries)
    decreases entries, 0
  {
    if entries != [] {
      var name := entries[0].name;
      FirstName(entries);
      PruneExact(entries[0].tree);
      PruneEntriesExact(entries[1..]);
      var p, q := PruneEntries(entries[1..]), ToFields(entries[1..]);
      if PruneEntries(entries) == ToFields(entries) {
        assert name in PruneEntries(entries);
        assert Visible(entries[0].tree);
        assert PruneEntries(entries)[name] == ToFields(entries)[name];
        assert p == PruneEntries(entries) - {name} && q == ToFields(entries) - {name};
      }
    }
  }

  lemma {:induction false} PruneAllLength(elems: seq<Tree>)
    ensures |PruneAll(elems)| == |elems| == |ToValues(elems)|
  {
    if elems != [] { PruneAllLength(elems[1..]); }
  }

  lemma {:induction false} PruneAllExact(elems: seq<Tree>)
    requires forall i | 0 <= i < |elems| :: OrderedTree(elems[i])
    ensures PruneAll(elems) == ToValues(elems) <==> SolidElems(elems)
    decreases elems, 0
  {
    if elems != [] {
      PruneExact(elems[0]);
      PruneAllExact(elems[1..]);
      var p, q := PruneAll(elems), ToValues(elems);
      assert p[0] == Prune(elems[0]) && q[0] == ToValue(elems[0]);
      assert p[1..] == PruneAll(elems[1..]) && q[1..] == ToValues(elems[1..]);
      assert p == [p[0]] + p[1..] && q == [q[0]] + q[1..];
    }
  }

  lemma {:induction false} PruneElemsExact(elems: seq<Tree>)
    requires forall i | 0 <= i < |elems| :: OrderedTree(elems[i])
    ensures List(PruneElems(elems)) == List(ToValues(elems)) <==>
            (elems != [] ==> Visible(elems[0])) && SolidElems(elems)
    decreases elems, 1
  {
    if elems != [] {
      PruneAllLength(elems[1..]);
      PruneAllExact(elems);
      PruneAllLength(elems);
      if Visible(elems[0]) {
        assert PruneElems(elems) == PruneAll(elems);
      }
    }
  }

  // ----- The order of the maps does not matter -----

  predicate VisibleValue(v: Value)
    decreases v
  {
    match v
    case Msg(fields) => exists k | k in fields :: VisibleValue(fields[k])
    case List(elems) => elems != [] && (|elems| > 1 || VisibleValue(elems[0]))
    case _ => true
  }

  /** The part of a message that its flags show. */
  function VisiblePart(v: Value): Value
    decreases v
  {
    match v
    case Msg(fields) => Msg(map k | k in fields && VisibleValue(fields[k]) :: VisiblePart(fields[k]))
    case List(elems) =>
      if elems == [] then v
      else
        var all := seq(|elems|, i requires 0 <= i < |elems| => VisiblePart(elems[i]));
        List(if VisibleValue(elems[0]) then all else all[1..])
    case _ => v
  }

  lemma {:induction false} VisibleIs(t: Tree)
    requires OrderedTree(t)
    ensures Visible(t) <==> VisibleValue(ToValue(t))
    decreases t, 0
  {
    match t
    case Node(entries) => AnyVisibleIs(entries);
    case Many(elems) =>
      PruneAllLength(elems);
      if elems != [] { VisibleIs(elems[0]); }
    case _ =>
  }

  lemma {:induction false} AnyVisibleIs(entries: seq<Entry>)
    requires DistinctNames(entries) && forall i | 0 <= i < |entries| :: OrderedTree(entries[i].tree)
    ensures AnyVisible(entries) <==> VisibleValue(Msg(ToFields(entries)))
    decreases entries, 0
  {
    if entries != [] {
      FirstName(entries);
      VisibleIs(entries[0].tree);
      AnyVisibleIs(entries[1..]);
      var q, r := ToFields(entries[1..]), ToFields(entries);
      var name := entries[0].name;
      assert r[name] == ToValue(entries[0].tree);
      if VisibleValue(Msg(q)) {
        var k :| k in q && VisibleValue(q[k]);
        assert k in r && VisibleValue(r[k]);
      }
      if VisibleValue(Msg(r)) {
        var k :| k in r && VisibleValue(r[k]);
        assert k == name || (k in q && VisibleValue(q[k]));
      }
    }
  }

  lemma {:induction false} PruneIsVisiblePart(t: Tree)
    requires OrderedTree(t)
    ensures Prune(t) == VisiblePart(ToValue(t))
    decreases t, 0
  {
    match t
    case Node(entries) => PruneEntriesAre(entries);
    case Many(elems) =>
      PruneAllLength(elems);
      PruneAllAre(elems);
      if elems != [] {
        VisibleIs(elems[0]);
        PruneFirst(elems);
        var all := seq(|elems|, i requires 0 <= i < |elems| => VisiblePart(ToValues(elems)[i]));
        assert PruneAll(elems) == all;
      }
    case _ =>
  }

  lemma PruneFirst(elems: seq<Tree>)
    requires elems != []
    ensures PruneElems(elems) == if Visible(elems[0]) then PruneAll(elems) else PruneAll(elems)[1..]
  {
  }

  lemma {:induction false} PruneAllAre(elems: seq<Tree>)
    requires forall i | 0 <= i < |elems| :: OrderedTree(elems[i])
    ensures |PruneAll(elems)| == |elems| == |ToValues(elems)|
    ensures forall i | 0 <= i < |elems| :: PruneAll(elems)[i] == VisiblePart(ToValues(elems)[i])
    decreases elems, 0
  {
    if elems != [] {
      PruneIsVisiblePart(elems[0]);
      PruneAllAre(elems[1..]);
    }
  }

  lemma {:induction false} PruneEntriesAre(entries: seq<Entry>)
    requires DistinctNames(entries) && forall i | 0 <= i < |entries| :: OrderedTree(entries[i].tree)
    ensures Msg(PruneEntries(entries)) == VisiblePart(Msg(ToFields(entries)))
    decreases entries, 0
  {
    if entries != [] {
      FirstName(entries);
      VisibleIs(entries[0].tree);
      PruneIsVisiblePart(entries[0].tree);
      PruneEntriesAre(entries[1..]);
      var name, q, r := entries[0].name, ToFields(entries[1..]), ToFields(entries);
      var p, s := VisiblePart(Msg(q)).fields, VisiblePart(Msg(r)).fields;
      assert r[name] == ToValue(entries[0].tree);
      forall k ensures k in PruneEntries(entries) <==> k in s {
        assert k != name ==> (k in q <==> k in r) && (k in q ==> q[k] == r[k]);
        assert k in p <==> k in q && VisibleValue(q[k]);
      }
      forall k | k in s ensures PruneEntries(entries)[k] == s[k] {
        if k != name { assert p[k] == VisiblePart(q[k]); }
      }
    }
  }

  // ----- Parsing keeps messages well typed -----

  predicate TypedValue(v: Value, typ: FieldType, res: Resolver)
    decreases v, 0
  {
    match v
    case Bool(_) => typ.BoolType?
    case Int(i) => (typ.IntType? && typ.lo <= i <= typ.hi) || (typ.UintType? && 0 <= i <= typ.hi)
    case Str(_) => typ.StringType?
    case Msg(fields) =>
      && typ.MessageType? && typ.typeName in res
      && forall k | k in fields ::
        FindField(res[typ.typeName], k).Some? && TypedField(fields[k], FindField(res[typ.typeName], k).value, res)
    case List(_) => false
  }

  predicate TypedField(v: Value, f: Field, res: Resolver)
    decreases v, 1
  {
    if f.repeated then v.List? && v.elems != [] && forall i | 0 <= i < |v.elems| :: TypedValue(v.elems[i], f.typ, res)
    else TypedValue(v, f.typ, res)
  }

  predicate TypedFields(data: Fields, desc: Descriptor, res: Resolver) {
    forall k | k in data :: FindField(desc, k).Some? && TypedField(data[k], FindField(desc, k).value, res)
  }

  /** In a well-typed message the type assertions of subMessages succeed and the slice it takes the
      last element of is not empty. */
  lemma SubTyped(data: Fields, desc: Descriptor, f: Field, res: Resolver)
    requires TypedFields(data, desc, res) && FindField(desc, f.name) == Some(f)
    requires f.typ.MessageType? && f.typ.typeName in res
    ensures f.name in data && f.repeated ==>
      var v := data[f.name]; v.List? && v.elems != [] && v.elems[|v.elems| - 1].Msg?
    ensures f.name in data && !f.repeated ==> data[f.name].Msg?
    ensures TypedFields(Sub(data, f), res[f.typ.typeName], res)
  {
    if f.name in data {
      assert TypedField(data[f.name], f, res);
    }
  }

  lemma WithSubTyped(data: Fields, desc: Descriptor, f: Field, res: Resolver, sub: Fields)
    requires TypedFields(data, desc, res) && FindField(desc, f.name) == Some(f)
    requires f.typ.MessageType? && f.typ.typeName in res && TypedFields(sub, res[f.typ.typeName], res)
    ensures TypedFields(WithSub(data, f, sub), desc, res)
  {
    assert TypedValue(Msg(sub), f.typ, res);
    if f.name in data {
      assert TypedField(data[f.name], f, res);
    }
  }

  lemma {:induction false} UpdateTyped(data: Fields, desc: Descriptor, path: seq<string>, res: Resolver, new_: Fields)
    requires MessageAt(desc, path, res).Ok? && TypedFields(data, desc, res)
    requires TypedFields(new_, MessageAt(desc, path, res).value, res)
    ensures TypedFields(Update(data, desc, path, res, new_), desc, res)
    decreases path
  {
    if path != [] {
      hide TypedFields;
      var f := FindField(desc, path[0]).value;
      SubTyped(data, desc, f, res);
      UpdateTyped(Sub(data, f), res[f.typ.typeName], path[1..], res, new_);
      WithSubTyped(data, desc, f, res, Update(Sub(data, f), res[f.typ.typeName], path[1..], res, new_));
    }
  }

  lemma {:induction false} GetTyped(data: Fields, desc: Descriptor, path: seq<string>, res: Resolver)
    requires MessageAt(desc, path, res).Ok? && TypedFields(data, desc, res)
    ensures TypedFields(Get(data, desc, path, res), MessageAt(desc, path, res).value, res)
    decreases path
  {
    if path != [] {
      hide TypedFields;
      var f := FindField(desc, path[0]).value;
      SubTyped(data, desc, f, res);
      GetTyped(Sub(data, f), res[f.typ.typeName], path[1..], res);
    }
  }

  lemma AssignTyped(data: Fields, desc: Descriptor, f: Field, res: Resolver, v: Value)
    requires TypedFields(data, desc, res) && FindField(desc, f.name) == Some(f) && TypedValue(v, f.typ, res)
    ensures f.repeated && f.name in data ==> data[f.name].List?
    ensures TypedFields(Assign(data, f, v), desc, res)
  {
    if f.name in data {
      assert TypedField(data[f.name], f, res);
    }
  }

  lemma FlagValueTyped(f: Field, valueStr: Option<string>, rest: seq<string>, res: Resolver)
    requires FlagValue(f, valueStr, rest).Ok?
    requires f.typ.MessageType? ==> f.typ.typeName in res
    ensures TypedValue(FlagValue(f, valueStr, rest).value.0, f.typ, res)
  {
  }

  /** Every message type a descriptor refers to can be resolved. */
  predicate Resolvable(desc: Descriptor, res: Resolver) {
    forall i | 0 <= i < |desc| :: desc[i].typ.MessageType? ==> desc[i].typ.typeName in res
  }

  lemma {:induction false} MessageAtResolvable(desc: Descriptor, path: seq<string>, res: Resolver)
    requires MessageAt(desc, path, res).Ok? && Resolvable(desc, res)
    requires forall name | name in res :: Resolvable(res[name], res)
    ensures Resolvable(MessageAt(desc, path, res).value, res)
    decreases path
  {
    if path != [] {
      MessageAtResolvable(res[FindField(desc, path[0]).value.typ.typeName], path[1..], res);
    }
  }

  lemma ApplyFlagTyped(flag: string, rest: seq<string>, data: Fields, desc: Descriptor, res: Resolver)
    requires Resolvable(desc, res) && forall name | name in res :: Resolvable(res[name], res)
    requires TypedFields(data, desc, res) && ApplyFlag(flag, rest, data, desc, res).Ok?
    ensures TypedFields(ApplyFlag(flag, rest, data, desc, res).value.data, desc, res)
  {
    hide TypedFields, Resolvable, FlagValue, TypedValue;
    var (key, valueStr) := SplitKeyValue(FlagBody(flag).value);
    var fieldPath := Split(key, '.');
    var path, name := fieldPath[..|fieldPath| - 1], fieldPath[|fieldPath| - 1];
    var target := MessageAt(desc, path, res).value;
    var f := FindField(target, name).value;
    MessageAtResolvable(desc, path, res);
    FieldResolvable(target, name, res);
    GetTyped(data, desc, path, res);
    FlagValueTyped(f, valueStr, rest, res);
    var v := FlagValue(f, valueStr, rest).value.0;
    AssignTyped(Get(data, desc, path, res), target, f, res, v);
    UpdateTyped(data, desc, path, res, Assign(Get(data, desc, path, res), f, v));
  }

  lemma FieldResolvable(desc: Descriptor, name: string, res: Resolver)
    requires Resolvable(desc, res) && FindField(desc, name).Some?
    ensures FindField(desc, name).value.typ.MessageType? ==> FindField(desc, name).value.typ.typeName in res
  {
    var f := FindField(desc, name).value;
    var i :| 0 <= i < |desc| && desc[i] == f;
  }

  /** Whatever the flags, a message that parses is well typed. */
  lemma {:induction false} ParseTyped(flags: seq<string>, data: Fields, desc: Descriptor, res: Resolver)
    requires Resolvable(desc, res) && forall name | name in res :: Resolvable(res[name], res)
    requires TypedFields(data, desc, res) && ParseAll(flags, data, desc, res).Ok?
    ensures TypedFields(ParseAll(flags, data, desc, res).value, desc, res)
    decreases |flags|
  {
    hide TypedFields, Resolvable, ApplyFlag, Blank;
    if flags == [] {
    } else if Blank(flags[0]) {
      ParseTyped(flags[1..], data, desc, res);
    } else {
      ApplyFlagTyped(flags[0], flags[1..], data, desc, res);
      var step := ApplyFlag(flags[0], flags[1..], data, desc, res).value;
      ParseTyped(step.rest, step.data, desc, res);
    }
  }

  // ----- The round trip, for messages without an order -----

  lemma {:induction false} FitsOrdered(entries: seq<Entry>, desc: Descriptor, res: Resolver)
    requires FitsMessage(entries, desc, res)
    ensures OrderedTree(Node(entries))
    decreases entries, 0
  {
    forall i | 0 <= i < |entries| ensures OrderedTree(entries[i].tree) {
      FieldOrdered(entries[i].tree, FindField(desc, entries[i].name).value, res);
    }
  }

  lemma {:induction false} FieldOrdered(t: Tree, f: Field, res: Resolver)
    requires FitsField(t, f, res)
    ensures OrderedTree(t)
    decreases t, 1
  {
    if f.repeated {
      forall i | 0 <= i < |t.elems| ensures OrderedTree(t.elems[i]) {
        TypeOrdered(t.elems[i], f.typ, res);
      }
    } else {
      TypeOrdered(t, f.typ, res);
    }
  }

  lemma {:induction false} TypeOrdered(t: Tree, typ: FieldType, res: Resolver)
    requires FitsType(t, typ, res)
    ensures OrderedTree(t)
    decreases t, 0
  {
    if t.Node? {
      FitsOrdered(t.entries, res[typ.typeName], res);
    }
  }

  /** For every well-typed message and every order of ranging over its maps: the parsed flags are the
      visible part of the message, and the whole message exactly when nothing in it is invisible. */
  lemma RoundTripMessage(entries: seq<Entry>, desc: Descriptor, res: Resolver)
    requires FitsMessage(entries, desc, res)
    ensures ParseAll(EntryFlags(entries, []), map[], desc, res) == Ok(VisiblePart(Msg(ToFields(entries))).fields)
    ensures ParseAll(EntryFlags(entries, []), map[], desc, res) == Ok(ToFields(entries)) <==> SolidEntries(entries)
  {
    RoundTrip(entries, desc, res);
    FitsOrdered(entries, desc, res);
    PruneEntriesAre(entries);
    PruneEntriesExact(entries);
  }

  // ----- From the printer to the parser -----

  /** A value as MarshalUntyped takes it: of the type the descriptor gives it, with names that can stand
      in a flag; lists may be empty. */
  predicate WellTyped(v: Value, typ: FieldType, res: Resolver)
    decreases v, 0
  {
    match v
    case Bool(_) => typ.BoolType?
    case Int(i) => (typ.IntType? && typ.lo <= i <= typ.hi) || (typ.UintType? && 0 <= i <= typ.hi)
    case Str(_) => typ.StringType?
    case Msg(fields) =>
      && typ.MessageType? && typ.typeName in res
      && forall k | k in fields :: WellTypedField(k, fields[k], res[typ.typeName], res)
    case List(_) => false
  }

  predicate WellTypedField(name: string, v: Value, desc: Descriptor, res: Resolver)
    decreases v, 1
  {
    && GoodName(name)
    && FindField(desc, name).Some?
    && var f := FindField(desc, name).value;
       if f.repeated then v.List? && forall i | 0 <= i < |v.elems| :: WellTyped(v.elems[i], f.typ, res)
       else WellTyped(v, f.typ, res)
  }

  predicate WellTypedMessage(fields: Fields, desc: Descriptor, res: Resolver) {
    forall k | k in fields :: WellTypedField(k, fields[k], desc, res)
  }

  lemma {:induction false} FieldAt(entries: seq<Entry>, i: nat)
    requires DistinctNames(entries) && i < |entries|
    ensures entries[i].name in ToFields(entries) && ToFields(entries)[entries[i].name] == ToValue(entries[i].tree)
  {
    if i > 0 {
      FirstName(entries);
      FieldAt(entries[1..], i - 1);
    }
  }

  lemma {:induction false} ElemAt(elems: seq<Tree>, i: nat)
    requires i < |elems|
    ensures i < |ToValues(elems)| && ToValues(elems)[i] == ToValue(elems[i])
  {
    if i > 0 {
      ElemAt(elems[1..], i - 1);
    }
  }

  lemma {:induction false} TypedFits(t: Tree, typ: FieldType, res: Resolver)
    requires OrderedTree(t) && WellTyped(ToValue(t), typ, res)
    ensures FitsType(t, typ, res)
    decreases t, 0
  {
    if t.Node? {
      MessageFits(t.entries, res[typ.typeName], res);
    }
  }

  lemma {:induction false} FieldFits(t: Tree, name: string, desc: Descriptor, res: Resolver)
    requires OrderedTree(t) && WellTypedField(name, ToValue(t), desc, res)
    ensures FitsField(t, FindField(desc, name).value, res)
    decreases t, 1
  {
    var f := FindField(desc, name).value;
    if f.repeated {
      PruneAllLength(t.elems);
      forall i | 0 <= i < |t.elems| ensures FitsType(t.elems[i], f.typ, res) {
        ElemAt(t.elems, i);
        TypedFits(t.elems[i], f.typ, res);
      }
    } else {
      TypedFits(t, f.typ, res);
    }
  }

  lemma {:induction false} MessageFits(entries: seq<Entry>, desc: Descriptor, res: Resolver)
    requires DistinctNames(entries) && forall i | 0 <= i < |entries| :: OrderedTree(entries[i].tree)
    requires WellTypedMessage(ToFields(entries), desc, res)
    ensures FitsMessage(entries, desc, res)
    decreases entries, 0
  {
    forall i | 0 <= i < |entries|
      ensures GoodName(entries[i].name) && FindField(desc, entries[i].name).Some?
      ensures FitsField(entries[i].tree, FindField(desc, entries[i].name).value, res)
    {
      FieldAt(entries, i);
      assert WellTypedField(entries[i].name, ToFields(entries)[entries[i].name], desc, res);
      FieldFits(entries[i].tree, entries[i].name, desc, res);
    }
  }

  /** End to end: whatever flags MarshalUntyped gives for a well-typed message, UnmarshalUntyped makes of
      them the visible part of the message. */
  lemma PrintThenParse(fields: Fields, out: seq<string>, desc: Descriptor, res: Resolver)
    requires WellTypedMessage(fields, desc, res) && FlagsOf(out, fields)
    ensures ParseAll(out, map[], desc, res) == Ok(VisiblePart(Msg(fields)).fields)
  {
    hide ParseAll, EntryFlags, VisiblePart, WellTypedMessage, FitsMessage;
    var t :| ToValue(t) == Msg(fields) && OrderedTree(t) && out == Flags(t, []);
    MessageFits(t.entries, desc, res);
    RoundTripMessage(t.entries, desc, res);
  }

  // ----- From the parser to the printer -----

  /** The names of all fields can stand in a flag. */
  predicate GoodNames(desc: Descriptor) {
    forall i | 0 <= i < |desc| :: GoodName(desc[i].name)
  }

  lemma {:induction false} TypedIsWellTyped(v: Value, typ: FieldType, res: Resolver)
    requires TypedValue(v, typ, res) && forall name | name in res :: GoodNames(res[name])
    ensures WellTyped(v, typ, res)
    decreases v, 0
  {
    if v.Msg? {
      forall k | k in v.fields ensures WellTypedField(k, v.fields[k], res[typ.typeName], res) {
        TypedFieldIsWellTyped(k, v.fields[k], res[typ.typeName], res);
      }
    }
  }

  lemma {:induction false} TypedFieldIsWellTyped(name: string, v: Value, desc: Descriptor, res: Resolver)
    requires FindField(desc, name).Some? && TypedField(v, FindField(desc, name).value, res)
    requires GoodNames(desc) && forall name | name in res :: GoodNames(res[name])
    ensures WellTypedField(name, v, desc, res)
    decreases v, 1
  {
    var f := FindField(desc, name).value;
    var i :| 0 <= i < |desc| && desc[i] == f;
    if f.repeated {
      forall k | 0 <= k < |v.elems| ensures WellTyped(v.elems[k], f.typ, res) {
        TypedIsWellTyped(v.elems[k], f.typ, res);
      }
    } else {
      TypedIsWellTyped(v, f.typ, res);
    }
  }

  /** Whatever flags were parsed, printing the message and parsing it again gives its visible part. */
  lemma ParseThenPrint(flags: seq<string>, out: seq<string>, desc: Descriptor, res: Resolver)
    requires Resolvable(desc, res) && forall name | name in res :: Resolvable(res[name], res)
    requires GoodNames(desc) && forall name | name in res :: GoodNames(res[name])
    requires ParseAll(flags, map[], desc, res).Ok? && FlagsOf(out, ParseAll(flags, map[], desc, res).value)
    ensures ParseAll(out, map[], desc, res) == Ok(VisiblePart(Msg(ParseAll(flags, map[], desc, res).value)).fields)
  {
    hide ParseAll, Resolvable, VisiblePart, FlagsOf, GoodNames;
    var fields := ParseAll(flags, map[], desc, res).value;
    ParseTyped(flags, map[], desc, res);
    forall k | k in fields ensures WellTypedField(k, fields[k], desc, res) {
      TypedFieldIsWellTyped(k, fields[k], desc, res);
    }
    PrintThenParse(fields, out, desc, res);
  }
}
