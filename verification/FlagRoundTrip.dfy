/** Parsing printed flags gives the message back, up to what leaves no trace in the flags. */
module FlagRoundTrip {
  import opened Text
  import opened FlagMessages
  import opened FlagParser

  // ----- Messages at a path behave like a field of the root -----

  lemma SubWithSub(data: Fields, f: Field, sub: Fields)
    ensures Sub(WithSub(data, f, sub), f) == sub
  {
  }

  lemma WithSubTwice(data: Fields, f: Field, a: Fields, b: Fields)
    ensures WithSub(WithSub(data, f, a), f, b) == WithSub(data, f, b)
  {
    if f.repeated {
      var front := if f.name in data && data[f.name].List? && data[f.name].elems != []
                   then data[f.name].elems[..|data[f.name].elems| - 1] else [];
      assert [] + [Msg(a)] == [Msg(a)] && [] + [Msg(b)] == [Msg(b)];
      assert WithSub(data, f, a) == data[f.name := List(front + [Msg(a)])];
      assert (front + [Msg(a)])[..|front|] == front;
      assert WithSub(data, f, b) == data[f.name := List(front + [Msg(b)])];
    }
  }

  lemma {:induction false} GetUpdate(data: Fields, desc: Descriptor, path: seq<string>, res: Resolver, new_: Fields)
    requires MessageAt(desc, path, res).Ok?
    ensures Get(Update(data, desc, path, res, new_), desc, path, res) == new_
    decreases path
  {
    if path != [] {
      var f := FindField(desc, path[0]).value;
      var sub := Update(Sub(data, f), res[f.typ.typeName], path[1..], res, new_);
      SubWithSub(data, f, sub);
      GetUpdate(Sub(data, f), res[f.typ.typeName], path[1..], res, new_);
    }
  }

  lemma {:induction false} UpdateTwice(data: Fields, desc: Descriptor, path: seq<string>, res: Resolver, a: Fields,
                                       b: Fields)
    requires MessageAt(desc, path, res).Ok?
    ensures Update(Update(data, desc, path, res, a), desc, path, res, b) == Update(data, desc, path, res, b)
    decreases path
  {
    if path != [] {
      var f := FindField(desc, path[0]).value;
      var sub := Update(Sub(data, f), res[f.typ.typeName], path[1..], res, a);
      SubWithSub(data, f, sub);
      UpdateTwice(Sub(data, f), res[f.typ.typeName], path[1..], res, a, b);
      WithSubTwice(data, f, sub, Update(Sub(data, f), res[f.typ.typeName], path[1..], res, b));
    }
  }

  lemma {:induction false} MessageAtSnoc(desc: Descriptor, path: seq<string>, name: string, res: Resolver,
                                         target: Descriptor, f: Field)
    requires MessageAt(desc, path, res) == Ok(target) && FindField(target, name) == Some(f)
    requires f.typ.MessageType? && f.typ.typeName in res
    ensures MessageAt(desc, path + [name], res) == Ok(res[f.typ.typeName])
    decreases path
  {
    if path == [] {
      assert [name][1..] == [];
    } else {
      assert (path + [name])[1..] == path[1..] + [name];
      var g := FindField(desc, path[0]).value;
      MessageAtSnoc(res[g.typ.typeName], path[1..], name, res, target, f);
    }
  }

  lemma {:induction false} GetSnoc(data: Fields, desc: Descriptor, path: seq<string>, name: string, res: Resolver,
                                   target: Descriptor, f: Field)
    requires MessageAt(desc, path, res) == Ok(target) && FindField(target, name) == Some(f)
    requires f.typ.MessageType? && f.typ.typeName in res
    ensures MessageAt(desc, path + [name], res) == Ok(res[f.typ.typeName])
    ensures Get(data, desc, path + [name], res) == Sub(Get(data, desc, path, res), f)
    decreases path
  {
    MessageAtSnoc(desc, path, name, res, target, f);
    if path == [] {
      assert [name][1..] == [];
    } else {
      assert (path + [name])[1..] == path[1..] + [name];
      var g := FindField(desc, path[0]).value;
      GetSnoc(Sub(data, g), res[g.typ.typeName], path[1..], name, res, target, f);
    }
  }

  lemma {:induction false} UpdateSnoc(data: Fields, desc: Descriptor, path: seq<string>, name: string, res: Resolver,
                                      target: Descriptor, f: Field, new_: Fields)
    requires MessageAt(desc, path, res) == Ok(target) && FindField(target, name) == Some(f)
    requires f.typ.MessageType? && f.typ.typeName in res
    ensures MessageAt(desc, path + [name], res) == Ok(res[f.typ.typeName])
    ensures Update(data, desc, path + [name], res, new_) ==
            Update(data, desc, path, res, WithSub(Get(data, desc, path, res), f, new_))
    decreases path
  {
    MessageAtSnoc(desc, path, name, res, target, f);
    if path == [] {
      assert [name][1..] == [];
    } else {
      assert (path + [name])[1..] == path[1..] + [name];
      var g := FindField(desc, path[0]).value;
      UpdateSnoc(Sub(data, g), res[g.typ.typeName], path[1..], name, res, target, f, new_);
    }
  }

  // ----- One printed flag -----

  ghost predicate GoodPath(path: seq<string>) {
    path != [] && forall i | 0 <= i < |path| :: GoodName(path[i])
  }

  lemma {:induction false} JoinedName(path: seq<string>)
    requires GoodPath(path)
    ensures var s := Join(path, '.'); s != "" && s[0] == path[0][0] && '=' !in s
  {
    if |path| > 1 {
      assert GoodPath(path[1..]);
      JoinedName(path[1..]);
    }
  }

  lemma {:induction false} SplitKeyValueAt(key: string, value: string)
    requires '=' !in key
    ensures SplitKeyValue(key) == (key, None)
    ensures SplitKeyValue(key + "=" + value) == (key, Some(value))
  {
    if key == "" {
      assert "" + "=" + value == "=" + value;
    } else {
      SplitKeyValueAt(key[1..], value);
      assert (key + "=" + value)[1..] == key[1..] + "=" + value;
      assert key == [key[0]] + key[1..];
    }
  }

  /** A printed flag name is read back as its path. */
  lemma PrintedName(path: seq<string>, value: string)
    requires GoodPath(path)
    ensures !Blank(FlagName(path)) && !Blank(FlagName(path) + "=" + value)
    ensures FlagBody(FlagName(path)) == Ok(Join(path, '.'))
    ensures FlagBody(FlagName(path) + "=" + value) == Ok(Join(path, '.') + "=" + value)
    ensures SplitKeyValue(Join(path, '.')) == (Join(path, '.'), None)
    ensures SplitKeyValue(Join(path, '.') + "=" + value) == (Join(path, '.'), Some(value))
    ensures Join(path, '.') != "" && Split(Join(path, '.'), '.') == path
  {
    JoinedName(path);
    SplitKeyValueAt(Join(path, '.'), value);
    SplitJoin(path, '.');
    var plain := FlagName(path);
    assert plain[0] == '-' && plain[1..] == Join(path, '.');
    assert (plain + "=" + value)[0] == '-' && (plain + "=" + value)[1..] == Join(path, '.') + "=" + value;
    assert !IsSpace(plain[0]) && !IsSpace((plain + "=" + value)[0]);
  }

  /** The field a printed flag is for, the message it is in, and that message's contents. */
  ghost predicate Targets(path: seq<string>, name: string, data: Fields, desc: Descriptor, res: Resolver, f: Field,
                          d: Fields) {
    && GoodPath(path + [name])
    && MessageAt(desc, path, res).Ok?
    && FindField(MessageAt(desc, path, res).value, name) == Some(f)
    && d == Get(data, desc, path, res)
    && (f.repeated || name !in d)
  }

  /** Parsing a flag with its value in the same or the next argument. */
  lemma PrintedFlag(path: seq<string>, name: string, suffix: Option<string>, rest: seq<string>, data: Fields,
                    desc: Descriptor, res: Resolver, f: Field, d: Fields)
    requires Targets(path, name, data, desc, res, f, d)
    requires FlagValue(f, suffix, rest).Ok?
    ensures var flag := FlagName(path + [name]) + (if suffix.Some? then "=" + suffix.value else "");
      var (v, rest') := FlagValue(f, suffix, rest).value;
      ParseAll([flag] + rest, data, desc, res) ==
      ParseAll(rest', Update(data, desc, path, res, Assign(d, f, v)), desc, res)
  {
    hide Update, Get, ParseFieldValue, Assign, Blank, IsSpace;
    var whole := path + [name];
    PrintedName(whole, if suffix.Some? then suffix.value else "");
    var flag := FlagName(whole) + (if suffix.Some? then "=" + suffix.value else "");
    assert suffix.Some? ==> flag == FlagName(whole) + "=" + suffix.value;
    assert suffix.None? ==> flag == FlagName(whole);
    assert whole[..|whole| - 1] == path && whole[|whole| - 1] == name;
    assert ([flag] + rest)[1..] == rest;
    assert ApplyFlag(flag, rest, data, desc, res) ==
      Ok(Step(FlagValue(f, suffix, rest).value.1,
              Update(data, desc, path, res, Assign(d, f, FlagValue(f, suffix, rest).value.0))));
  }

  lemma ParseUintDec(i: nat, hi: int)
    ensures ParseUint(Dec(i), hi) == if i <= hi then Some(i) else None
  {
    ParseDigitsDec(i);
  }

  /** One printed scalar sets its field, or appends to it. */
  lemma ScalarRoundTrip(t: Tree, path: seq<string>, name: string, rest: seq<string>, data: Fields, desc: Descriptor,
                        res: Resolver, f: Field, d: Fields)
    requires Targets(path, name, data, desc, res, f, d)
    requires FitsType(t, f.typ, res) && !t.Node?
    ensures ParseAll(Flags(t, path + [name]) + rest, data, desc, res) ==
            ParseAll(rest, Update(data, desc, path, res, Assign(d, f, Prune(t))), desc, res)
  {
    hide ParseAll, Targets, Update, Assign, Dec, ParseInt, ParseUint;
    var flag := FlagName(path + [name]);
    match t
    case BoolLeaf(b) =>
      PrintedFlag(path, name, if b then None else Some("false"), rest, data, desc, res, f, d);
      assert flag + "" == flag && flag + ("=" + "false") == flag + "=false";
    case IntLeaf(i) =>
      if f.typ.IntType? { ParseIntDec(i, f.typ.lo, f.typ.hi); } else { ParseUintDec(i, f.typ.hi); }
      PrintedFlag(path, name, None, [Dec(i)] + rest, data, desc, res, f, d);
      assert flag + "" == flag && [flag, Dec(i)] + rest == [flag] + ([Dec(i)] + rest);
    case StrLeaf(s) =>
      PrintedFlag(path, name, None, [s] + rest, data, desc, res, f, d);
      assert flag + "" == flag && [flag, s] + rest == [flag] + ([s] + rest);
  }

  // ----- Pruning -----

  lemma {:induction false} PrunedNames(entries: seq<Entry>, name: string)
    ensures name in PruneEntries(entries) ==> exists i | 0 <= i < |entries| :: entries[i].name == name
    ensures AnyVisible(entries) <==> PruneEntries(entries) != map[]
  {
    if entries != [] {
      PrunedNames(entries[1..], name);
      if Visible(entries[0].tree) {
        assert entries[0].name in PruneEntries(entries);
      }
      if name in PruneEntries(entries[1..]) {
        var i :| 0 <= i < |entries[1..]| && entries[1..][i].name == name;
        assert entries[i + 1].name == name;
      }
    }
  }

  // ----- Whole messages -----

  ghost predicate Fresh(entries: seq<Entry>, d: Fields) {
    forall i | 0 <= i < |entries| :: entries[i].name !in d
  }

  ghost predicate At(path: seq<string>, data: Fields, desc: Descriptor, res: Resolver, target: Descriptor, d: Fields) {
    && (path == [] || GoodPath(path))
    && MessageAt(desc, path, res) == Ok(target)
    && d == Get(data, desc, path, res)
  }

  /** The root after a message at a path got new contents, if anything was printed. */
  ghost function After(data: Fields, desc: Descriptor, path: seq<string>, res: Resolver, visible: bool,
                       new_: Fields): Fields
    requires MessageAt(desc, path, res).Ok?
  {
    if visible then Update(data, desc, path, res, new_) else data
  }

  lemma AfterAt(path: seq<string>, data: Fields, desc: Descriptor, res: Resolver, target: Descriptor, d: Fields,
                visible: bool, new_: Fields)
    requires At(path, data, desc, res, target, d)
    ensures At(path, After(data, desc, path, res, visible, new_), desc, res, target, if visible then new_ else d)
  {
    GetUpdate(data, desc, path, res, new_);
  }

  /** A field before the others of its message. */
  lemma JoinEntries(entries: seq<Entry>, d: Fields)
    requires entries != [] && DistinctNames(entries) && Fresh(entries, d)
    ensures var first := entries[0];
      d + PruneEntries(entries) ==
      (if Visible(first.tree) then d[first.name := Prune(first.tree)] else d) + PruneEntries(entries[1..])
  {
    var first := entries[0];
    PrunedNames(entries[1..], first.name);
    forall i | 0 <= i < |entries[1..]| ensures entries[1..][i].name != first.name {
      assert entries[1..][i] == entries[i + 1];
    }
  }

  lemma TailFits(entries: seq<Entry>, desc: Descriptor, res: Resolver, d: Fields, v: Value)
    requires entries != [] && FitsMessage(entries, desc, res) && Fresh(entries, d)
    ensures FitsMessage(entries[1..], desc, res)
    ensures Fresh(entries[1..], d) && Fresh(entries[1..], d[entries[0].name := v])
  {
    forall i | 0 <= i < |entries[1..]| ensures entries[1..][i].name !in d[entries[0].name := v] {
      assert entries[1..][i] == entries[i + 1];
    }
  }

  /** Parsing the printed entries of a message adds exactly their visible part to it. */
  lemma {:induction false} EntriesRoundTrip(entries: seq<Entry>, path: seq<string>, rest: seq<string>, data: Fields,
                                            desc: Descriptor, res: Resolver, target: Descriptor, d: Fields)
    requires At(path, data, desc, res, target, d)
    requires FitsMessage(entries, target, res) && Fresh(entries, d)
    ensures ParseAll(EntryFlags(entries, path) + rest, data, desc, res) ==
            ParseAll(rest, After(data, desc, path, res, AnyVisible(entries), d + PruneEntries(entries)), desc, res)
    decreases entries, 0
  {
    hide ParseAll, Flags, Visible, Prune, Update, FitsField;
    if entries == [] {
      assert [] + rest == rest;
    } else {
      var first := entries[0];
      var f := FindField(target, first.name).value;
      var d1 := if Visible(first.tree) then d[first.name := Prune(first.tree)] else d;
      var data1 := After(data, desc, path, res, Visible(first.tree), d1);
      var tail := EntryFlags(entries[1..], path);
      ConcatAssociative(Flags(first.tree, path + [first.name]), tail, rest);
      FieldRoundTrip(first.tree, path, first.name, tail + rest, data, desc, res, target, f, d);
      AfterAt(path, data, desc, res, target, d, Visible(first.tree), d1);
      TailFits(entries, target, res, d, Prune(first.tree));
      EntriesRoundTrip(entries[1..], path, rest, data1, desc, res, target, d1);
      JoinEntries(entries, d);
      CombineUpdates(data, desc, path, res, Visible(first.tree), d1, AnyVisible(entries[1..]),
                     d + PruneEntries(entries));
      if !AnyVisible(entries[1..]) {
        PrunedNames(entries[1..], "");
        assert d1 + PruneEntries(entries[1..]) == d1;
      }
    }
  }

  lemma CombineUpdates(data: Fields, desc: Descriptor, path: seq<string>, res: Resolver, v: bool, a: Fields, w: bool,
                       b: Fields)
    requires MessageAt(desc, path, res).Ok?
    ensures w ==>
      After(After(data, desc, path, res, v, a), desc, path, res, w, b) == After(data, desc, path, res, true, b)
    ensures !w ==>
      After(After(data, desc, path, res, v, a), desc, path, res, w, b) == After(data, desc, path, res, v, a)
  {
    UpdateTwice(data, desc, path, res, a, b);
  }

  /** Parsing a printed field that is not set yet sets it to its visible part. */
  lemma {:induction false} FieldRoundTrip(t: Tree, path: seq<string>, name: string, rest: seq<string>, data: Fields,
                                          desc: Descriptor, res: Resolver, target: Descriptor, f: Field, d: Fields)
    requires At(path, data, desc, res, target, d)
    requires GoodName(name) && FindField(target, name) == Some(f) && name !in d && FitsField(t, f, res)
    ensures ParseAll(Flags(t, path + [name]) + rest, data, desc, res) ==
            ParseAll(rest, After(data, desc, path, res, Visible(t), d[name := Prune(t)]), desc, res)
    decreases t, 1
  {
    if t.Many? {
      if f.typ.MessageType? {
        FirstMessage(t.elems, path, name, rest, data, desc, res, target, f, d);
      } else {
        ScalarsRoundTrip(t.elems, path, name, rest, data, desc, res, target, f, d);
      }
    } else if t.Node? {
      MessageRoundTrip(t.entries, path, name, rest, data, desc, res, target, f, d);
    } else {
      assert GoodPath(path + [name]);
      ScalarRoundTrip(t, path, name, rest, data, desc, res, f, d);
    }
  }

  /** The entries of the message in a field: for a repeated field, of its last element. */
  lemma {:induction false} SubRoundTrip(entries: seq<Entry>, path: seq<string>, name: string, rest: seq<string>,
                                        data: Fields, desc: Descriptor, res: Resolver, target: Descriptor,
                                        f: Field, d: Fields)
    requires At(path, data, desc, res, target, d)
    requires GoodName(name) && FindField(target, name) == Some(f)
    requires FitsType(Node(entries), f.typ, res) && Sub(d, f) == map[]
    ensures ParseAll(EntryFlags(entries, path + [name]) + rest, data, desc, res) ==
            ParseAll(rest, After(data, desc, path, res, AnyVisible(entries), WithSub(d, f, PruneEntries(entries))),
                     desc, res)
    decreases entries, 1
  {
    var sub := res[f.typ.typeName];
    GetSnoc(data, desc, path, name, res, target, f);
    UpdateSnoc(data, desc, path, name, res, target, f, PruneEntries(entries));
    assert GoodPath(path + [name]);
    EntriesRoundTrip(entries, path + [name], rest, data, desc, res, sub, map[]);
    assert map[] + PruneEntries(entries) == PruneEntries(entries);
  }

  lemma {:induction false} MessageRoundTrip(entries: seq<Entry>, path: seq<string>, name: string, rest: seq<string>,
                                            data: Fields, desc: Descriptor, res: Resolver, target: Descriptor,
                                            f: Field, d: Fields)
    requires At(path, data, desc, res, target, d)
    requires GoodName(name) && FindField(target, name) == Some(f) && name !in d && FitsField(Node(entries), f, res)
    ensures ParseAll(Flags(Node(entries), path + [name]) + rest, data, desc, res) ==
            ParseAll(rest, After(data, desc, path, res, Visible(Node(entries)), d[name := Prune(Node(entries))]), desc,
                     res)
    decreases entries, 2
  {
    SubRoundTrip(entries, path, name, rest, data, desc, res, target, f, d);
  }

  // ----- Lists -----

  function Elems(d: Fields, name: string): seq<Value> {
    if name in d && d[name].List? then d[name].elems else []
  }

  /** Printed scalars are appended one by one. */
  lemma {:induction false} AppendScalars(elems: seq<Tree>, path: seq<string>, name: string, rest: seq<string>,
                                         data: Fields, desc: Descriptor, res: Resolver, target: Descriptor,
                                         f: Field, d: Fields)
    requires At(path, data, desc, res, target, d)
    requires GoodName(name) && FindField(target, name) == Some(f) && f.repeated && !f.typ.MessageType?
    requires forall i | 0 <= i < |elems| :: FitsType(elems[i], f.typ, res)
    requires name in d ==> d[name].List?
    ensures ParseAll(ListFlags(elems, path + [name], false) + rest, data, desc, res) ==
            ParseAll(rest, After(data, desc, path, res, elems != [], d[name := List(Elems(d, name) + PruneAll(elems))]),
                     desc, res)
  {
    hide ParseAll, At, Update, Flags, FitsType;
    if elems == [] {
      assert [] + rest == rest;
    } else {
      var first := elems[0];
      var tail := ListFlags(elems[1..], path + [name], false);
      var d1 := d[name := List(Elems(d, name) + [Prune(first)])];
      assert !first.Node? by { NotNode(first, f.typ, res); }
      assert [] + Flags(first, path + [name]) + tail + rest == Flags(first, path + [name]) + (tail + rest);
      AtTargets(path, name, data, desc, res, target, f, d);
      ScalarRoundTrip(first, path, name, tail + rest, data, desc, res, f, d);
      AssignAppends(d, f, Prune(first));
      AfterAt(path, data, desc, res, target, d, true, d1);
      AppendScalars(elems[1..], path, name, rest, After(data, desc, path, res, true, d1), desc, res, target, f, d1);
      AppendFirst(elems, d, name);
      CombineUpdates(data, desc, path, res, true, d1, elems[1..] != [],
                     d[name := List(Elems(d, name) + PruneAll(elems))]);
    }
  }

  lemma AppendFirst(elems: seq<Tree>, d: Fields, name: string)
    requires elems != []
    ensures var d1 := d[name := List(Elems(d, name) + [Prune(elems[0])])];
      var all := d[name := List(Elems(d, name) + PruneAll(elems))];
      && d1[name := List(Elems(d1, name) + PruneAll(elems[1..]))] == all
      && (elems[1..] == [] ==> d1 == all)
  {
    assert Elems(d, name) + [Prune(elems[0])] + PruneAll(elems[1..]) == Elems(d, name) + PruneAll(elems);
    if elems[1..] == [] {
      assert PruneAll(elems) == [Prune(elems[0])];
    }
  }

  lemma ManyFits(elems: seq<Tree>, f: Field, res: Resolver)
    requires FitsField(Many(elems), f, res)
    ensures f.repeated && forall i | 0 <= i < |elems| :: FitsType(elems[i], f.typ, res)
  {
  }

  lemma NotNode(t: Tree, typ: FieldType, res: Resolver)
    requires FitsType(t, typ, res) && !typ.MessageType?
    ensures !t.Node?
  {
  }

  lemma IsNode(t: Tree, typ: FieldType, res: Resolver)
    requires FitsType(t, typ, res) && typ.MessageType?
    ensures t.Node? && t == Node(t.entries)
  {
  }

  lemma AtTargets(path: seq<string>, name: string, data: Fields, desc: Descriptor, res: Resolver, target: Descriptor,
                  f: Field, d: Fields)
    requires At(path, data, desc, res, target, d)
    requires GoodName(name) && FindField(target, name) == Some(f) && (f.repeated || name !in d)
    ensures Targets(path, name, data, desc, res, f, d) && MessageAt(desc, path, res).Ok? && f.name == name
  {
  }

  lemma AssignAppends(d: Fields, f: Field, v: Value)
    requires f.repeated && (f.name in d ==> d[f.name].List?)
    ensures Assign(d, f, v) == d[f.name := List(Elems(d, f.name) + [v])]
  {
    assert [] + [v] == [v];
  }

  lemma {:induction false} ScalarsRoundTrip(elems: seq<Tree>, path: seq<string>, name: string, rest: seq<string>,
                                            data: Fields, desc: Descriptor, res: Resolver, target: Descriptor,
                                            f: Field, d: Fields)
    requires At(path, data, desc, res, target, d)
    requires GoodName(name) && FindField(target, name) == Some(f) && name !in d && !f.typ.MessageType?
    requires FitsField(Many(elems), f, res)
    ensures ParseAll(Flags(Many(elems), path + [name]) + rest, data, desc, res) ==
            ParseAll(rest, After(data, desc, path, res, Visible(Many(elems)), d[name := Prune(Many(elems))]), desc, res)
    decreases elems, 1
  {
    AppendScalars(elems, path, name, rest, data, desc, res, target, f, d);
    if elems != [] {
      assert Visible(elems[0]);
      assert [] + PruneAll(elems) == PruneElems(elems);
    }
  }

  /** Every message after the first is started by the bare flag, so it is kept even if empty. */
  lemma {:induction false} MoreMessages(elems: seq<Tree>, path: seq<string>, name: string, rest: seq<string>,
                                        data: Fields, desc: Descriptor, res: Resolver, target: Descriptor,
                                        f: Field, d: Fields)
    requires At(path, data, desc, res, target, d)
    requires GoodName(name) && FindField(target, name) == Some(f) && f.repeated && f.typ.MessageType?
    requires forall i | 0 <= i < |elems| :: FitsType(elems[i], f.typ, res)
    requires name in d ==> d[name].List?
    ensures ParseAll(ListFlags(elems, path + [name], true) + rest, data, desc, res) ==
            ParseAll(rest, After(data, desc, path, res, elems != [], d[name := List(Elems(d, name) + PruneAll(elems))]),
                     desc, res)
    decreases elems, 0
  {
    hide ParseAll, At, Update, FitsType, WithSub, Sub, Assign;
    if elems == [] {
      assert [] + rest == rest;
    } else {
      var first := elems[0];
      var whole := path + [name];
      var tail := ListFlags(elems[1..], whole, true);
      var d0 := d[name := List(Elems(d, name) + [Msg(map[])])];
      var d1 := d[name := List(Elems(d, name) + [Prune(first)])];
      AtTargets(path, name, data, desc, res, target, f, d);
      var data0 := After(data, desc, path, res, true, d0);
      IsNode(first, f.typ, res);
      ConcatAssociative([FlagName(whole)], Flags(first, whole), tail);
      ConcatAssociative([FlagName(whole)], Flags(first, whole) + tail, rest);
      ConcatAssociative(Flags(first, whole), tail, rest);
      PrintedFlag(path, name, None, Flags(first, whole) + (tail + rest), data, desc, res, f, d);
      assert FlagName(whole) + "" == FlagName(whole);
      AssignAppends(d, f, Msg(map[]));
      AfterAt(path, data, desc, res, target, d, true, d0);
      FillLast(d, f, Elems(d, name), PruneEntries(first.entries));
      SubRoundTrip(first.entries, path, name, tail + rest, data0, desc, res, target, f, d0);
      PrunedNames(first.entries, "");
      CombineUpdates(data, desc, path, res, true, d0, AnyVisible(first.entries), d1);
      var data1 := After(data, desc, path, res, true, d1);
      AfterAt(path, data, desc, res, target, d, true, d1);
      MoreMessages(elems[1..], path, name, rest, data1, desc, res, target, f, d1);
      AppendFirst(elems, d, name);
      CombineUpdates(data, desc, path, res, true, d1, elems[1..] != [],
                     d[name := List(Elems(d, name) + PruneAll(elems))]);
    }
  }

  lemma FillLast(d: Fields, f: Field, front: seq<Value>, sub: Fields)
    requires f.repeated
    ensures Sub(d[f.name := List(front + [Msg(map[])])], f) == map[]
    ensures WithSub(d[f.name := List(front + [Msg(map[])])], f, sub) == d[f.name := List(front + [Msg(sub)])]
  {
    assert (front + [Msg(map[])])[..|front|] == front;
  }

  lemma FirstPruned(elems: seq<Tree>, d: Fields, name: string)
    requires elems != [] && name !in d
    ensures var d1 := if Visible(elems[0]) then d[name := List([Prune(elems[0])])] else d;
      && d1[name := List(Elems(d1, name) + PruneAll(elems[1..]))] == d[name := Prune(Many(elems))]
      && (elems[1..] == [] && Visible(elems[0]) ==> d1 == d[name := Prune(Many(elems))])
  {
    var d1 := if Visible(elems[0]) then d[name := List([Prune(elems[0])])] else d;
    assert Elems(d1, name) + PruneAll(elems[1..]) == PruneElems(elems);
    if elems[1..] == [] && Visible(elems[0]) {
      assert [Prune(elems[0])] + PruneAll([]) == [Prune(elems[0])];
    }
  }

  lemma SingleMessage(d: Fields, f: Field, entries: seq<Entry>)
    requires f.name !in d && f.repeated
    ensures WithSub(d, f, PruneEntries(entries)) == d[f.name := List([Prune(Node(entries))])] && Sub(d, f) == map[]
  {
  }

  lemma NoFlags(path: seq<string>)
    ensures ListFlags([], path, false) == []
  {
  }

  lemma ManyFlags(elems: seq<Tree>, path: seq<string>)
    requires elems != [] && elems[0].Node?
    ensures Flags(Many(elems), path) == Flags(elems[0], path) + ListFlags(elems[1..], path, true)
  {
    assert [] + Flags(elems[0], path) == Flags(elems[0], path);
  }

  lemma {:induction false} FirstMessage(elems: seq<Tree>, path: seq<string>, name: string, rest: seq<string>,
                                        data: Fields, desc: Descriptor, res: Resolver, target: Descriptor,
                                        f: Field, d: Fields)
    requires At(path, data, desc, res, target, d)
    requires GoodName(name) && FindField(target, name) == Some(f) && name !in d && f.typ.MessageType?
    requires FitsField(Many(elems), f, res)
    ensures ParseAll(Flags(Many(elems), path + [name]) + rest, data, desc, res) ==
            ParseAll(rest, After(data, desc, path, res, Visible(Many(elems)), d[name := Prune(Many(elems))]), desc, res)
    decreases elems, 1
  {
    hide ParseAll, At, Update, FitsType, FitsField, Prune, Elems, ListFlags;
    ManyFits(elems, f, res);
    if elems == [] {
      assert ListFlags(elems, path + [name], false) == [] by { NoFlags(path + [name]); }
      assert [] + rest == rest;
    } else {
      var first := elems[0];
      var whole := path + [name];
      var tail := ListFlags(elems[1..], whole, true);
      var d1 := if Visible(first) then d[name := List([Prune(first)])] else d;
      IsNode(first, f.typ, res);
      AtTargets(path, name, data, desc, res, target, f, d);
      ManyFlags(elems, whole);
      ConcatAssociative(Flags(first, whole), tail, rest);
      SingleMessage(d, f, first.entries);
      SubRoundTrip(first.entries, path, name, tail + rest, data, desc, res, target, f, d);
      AfterAt(path, data, desc, res, target, d, Visible(first), d1);
      MoreMessages(elems[1..], path, name, rest, After(data, desc, path, res, Visible(first), d1), desc, res, target, f,
                   d1);
      FirstPruned(elems, d, name);
      CombineUpdates(data, desc, path, res, Visible(first), d1, elems[1..] != [], d[name := Prune(Many(elems))]);
    }
  }

  /** Parsing the flags of a message gives back exactly its visible part, in whatever order the maps
      were ranged over. */
  lemma RoundTrip(entries: seq<Entry>, desc: Descriptor, res: Resolver)
    requires FitsMessage(entries, desc, res)
    ensures ParseAll(EntryFlags(entries, []), map[], desc, res) == Ok(PruneEntries(entries))
  {
    EntriesRoundTrip(entries, [], [], map[], desc, res, desc, map[]);
    assert EntryFlags(entries, []) + [] == EntryFlags(entries, []);
    assert map[] + PruneEntries(entries) == PruneEntries(entries);
    PrunedNames(entries, "");
  }
}
