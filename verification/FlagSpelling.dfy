/** What flags mean that are written by hand, in terms of their texts (client/flagpb/unmarshal.go:80-362). */
module FlagSpelling {
  import opened Text
  import opened FlagMessages
  import opened FlagParser
  import opened FlagRoundTrip

  // ----- Values -----

  predicate SpellsTrue(s: string) {
    s == "1" || s == "t" || s == "T" || s == "TRUE" || s == "true" || s == "True"
  }

  predicate SpellsFalse(s: string) {
    s == "0" || s == "f" || s == "F" || s == "FALSE" || s == "false" || s == "False"
  }

  /** The text spells this value of a scalar type. */
  ghost predicate Spells(s: string, typ: FieldType, v: Value) {
    || (typ.BoolType? && ((v == Bool(true) && SpellsTrue(s)) || (v == Bool(false) && SpellsFalse(s))))
    || (typ.IntType? && v.Int? && Numeral(s, v.i) && typ.lo <= v.i <= typ.hi)
    || (typ.UintType? && v.Int? && s != "" && AllDigits(s) && v.i == NumberOf(s) && v.i <= typ.hi)
    || (typ.StringType? && v == Str(s))
  }

  ghost predicate SpellsNothing(s: string, typ: FieldType) {
    forall v :: !Spells(s, typ, v)
  }

  lemma ValueSpelled(s: string, typ: FieldType, v: Value)
    ensures ParseFieldValue(s, typ) == Ok(v) <==> Spells(s, typ, v)
  {
    match typ
    case BoolType =>
    case IntType(lo, hi) =>
      if v.Int? { ParseIntExact(s, lo, hi, v.i); }
    case UintType(hi) =>
      if v.Int? { ParseUintExact(s, hi, v.i); }
    case StringType =>
    case MessageType(_) =>
  }

  lemma NotSpelled(s: string, typ: FieldType)
    requires SpellsNothing(s, typ)
    ensures ParseFieldValue(s, typ) == Err(BadValue)
  {
    if ParseFieldValue(s, typ).Ok? {
      ValueSpelled(s, typ, ParseFieldValue(s, typ).value);
      assert false;
    }
  }

  // ----- Flags -----

  /** Every protobuf identifier is a name as the syntax of flags needs it. */
  lemma IdentifierIsGood(name: string)
    requires name != ""
    requires forall c | c in name :: c == '_' || 'a' <= c <= 'z' || 'A' <= c <= 'Z' || '0' <= c <= '9'
    ensures GoodName(name)
  {
    assert name[0] in name;
  }

  predicate IsDashes(dashes: string) {
    dashes == "-" || dashes == "--"
  }

  /** A flag for the field at the end of a path, without a value or with it. */
  function Spelled(dashes: string, path: seq<string>, suffix: Option<string>): string {
    dashes + Join(path, '.') + match suffix case None => "" case Some(s) => "=" + s
  }

  /** A field with a value set, or appended if it is repeated. */
  function SetOrAppended(d: Fields, f: Field, v: Value): Fields {
    if !f.repeated then d[f.name := v]
    else if f.name in d && d[f.name].List? then d[f.name := List(d[f.name].elems + [v])]
    else d[f.name := List([v])]
  }

  lemma SpelledName(dashes: string, path: seq<string>, suffix: Option<string>)
    requires IsDashes(dashes) && GoodPath(path)
    ensures var flag := Spelled(dashes, path, suffix);
      && !Blank(flag) && FlagBody(flag).Ok?
      && SplitKeyValue(FlagBody(flag).value) == (Join(path, '.'), suffix)
    ensures Join(path, '.') != "" && Split(Join(path, '.'), '.') == path
  {
    hide Join, Split;
    var key, flag := Join(path, '.'), Spelled(dashes, path, suffix);
    var body := key + match suffix case None => "" case Some(s) => "=" + s;
    JoinedName(path);
    SplitJoin(path, '.');
    SplitKeyValueAt(key, if suffix.Some? then suffix.value else "");
    assert if suffix.Some? then body == key + "=" + suffix.value else body == key;
    assert GoodName(path[0]);
    assert flag == dashes + body;
    assert flag[0] == '-' && !IsSpace(flag[0]) && body[0] == key[0];
    if dashes == "-" {
      assert flag[1..] == body;
    } else {
      assert flag[1..] == "-" + body && flag[1..][1..] == body;
    }
  }

  /** A flag is taken apart as it is spelled: the field, the message it is in, and its contents. */
  ghost predicate AimsAt(path: seq<string>, name: string, data: Fields, desc: Descriptor, res: Resolver, f: Field,
                         d: Fields) {
    && GoodPath(path + [name])
    && MessageAt(desc, path, res).Ok?
    && FindField(MessageAt(desc, path, res).value, name) == Some(f)
    && d == Get(data, desc, path, res)
  }

  lemma Applied(dashes: string, path: seq<string>, name: string, suffix: Option<string>, rest: seq<string>,
                data: Fields, desc: Descriptor, res: Resolver, f: Field, d: Fields)
    requires IsDashes(dashes) && AimsAt(path, name, data, desc, res, f, d)
    ensures var flag := Spelled(dashes, path + [name], suffix);
      && !Blank(flag)
      && ApplyFlag(flag, rest, data, desc, res) ==
         if suffix.None? && rest == [] && !f.typ.BoolType? && !(f.typ.MessageType? && f.repeated)
         then Err(ValueExpected)
         else if name in d && !f.repeated then Err(AlreadySet)
         else if FlagValue(f, suffix, rest).Err? then Err(FlagValue(f, suffix, rest).error)
         else
           var (v, rest') := FlagValue(f, suffix, rest).value;
           Ok(Step(rest', Update(data, desc, path, res, Assign(d, f, v))))
  {
    hide Update, Get, FlagValue, Assign, Blank, Spelled, FlagBody, SplitKeyValue, Join, Split, MessageAt;
    var whole := path + [name];
    SpelledName(dashes, whole, suffix);
    assert whole[..|whole| - 1] == path && whole[|whole| - 1] == name;
  }

  /** `-name=text`, and `-name text` unless it is a bool, with one or two dashes, sets the field to the value that
      the text spells, or appends it. */
  lemma FlagSets(dashes: string, path: seq<string>, name: string, s: string, v: Value, separate: bool,
                 rest: seq<string>, data: Fields, desc: Descriptor, res: Resolver, f: Field, d: Fields)
    requires IsDashes(dashes) && AimsAt(path, name, data, desc, res, f, d) && (name in d ==> f.repeated)
    requires Spells(s, f.typ, v) && (separate ==> !f.typ.BoolType?)
    ensures var flags := if separate then [Spelled(dashes, path + [name], None), s]
                         else [Spelled(dashes, path + [name], Some(s))];
      ParseAll(flags + rest, data, desc, res)
      == ParseAll(rest, Update(data, desc, path, res, SetOrAppended(d, f, v)), desc, res)
  {
    hide Update, Get, ParseFieldValue, Blank, Spelled, Spells, ApplyFlag;
    ValueSpelled(s, f.typ, v);
    NoMessage(s, f.typ, v);
    var suffix := if separate then None else Some(s);
    var flag, tail := Spelled(dashes, path + [name], suffix), if separate then [s] + rest else rest;
    Applied(dashes, path, name, suffix, tail, data, desc, res, f, d);
    assert tail == [s] + rest ==> tail[1..] == rest && tail[0] == s;
    assert ([flag] + tail)[1..] == tail;
    assert (if separate then [flag, s] else [flag]) + rest == [flag] + tail;
  }

  lemma NoMessage(s: string, typ: FieldType, v: Value)
    requires Spells(s, typ, v)
    ensures !typ.MessageType?
  {
  }

  /** `-name` alone is true for a bool, and an empty message for a repeated message. */
  lemma BareFlagSets(dashes: string, path: seq<string>, name: string, rest: seq<string>, data: Fields, desc: Descriptor,
                     res: Resolver, f: Field, d: Fields)
    requires IsDashes(dashes) && AimsAt(path, name, data, desc, res, f, d) && (name in d ==> f.repeated)
    requires f.typ.BoolType? || (f.typ.MessageType? && f.repeated)
    ensures var v := if f.typ.BoolType? then Bool(true) else Msg(map[]);
      ParseAll([Spelled(dashes, path + [name], None)] + rest, data, desc, res)
      == ParseAll(rest, Update(data, desc, path, res, SetOrAppended(d, f, v)), desc, res)
  {
    hide Update, Get, ParseFieldValue, Blank, Spelled, ApplyFlag;
    var flag := Spelled(dashes, path + [name], None);
    Applied(dashes, path, name, None, rest, data, desc, res, f, d);
    assert ([flag] + rest)[1..] == rest;
  }

  /** The first thing that is wrong with a flag for an existing field: it has no value where it needs one, or
      the field is set and not repeated, or the text spells no value of its type. */
  lemma FlagFails(dashes: string, path: seq<string>, name: string, suffix: Option<string>, rest: seq<string>,
                  data: Fields, desc: Descriptor, res: Resolver, f: Field, d: Fields)
    requires IsDashes(dashes) && AimsAt(path, name, data, desc, res, f, d)
    ensures var r := ParseAll([Spelled(dashes, path + [name], suffix)] + rest, data, desc, res);
      var bare := suffix.None? && (f.typ.BoolType? || (f.typ.MessageType? && f.repeated));
      && (!bare && suffix.None? && rest == [] ==> r == Err(ValueExpected))
      && (bare || suffix.Some? || rest != [] ==>
            && (name in d && !f.repeated ==> r == Err(AlreadySet))
            && (!bare && (name in d ==> f.repeated) ==>
                  (SpellsNothing(if suffix.Some? then suffix.value else rest[0], f.typ) ==> r == Err(BadValue))))
  {
    hide Update, Get, ParseFieldValue, Blank, Spelled, SpellsNothing, ApplyFlag;
    var flag := Spelled(dashes, path + [name], suffix);
    Applied(dashes, path, name, suffix, rest, data, desc, res, f, d);
    assert ([flag] + rest)[1..] == rest;
    if suffix.Some? || rest != [] {
      var s := if suffix.Some? then suffix.value else rest[0];
      if SpellsNothing(s, f.typ) {
        NotSpelled(s, f.typ);
      }
    }
  }

  // ----- What is not a flag for a field -----

  predicate AllSpaces(s: string) {
    forall i | 0 <= i < |s| :: IsSpaceCharacter(s[i] as int)
  }

  lemma BlankExactly(s: string)
    ensures Blank(s) <==> AllSpaces(s)
  {
    assert forall i | 0 <= i < |s| :: IsSpace(s[i]) <==> IsSpaceCharacter(s[i] as int);
  }

  /** Arguments of white space are skipped; others have to start with one or two dashes and a name. */
  lemma NotAFlag(arg: string, rest: seq<string>, data: Fields, desc: Descriptor, res: Resolver)
    ensures AllSpaces(arg) ==> ParseAll([arg] + rest, data, desc, res) == ParseAll(rest, data, desc, res)
    ensures !AllSpaces(arg) && !("-" <= arg) ==> ParseAll([arg] + rest, data, desc, res) == Err(FlagExpected)
    ensures "---" <= arg ==> ParseAll([arg] + rest, data, desc, res) == Err(BadFlagSyntax)
    ensures arg == "-" || arg == "--" || "-=" <= arg || "--=" <= arg ==>
      ParseAll([arg] + rest, data, desc, res) == Err(BadFlagSyntax)
  {
    hide Update, Get, MessageAt, FindField;
    BlankExactly(arg);
    assert ([arg] + rest)[1..] == rest;
    if "-" <= arg {
      assert arg[0] == '-' && !IsSpace(arg[0]) && !Blank(arg);
      if arg == "--" || "--=" <= arg {
        assert arg[1..] == "-" + arg[2..] && arg[1..][1..] == arg[2..];
      }
    }
  }

  /** A name that is not in the message, or a path through a field that is not a message, is an error. */
  lemma NoSuchField(dashes: string, path: seq<string>, name: string, suffix: Option<string>, rest: seq<string>,
                    data: Fields, desc: Descriptor, res: Resolver)
    requires IsDashes(dashes) && GoodPath(path + [name])
    ensures var r := ParseAll([Spelled(dashes, path + [name], suffix)] + rest, data, desc, res);
      match MessageAt(desc, path, res)
      case Err(e) => r == Err(e)
      case Ok(target) => (forall f | f in target :: f.name != name) ==> r == Err(FieldNotFound)
  {
    hide Update, Get, Blank, Spelled, FlagBody, SplitKeyValue, Join, Split, MessageAt;
    var whole, flag := path + [name], Spelled(dashes, path + [name], suffix);
    SpelledName(dashes, whole, suffix);
    assert whole[..|whole| - 1] == path && whole[|whole| - 1] == name;
    assert ([flag] + rest)[1..] == rest;
  }

  /** What is wrong with a path: the first name on it that is not a field, or not a message, or whose type is not
      known. */
  lemma {:induction false} PathFails(desc: Descriptor, path: seq<string>, name: string, more: seq<string>,
                                     res: Resolver)
    requires MessageAt(desc, path, res).Ok?
    ensures var target := MessageAt(desc, path, res).value;
      match FindField(target, name)
      case None => MessageAt(desc, path + [name] + more, res) == Err(FieldNotFound)
      case Some(f) =>
        if !f.typ.MessageType? then MessageAt(desc, path + [name] + more, res) == Err(NotAMessage)
        else if f.typ.typeName !in res then MessageAt(desc, path + [name] + more, res) == Err(UnresolvedType)
        else MessageAt(desc, path + [name] + more, res) == MessageAt(res[f.typ.typeName], more, res)
    decreases path
  {
    var whole := path + [name] + more;
    if path == [] {
      assert whole[0] == name && whole[1..] == more;
    } else {
      assert whole[0] == path[0] && whole[1..] == path[1..] + [name] + more;
      var g := FindField(desc, path[0]).value;
      PathFails(res[g.typ.typeName], path[1..], name, more, res);
    }
  }

  /** The field found is the first one of its name. */
  lemma {:induction false} FieldFound(desc: Descriptor, name: string)
    ensures match FindField(desc, name)
      case None => forall f | f in desc :: f.name != name
      case Some(f) => exists i | 0 <= i < |desc| ::
        desc[i] == f && f.name == name && forall j | 0 <= j < i :: desc[j].name != name
  {
    if desc != [] && desc[0].name != name {
      FieldFound(desc[1..], name);
      if FindField(desc, name).Some? {
        var f := FindField(desc, name).value;
        var i :| 0 <= i < |desc[1..]| && desc[1..][i] == f && f.name == name
          && forall j | 0 <= j < i :: desc[1..][j].name != name;
        assert desc[i + 1] == f;
        forall j | 0 <= j < i + 1 ensures desc[j].name != name {
          assert j > 0 ==> desc[j] == desc[1..][j - 1];
        }
      }
    }
  }
}
