/** Parsing flags into a message (client/flagpb/unmarshal.go:50-362). */
module FlagParser {
  import opened Text
  import opened FlagMessages

  datatype Error =
    | FlagExpected | BadFlagSyntax | FieldNotFound | NotAMessage | UnresolvedType
    | ValueExpected | AlreadySet | BadValue

  datatype Result<+T> = Ok(value: T) | Err(error: Error)

  // ----- Pieces of a flag -----

  /** unicode.IsSpace. */
  predicate IsSpace(c: char) {
    '\t' <= c <= '\r' || c == ' ' || c == '\U{85}' || c == '\U{A0}' || c == '\U{1680}' || '\U{2000}' <= c <= '\U{200A}'
    || c == '\U{2028}' || c == '\U{2029}' || c == '\U{202F}' || c == '\U{205F}' || c == '\U{3000}'
  }

  /** strings.TrimSpace(s) == "". */
  predicate Blank(s: string) {
    forall i | 0 <= i < |s| :: IsSpace(s[i])
  }

  /** splitKeyValuePair: the text before the first '=', and the text after it if there is one. */
  function SplitKeyValue(s: string): (string, Option<string>) {
    if s == "" then ("", None)
    else if s[0] == '=' then ("", Some(s[1..]))
    else
      var (key, value) := SplitKeyValue(s[1..]);
      ([s[0]] + key, value)
  }

  /** Strips one or two dashes; a third is an error. */
  function FlagBody(flag: string): Result<string> {
    if flag == "" || flag[0] != '-' then Err(FlagExpected)
    else
      var once := flag[1..];
      var name := if once != "" && once[0] == '-' then once[1..] else once;
      if name != "" && name[0] == '-' then Err(BadFlagSyntax) else Ok(name)
  }

  function ParseBool(s: string): Option<bool> {
    if s in {"1", "t", "T", "TRUE", "true", "True"} then Some(true)
    else if s in {"0", "f", "F", "FALSE", "false", "False"} then Some(false)
    else None
  }

  function ParseFieldValue(s: string, typ: FieldType): Result<Value> {
    match typ
    case BoolType => (match ParseBool(s) case Some(b) => Ok(Bool(b)) case None => Err(BadValue))
    case IntType(lo, hi) => (match ParseInt(s, lo, hi) case Some(i) => Ok(Int(i)) case None => Err(BadValue))
    case UintType(hi) => (match ParseUint(s, hi) case Some(i) => Ok(Int(i)) case None => Err(BadValue))
    case StringType => Ok(Str(s))
    case MessageType(_) => Err(BadValue)
  }

  // ----- Messages at a path -----

  /** The type of the message at the end of a path of message fields. */
  function MessageAt(desc: Descriptor, path: seq<string>, res: Resolver): Result<Descriptor>
    decreases path
  {
    if path == [] then Ok(desc)
    else
      match FindField(desc, path[0])
      case None => Err(FieldNotFound)
      case Some(f) =>
        if !f.typ.MessageType? then Err(NotAMessage)
        else if f.typ.typeName !in res then Err(UnresolvedType)
        else MessageAt(res[f.typ.typeName], path[1..], res)
  }

  /** The message in a field that flags with a longer path go to: the last one if repeated, an empty
      one if there is none yet. */
  function Sub(data: Fields, f: Field): Fields {
    if f.name !in data then map[]
    else
      var v := data[f.name];
      if f.repeated then
        if v.List? && v.elems != [] && v.elems[|v.elems| - 1].Msg? then v.elems[|v.elems| - 1].fields else map[]
      else if v.Msg? then v.fields else map[]
  }

  /** The same field with another message there. */
  function WithSub(data: Fields, f: Field, sub: Fields): Fields {
    if !f.repeated then data[f.name := Msg(sub)]
    else if f.name in data && data[f.name].List? && data[f.name].elems != [] then
      var elems := data[f.name].elems;
      data[f.name := List(elems[..|elems| - 1] + [Msg(sub)])]
    else data[f.name := List([Msg(sub)])]
  }

  /** subMessages: the message at a path. */
  function Get(data: Fields, desc: Descriptor, path: seq<string>, res: Resolver): Fields
    requires MessageAt(desc, path, res).Ok?
    decreases path
  {
    if path == [] then data
    else
      var f := FindField(desc, path[0]).value;
      Get(Sub(data, f), res[f.typ.typeName], path[1..], res)
  }

  /** Replaces the message at a path, creating what is missing on the way. */
  function Update(data: Fields, desc: Descriptor, path: seq<string>, res: Resolver, new_: Fields): Fields
    requires MessageAt(desc, path, res).Ok?
    decreases path
  {
    if path == [] then new_
    else
      var f := FindField(desc, path[0]).value;
      WithSub(data, f, Update(Sub(data, f), res[f.typ.typeName], path[1..], res, new_))
  }

  // ----- One flag -----

  /** Sets a field, or appends to it if it is repeated. */
  function Assign(data: Fields, f: Field, v: Value): Fields {
    if !f.repeated then data[f.name := v]
    else if f.name in data && data[f.name].List? then data[f.name := List(data[f.name].elems + [v])]
    else data[f.name := List([v])]
  }

  /** The value of a flag and the flags after it. The value of a flag without '=' is true for a bool
      field, an empty message for a repeated message field, and the next argument otherwise. */
  function FlagValue(f: Field, valueStr: Option<string>, rest: seq<string>): (r: Result<(Value, seq<string>)>)
    ensures r.Ok? ==> |r.value.1| <= |rest|
  {
    if valueStr.None? && f.typ.BoolType? then Ok((Bool(true), rest))
    else if valueStr.None? && f.typ.MessageType? && f.repeated then Ok((Msg(map[]), rest))
    else if valueStr.None? && rest == [] then Err(ValueExpected)
    else
      var s := if valueStr.Some? then valueStr.value else rest[0];
      match ParseFieldValue(s, f.typ)
      case Err(e) => Err(e)
      case Ok(v) => Ok((v, if valueStr.Some? then rest else rest[1..]))
  }

  datatype Step = Step(rest: seq<string>, data: Fields)

  /** parseOneFlag on a flag that is not blank. */
  function ApplyFlag(flag: string, rest: seq<string>, data: Fields, desc: Descriptor, res: Resolver): (r: Result<Step>)
    ensures r.Ok? ==> |r.value.rest| <= |rest|
  {
    match FlagBody(flag)
    case Err(e) => Err(e)
    case Ok(body) =>
      var (key, valueStr) := SplitKeyValue(body);
      if key == "" then Err(BadFlagSyntax)
      else
        var fieldPath := Split(key, '.');
        var path, name := fieldPath[..|fieldPath| - 1], fieldPath[|fieldPath| - 1];
        match MessageAt(desc, path, res)
        case Err(e) => Err(e)
        case Ok(target) =>
          match FindField(target, name)
          case None => Err(FieldNotFound)
          case Some(f) =>
            var current := Get(data, desc, path, res);
            if valueStr.None? && rest == [] && !f.typ.BoolType? && !(f.typ.MessageType? && f.repeated) then
              Err(ValueExpected)
            else if name in current && !f.repeated then Err(AlreadySet)
            else
              match FlagValue(f, valueStr, rest)
              case Err(e) => Err(e)
              case Ok((v, rest')) => Ok(Step(rest', Update(data, desc, path, res, Assign(current, f, v))))
  }

  /** parse: all flags in order, skipping blank ones. */
  function ParseAll(flags: seq<string>, data: Fields, desc: Descriptor, res: Resolver): Result<Fields>
    decreases |flags|
  {
    if flags == [] then Ok(data)
    else if Blank(flags[0]) then ParseAll(flags[1..], data, desc, res)
    else
      match ApplyFlag(flags[0], flags[1..], data, desc, res)
      case Err(e) => Err(e)
      case Ok(step) => ParseAll(step.rest, step.data, desc, res)
  }

  /** parseOneFlag: skips blank flags, then takes one flag. */
  method ParseOneFlag(flags0: seq<string>, data: Fields, desc: Descriptor, res: Resolver) returns (r: Result<Step>)
    requires flags0 != []
    ensures r.Err? ==> ParseAll(flags0, data, desc, res) == Err(r.error)
    ensures r.Ok? ==> |r.value.rest| < |flags0|
    ensures r.Ok? ==> ParseAll(flags0, data, desc, res) == ParseAll(r.value.rest, r.value.data, desc, res)
  {
    var flags := flags0;
    while |flags| > 0 && Blank(flags[0])
      invariant |flags| <= |flags0|
      invariant ParseAll(flags0, data, desc, res) == ParseAll(flags, data, desc, res)
    {
      flags := flags[1..];
    }
    if |flags| == 0 {
      return Ok(Step(flags, data));
    }
    r := ApplyFlag(flags[0], flags[1..], data, desc, res);
  }

  /** parse (and UnmarshalUntyped): a loop over the flags. */
  method Parse(flags0: seq<string>, desc: Descriptor, res: Resolver) returns (r: Result<Fields>)
    ensures r == ParseAll(flags0, map[], desc, res)
  {
    var flags, root: Fields := flags0, map[];
    while |flags| > 0
      invariant ParseAll(flags0, map[], desc, res) == ParseAll(flags, root, desc, res)
      decreases |flags|
    {
      var step := ParseOneFlag(flags, root, desc, res);
      if step.Err? {
        return Err(step.error);
      }
      flags, root := step.value.rest, step.value.data;
    }
    return Ok(root);
  }
}
