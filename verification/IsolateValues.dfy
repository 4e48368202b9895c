/** Configuration variable values, their order and their map keys (client/isolate/format.go). */
module IsolateValues {
  import opened Ints
  import opened Text

  /** A variableValue: Go keeps at most one of its two pointers non-nil. */
  datatype Value = Unbound | IntValue(i: int) | StrValue(s: CString) {
    predicate IsBound() { !Unbound? }

    /** variableValue.String. */
    function Spelling(): string {
      match this
      case StrValue(s) => s
      case IntValue(i) => Dec(i)
      case Unbound => ""
    }
  }

  function MakeValue(s: CString): Value {
    match Atoi(s)
    case Some(i) => IntValue(i)
    case None => StrValue(s)
  }

  /** A value from the command line is a number if it reads as one in 64 bits, and otherwise a text. */
  lemma MakeValueExactly(s: CString, i: int)
    ensures MakeValue(s) == IntValue(i) <==>
            Numeral(s, i) && -0x8000_0000_0000_0000 <= i < 0x8000_0000_0000_0000
    ensures MakeValue(s).IntValue? || MakeValue(s) == StrValue(s)
  {
    ParseIntExact(s, MIN_INT64, MAX_INT64, i);
  }

  /** variableValue.compare: 1 when l comes before r, -1 when after, 0 when equal. */
  function Compare(l: Value, r: Value): int {
    match l
    case IntValue(i) =>
      (match r
       case IntValue(j) => if i < j then 1 else if i > j then -1 else 0
       case StrValue(_) => 1
       case Unbound => -1)
    case StrValue(s) =>
      (match r
       case StrValue(t) => if Less(s, t) then 1 else if Less(t, s) then -1 else 0
       case _ => -1)
    case Unbound => if r.IsBound() then 1 else 0
  }

  /** No value comes first, then numbers by size, then texts byte by byte. */
  ghost predicate Precedes(l: Value, r: Value) {
    || (l.Unbound? && !r.Unbound?)
    || (l.IntValue? && r.StrValue?)
    || (l.IntValue? && r.IntValue? && l.i < r.i)
    || (l.StrValue? && r.StrValue? && FirstDifference(l.s, r.s))
  }

  lemma CompareExactly(l: Value, r: Value)
    ensures Compare(l, r) == 1 <==> Precedes(l, r)
    ensures Compare(l, r) == -1 <==> Precedes(r, l)
  {
    if l.StrValue? && r.StrValue? {
      LessExactly(l.s, r.s);
      LessExactly(r.s, l.s);
      LessTrichotomy(l.s, r.s);
    }
  }

  lemma CompareZero(l: Value, r: Value)
    ensures Compare(l, r) == 0 <==> l == r
    ensures Compare(l, r) == -Compare(r, l)
  {
    if l.StrValue? && r.StrValue? {
      LessTrichotomy(l.s, r.s);
    }
  }

  lemma CompareTransitive(a: Value, b: Value, c: Value)
    requires Compare(a, b) == 1 && Compare(b, c) == 1
    ensures Compare(a, c) == 1
  {
    if a.StrValue? && b.StrValue? && c.StrValue? {
      LessTransitive(a.s, b.s, c.s);
    }
  }

  /** Go's string(i) for an integer i: the character with that code, or the replacement character. */
  function RuneString(i: int): string {
    if 0 <= i < 0xD800 || 0xE000 <= i < 0x11_0000 then [i as char] else ['\U{FFFD}']
  }

  /** variableValue.key, the index of a value in the set of values of its variable. */
  function ValueKey(v: Value): string {
    match v
    case StrValue(s) => "~" + s
    case IntValue(i) => RuneString(i)
    case Unbound => ""
  }

  predicate HasOwnRune(i: int) {
    0 <= i < 0xD800 || 0xE000 <= i < 0x11_0000
  }

  /** Exactly which different literals share a slot: only one of them survives. */
  lemma ValueKeyClash(v: Value, w: Value)
    requires v.IsBound() && w.IsBound() && v != w
    ensures ValueKey(v) == ValueKey(w) <==>
      || (v.IntValue? && w.IntValue? && (HasOwnRune(v.i) ==> v.i == 0xFFFD) && (HasOwnRune(w.i) ==> w.i == 0xFFFD))
      || (v == IntValue(126) && w == StrValue(""))
      || (w == IntValue(126) && v == StrValue(""))
  {
    if v.StrValue? && w.StrValue? {
      assert ValueKey(v)[1..] == v.s && ValueKey(w)[1..] == w.s;
    } else if v.IntValue? && w.IntValue? {
      assert ValueKey(v)[0] == ValueKey(w)[0] ==> ValueKey(v) == ValueKey(w);
      assert RuneString(v.i)[0] as int == if HasOwnRune(v.i) then v.i else 0xFFFD;
    } else {
      var i, s := if v.IntValue? then v.i else w.i, if v.IntValue? then w.s else v.s;
      if RuneString(i) == "~" + s {
        assert |"~" + s| == 1;
        assert RuneString(i)[0] == '~';
      }
    }
  }

  // ----- Configuration names -----

  /** A configName: one value per configuration variable, in the order of the variables. */
  type Name = seq<Value>

  function CompareNames(l: Name, r: Name): int
    requires |l| == |r|
  {
    if l == [] then 0
    else
      var c := Compare(l[0], r[0]);
      if c != 0 then c else CompareNames(l[1..], r[1..])
  }

  lemma {:induction false} CompareNamesZero(l: Name, r: Name)
    requires |l| == |r|
    ensures CompareNames(l, r) == 0 <==> l == r
    ensures CompareNames(l, r) == -CompareNames(r, l)
    ensures -1 <= CompareNames(l, r) <= 1
  {
    if l != [] {
      CompareZero(l[0], r[0]);
      CompareNamesZero(l[1..], r[1..]);
      assert l == [l[0]] + l[1..] && r == [r[0]] + r[1..];
    }
  }

  lemma {:induction false} CompareNamesTransitive(a: Name, b: Name, c: Name)
    requires |a| == |b| == |c|
    requires CompareNames(a, b) == 1 && CompareNames(b, c) == 1
    ensures CompareNames(a, c) == 1
  {
    if a != [] {
      CompareZero(a[0], b[0]);
      CompareZero(b[0], c[0]);
      CompareZero(a[0], c[0]);
      if a[0] == b[0] && b[0] == c[0] {
        CompareNamesTransitive(a[1..], b[1..], c[1..]);
      } else if a[0] != b[0] && b[0] != c[0] {
        CompareTransitive(a[0], b[0], c[0]);
      }
    }
  }

  const FORALL := "\U{2200}"
  const EXISTS := "\U{2203}"

  function KeyParts(name: Name): seq<string> {
    if name == [] then []
    else if name[0].IsBound() then [EXISTS, name[0].Spelling()] + KeyParts(name[1..])
    else [FORALL] + KeyParts(name[1..])
  }

  /** configName.key, the index of a row in Configs.byConfig. */
  function NameKey(name: Name): string {
    Join(KeyParts(name), '\0')
  }

  /** Equal position by position, except that 1 and "1" are not told apart. */
  ghost predicate SpelledAlike(a: Name, b: Name) {
    && |a| == |b|
    && forall i | 0 <= i < |a| :: a[i].IsBound() == b[i].IsBound() && a[i].Spelling() == b[i].Spelling()
  }

  lemma {:induction false} DecNatDigits(n: nat)
    ensures '\0' !in DecNat(n) && '-' !in DecNat(n)
  {
    assert forall c | c in DecNat(n) :: IsDigit(c);
  }

  lemma {:induction false} KeyPartsFree(name: Name)
    ensures AllFree(KeyParts(name), '\0')
    ensures name != [] ==> KeyParts(name) != []
  {
    if name != [] {
      KeyPartsFree(name[1..]);
      if name[0].IntValue? {
        DecNatDigits(if name[0].i < 0 then -name[0].i else name[0].i);
      }
    }
  }

  lemma {:induction false} KeyPartsAlike(a: Name, b: Name)
    requires |a| == |b|
    ensures KeyParts(a) == KeyParts(b) <==> SpelledAlike(a, b)
  {
    if a != [] {
      KeyPartsAlike(a[1..], b[1..]);
      var p, q := KeyParts(a), KeyParts(b);
      if p == q {
        assert p[0] == q[0];
        assert a[0].IsBound() == b[0].IsBound();
        if a[0].IsBound() {
          assert p[1] == q[1];
          assert p[2..] == KeyParts(a[1..]) && q[2..] == KeyParts(b[1..]);
        } else {
          assert p[1..] == KeyParts(a[1..]) && q[1..] == KeyParts(b[1..]);
        }
        forall i | 0 <= i < |a|
          ensures a[i].IsBound() == b[i].IsBound() && a[i].Spelling() == b[i].Spelling()
        {
          if i > 0 { assert a[1..][i - 1] == a[i] && b[1..][i - 1] == b[i]; }
        }
      }
      if SpelledAlike(a, b) {
        assert SpelledAlike(a[1..], b[1..]);
      }
    }
  }

  /** Two names over the same variables share a row exactly when they are spelled alike. */
  lemma NameKeyAlike(a: Name, b: Name)
    requires |a| == |b|
    ensures NameKey(a) == NameKey(b) <==> SpelledAlike(a, b)
  {
    KeyPartsAlike(a, b);
    if a != [] && NameKey(a) == NameKey(b) {
      KeyPartsFree(a);
      KeyPartsFree(b);
      SplitJoin(KeyParts(a), '\0');
      SplitJoin(KeyParts(b), '\0');
    }
  }

  /** Over the values of a set, two spelled-alike names are the same exactly when no integer of
      the set is spelled like a string of the set. */
  ghost predicate NoLookalike(values: set<Value>) {
    forall v, w | v in values && w in values && v.IntValue? && w.StrValue? :: Dec(v.i) != w.s
  }

  lemma SpellingInjective(values: set<Value>, v: Value, w: Value)
    requires NoLookalike(values) && v in values && w in values
    requires v.IsBound() && w.IsBound() && v.Spelling() == w.Spelling()
    ensures v == w
  {
    if v.IntValue? && w.IntValue? {
      DecInjective(v.i, w.i);
    }
  }
}
