/** Datastore keys of stored mutations (tumble/model_mutation.go:141-158 and tumble/tumble.go:122-148). */
module TumbleKeys {

  import opened Text

  datatype Element = Element(kind: string, id: string)

  /** A complete datastore key: its elements from the root down. */
  type Path = p: seq<Element> | p != [] witness [Element("", "")]

  /** ds.Key.HasAncestor: a key is its own ancestor. */
  predicate HasAncestor(p: Path, ancestor: Path) {
    ancestor <= p
  }

  /** The root of an entity group: what a key's group is called by. */
  function Group(p: Path): (g: Path)
    ensures |g| == 1 && HasAncestor(p, g)
  {
    p[..1]
  }

  predicate IsRoot(p: Path) {
    |p| == 1
  }

  /** A stored mutation is a child of `parent`, and either anonymous or named. */
  datatype MutKey =
    | Anon(parent: Path, version: nat, round: nat, index: nat)
    | Named(parent: Path, name: string)

  // ----- Rendering -----

  predicate IsHexDigit(c: char) {
    '0' <= c <= '9' || 'a' <= c <= 'f'
  }

  function HexChar(d: nat): (c: char)
    requires d < 16
    ensures IsHexDigit(c) && HexValue(c) == d
  {
    if d < 10 then ('0' as int + d) as char else ('a' as int + d - 10) as char
  }

  function HexValue(c: char): nat
    requires IsHexDigit(c)
  {
    if c <= '9' then c as int - '0' as int else c as int - 'a' as int + 10
  }

  /** `%0<width>x` of a non-negative number: at least `width` digits. */
  function Hex(width: nat, n: nat): (s: string)
    ensures |s| >= width && forall c | c in s :: IsHexDigit(c)
    decreases n, width
  {
    if n == 0 && width == 0 then ""
    else if n < 16 && width <= 1 then [HexChar(n)]
    else Hex(if width == 0 then 0 else width - 1, n / 16) + [HexChar(n % 16)]
  }

  function HexNumber(s: string): nat
    requires forall c | c in s :: IsHexDigit(c)
  {
    if s == "" then 0 else 16 * HexNumber(s[..|s| - 1]) + HexValue(s[|s| - 1])
  }

  lemma {:induction false} HexReads(width: nat, n: nat)
    ensures HexNumber(Hex(width, n)) == n
    decreases n, width
  {
    if !(n < 16 && width <= 1) {
      HexReads(if width == 0 then 0 else width - 1, n / 16);
      var s := Hex(width, n);
      assert s[..|s| - 1] == Hex(if width == 0 then 0 else width - 1, n / 16);
    }
  }

  function PowerOf16(k: nat): nat {
    if k == 0 then 1 else 16 * PowerOf16(k - 1)
  }

  /** Numbers that fit the width are written in exactly so many digits. */
  lemma {:induction false} HexLength(width: nat, n: nat)
    requires width >= 1 && n < PowerOf16(width)
    ensures |Hex(width, n)| == width
    decreases width
  {
    if width > 1 {
      assert n / 16 < PowerOf16(width - 1);
      HexLength(width - 1, n / 16);
    }
  }

  function StringID(k: MutKey): string {
    match k
    case Anon(_, version, round, index) => Join([Hex(16, version), Hex(8, round), Hex(8, index)], '_')
    case Named(_, name) => "n:" + name
  }

  function Render(k: MutKey): Path {
    k.parent + [Element("tumble.Mutation", StringID(k))]
  }

  lemma AnonIDReads(k: MutKey)
    requires k.Anon?
    ensures Split(StringID(k), '_') == [Hex(16, k.version), Hex(8, k.round), Hex(8, k.index)]
    ensures HexNumber(Hex(16, k.version)) == k.version && HexNumber(Hex(8, k.round)) == k.round
    ensures HexNumber(Hex(8, k.index)) == k.index
    ensures k.version < PowerOf16(16) ==> |Hex(16, k.version)| == 16
    ensures k.round < PowerOf16(8) ==> |Hex(8, k.round)| == 8
    ensures k.index < PowerOf16(8) ==> |Hex(8, k.index)| == 8
    ensures 'n' !in StringID(k)
  {
    hide Hex, PowerOf16;
    HexReads(16, k.version);
    HexReads(8, k.round);
    HexReads(8, k.index);
    if k.version < PowerOf16(16) { HexLength(16, k.version); }
    if k.round < PowerOf16(8) { HexLength(8, k.round); }
    if k.index < PowerOf16(8) { HexLength(8, k.index); }
    var parts := [Hex(16, k.version), Hex(8, k.round), Hex(8, k.index)];
    assert AllFree(parts, '_');
    SplitJoin(parts, '_');
    assert StringID(k) == parts[0] + ['_'] + (parts[1] + ['_'] + parts[2]) by {
      assert parts[1..] == [parts[1], parts[2]] && parts[1..][1..] == [parts[2]];
      assert Join(parts[1..], '_') == parts[1] + ['_'] + Join(parts[1..][1..], '_');
    }
  }

  /** Different mutations have different keys: anonymous ones are told apart by version, round and
      position, and none is spelled like a named one. */
  lemma RenderInjective(a: MutKey, b: MutKey)
    ensures Render(a) == Render(b) ==> a == b
  {
    if Render(a) == Render(b) {
      assert a.parent == Render(a)[..|a.parent|] == Render(b)[..|b.parent|] == b.parent;
      assert StringID(a) == Render(a)[|a.parent|].id == Render(b)[|b.parent|].id == StringID(b);
      SameID(a, b);
    }
  }

  lemma SameID(a: MutKey, b: MutKey)
    requires StringID(a) == StringID(b)
    ensures a.Anon? == b.Anon?
    ensures a.Anon? ==> a.version == b.version && a.round == b.round && a.index == b.index
    ensures a.Named? ==> a.name == b.name
  {
    IDKinds(a, b);
    IDKinds(b, a);
    if a.Anon? {
      AnonIDReads(a);
      AnonIDReads(b);
      HexReads(16, a.version);
      HexReads(16, b.version);
      HexReads(8, a.round);
      HexReads(8, b.round);
      HexReads(8, a.index);
      HexReads(8, b.index);
    } else {
      assert a.name == StringID(a)[2..] == StringID(b)[2..] == b.name;
    }
  }

  lemma IDKinds(a: MutKey, b: MutKey)
    ensures a.Anon? && b.Named? ==> StringID(a) != StringID(b)
  {
    if a.Anon? && b.Named? {
      AnonIDReads(a);
      assert 'n' in StringID(b);
    }
  }

  /** A stored mutation is in the entity group its parent is in. */
  lemma GroupOfKey(k: MutKey, root: Path)
    requires IsRoot(root)
    ensures HasAncestor(Render(k), root) <==> Group(k.parent) == root
  {
    assert Render(k)[..1] == Group(k.parent);
    assert HasAncestor(Render(k), root) <==> Render(k)[..1] == root;
  }
}
