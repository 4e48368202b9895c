/** processedCondition.matchConfigs (client/isolate/format.go:819-855): every partial binding on
    which a condition is decided to be true. */
module IsolateMatch {
  import opened Text
  import opened IsolateValues
  import opened IsolateCondition
  import opened IsolateOdometer

  function Pow2(n: nat): nat {
    if n == 0 then 1 else 2 * Pow2(n - 1)
  }

  /** bits & (1 << i) != 0. */
  predicate Bit(bits: nat, i: nat) {
    if i == 0 then bits % 2 == 1 else Bit(bits / 2, i - 1)
  }

  /** The values of config at the set bits; the other variables are left unbound. */
  function Mask(bits: nat, config: Name): Name {
    seq(|config|, i requires 0 <= i < |config| => if Bit(bits, i) then config[i] else Unbound)
  }

  /** The set of bound positions of a name, as a number. */
  function BoundBits(name: Name): nat {
    if name == [] then 0 else (if name[0].IsBound() then 1 else 0) + 2 * BoundBits(name[1..])
  }

  lemma {:induction false} BoundBitsBelow(name: Name)
    ensures BoundBits(name) < Pow2(|name|)
  {
    if name != [] { BoundBitsBelow(name[1..]); }
  }

  lemma {:induction false} BoundBitsBit(name: Name, i: nat)
    requires i < |name|
    ensures Bit(BoundBits(name), i) <==> name[i].IsBound()
  {
    if i > 0 {
      BoundBitsBit(name[1..], i - 1);
      assert BoundBits(name) / 2 == BoundBits(name[1..]);
    }
  }

  // ----- Names as bindings -----

  type VariableIndex = map<string, nat>

  ghost predicate IndexOf(index: VariableIndex, vars: seq<string>) {
    && (forall x :: x in index <==> x in vars)
    && (forall i | 0 <= i < |vars| :: index[vars[i]] == i)
  }

  lemma {:induction false} SortedCardinality(vars: seq<string>, keys: set<string>)
    requires Sorted(vars) && forall x :: x in keys <==> x in vars
    ensures |keys| == |vars|
  {
    if vars != [] {
      var last := vars[|vars| - 1];
      forall j | 0 <= j < |vars| - 1 ensures vars[j] != last {
        LessTrichotomy(vars[j], last);
      }
      SortedCardinality(vars[..|vars| - 1], keys - {last});
    } else {
      assert keys == {};
    }
  }

  method MakeConfigVariableIndex(vars: seq<string>) returns (index: VariableIndex)
    requires Sorted(vars)
    ensures IndexOf(index, vars)
    ensures |index| == |vars|
  {
    index := map[];
    for i := 0 to |vars|
      invariant forall x :: x in index <==> x in vars[..i]
      invariant forall j | 0 <= j < i :: index[vars[j]] == j
    {
      forall j | 0 <= j < i ensures vars[j] != vars[i] {
        LessTrichotomy(vars[j], vars[i]);
      }
      index := index[vars[i] := i];
    }
    assert vars[..|vars|] == vars;
    SortedCardinality(vars, index.Keys);
    assert |index.Keys| == |index|;
  }

  /** Reading a missing key of a Go map gives 0. */
  function Lookup(index: VariableIndex, name: Name): Binding {
    x => var i := if x in index then index[x] else 0;
         if i < |name| then name[i] else Unbound
  }

  lemma {:induction false} MeaningAgree(e: Expr, b: Binding, c: Binding)
    requires Accepted(e)
    requires forall atom | atom in Equalities(e) :: b(atom.0) == c(atom.0)
    ensures Meaning(e, b) == Meaning(e, c)
  {
    if !Meaning(e, b).Undecided? { MeaningMonotone(e, b, c); }
    if !Meaning(e, c).Undecided? { MeaningMonotone(e, c, b); }
  }

  ghost predicate Matches(e: Expr, index: VariableIndex, name: Name)
    requires Accepted(e)
  {
    Meaning(e, Lookup(index, name)).True?
  }

  // ----- Brute force -----

  ghost predicate IsMask(name: Name, bitsCount: nat, allConfigs: seq<Name>) {
    exists bits, config | 0 <= bits < bitsCount && config in allConfigs :: name == Mask(bits, config)
  }

  /** The rows of okConfigs are matching masks, each under its own key. */
  ghost predicate Found(ok: map<string, Name>, e: Expr, index: VariableIndex, bitsCount: nat, allConfigs: seq<Name>)
    requires Accepted(e)
  {
    forall key | key in ok ::
      NameKey(ok[key]) == key && Matches(e, index, ok[key]) && IsMask(ok[key], bitsCount, allConfigs)
  }

  ghost predicate Covers(ok: map<string, Name>, e: Expr, index: VariableIndex, bits: nat, config: Name)
    requires Accepted(e)
  {
    Matches(e, index, Mask(bits, config)) ==> NameKey(Mask(bits, config)) in ok
  }

  ghost predicate CoversAll(ok: map<string, Name>, e: Expr, index: VariableIndex, bits: nat, allConfigs: seq<Name>)
    requires Accepted(e)
  {
    forall config | config in allConfigs :: Covers(ok, e, index, bits, config)
  }

  method TryMask(e: Expr, index: VariableIndex, boundBits: nat, config: Name, ok: map<string, Name>)
    returns (ok': map<string, Name>)
    requires Accepted(e)
    ensures ok' == if Matches(e, index, Mask(boundBits, config))
                   then ok[NameKey(Mask(boundBits, config)) := Mask(boundBits, config)] else ok
  {
    var getValue: Binding := varName =>
      var i := if varName in index then index[varName] else 0;
      if i < |config| && Bit(boundBits, i) then config[i] else Unbound;
    MeaningAgree(e, getValue, Lookup(index, Mask(boundBits, config)));
    var isTrue := Evaluate(e, getValue);
    if isTrue == Some(true) {
      var okConfig := Mask(boundBits, config);
      return ok[NameKey(okConfig) := okConfig];
    }
    return ok;
  }

  /** The inner loop, over all full configurations. */
  method TryConfigs(e: Expr, index: VariableIndex, boundBits: nat, ghost bitsCount: nat, allConfigs: seq<Name>,
                    start: map<string, Name>)
    returns (ok: map<string, Name>)
    requires Accepted(e) && boundBits < bitsCount
    requires Found(start, e, index, bitsCount, allConfigs)
    ensures Found(ok, e, index, bitsCount, allConfigs)
    ensures CoversAll(ok, e, index, boundBits, allConfigs)
    ensures forall bits :: CoversAll(start, e, index, bits, allConfigs) ==> CoversAll(ok, e, index, bits, allConfigs)
  {
    ok := start;
    for c := 0 to |allConfigs|
      invariant Found(ok, e, index, bitsCount, allConfigs)
      invariant start.Keys <= ok.Keys
      invariant forall i | 0 <= i < c :: Covers(ok, e, index, boundBits, allConfigs[i])
    {
      assert IsMask(Mask(boundBits, allConfigs[c]), bitsCount, allConfigs);
      ok := TryMask(e, index, boundBits, allConfigs[c], ok);
    }
  }

  ghost predicate HasKey(rows: seq<Name>, key: string) {
    exists name | name in rows :: NameKey(name) == key
  }

  /** What matchConfigs may return: one row for every key of a matching partial binding. */
  ghost predicate MatchingRows(rows: seq<Name>, e: Expr, index: VariableIndex, bitsCount: nat, allConfigs: seq<Name>)
    requires Accepted(e)
  {
    && (forall name | name in rows :: Matches(e, index, name) && IsMask(name, bitsCount, allConfigs))
    && (forall name | IsMask(name, bitsCount, allConfigs) && Matches(e, index, name) :: HasKey(rows, NameKey(name)))
    && (forall i, j | 0 <= i < j < |rows| :: NameKey(rows[i]) != NameKey(rows[j]))
  }

  /** The values of a map from keys to names, in any order. */
  ghost predicate NamesOf(out: seq<Name>, ok: map<string, Name>) {
    && (forall name | name in out :: NameKey(name) in ok && ok[NameKey(name)] == name)
    && (forall key | key in ok :: ok[key] in out)
    && (forall i, j | 0 <= i < j < |out| :: NameKey(out[i]) != NameKey(out[j]))
  }

  ghost predicate CoversUpTo(ok: map<string, Name>, e: Expr, index: VariableIndex, n: nat, allConfigs: seq<Name>)
    requires Accepted(e)
  {
    forall bits | 0 <= bits < n :: CoversAll(ok, e, index, bits, allConfigs)
  }

  lemma CoversNone(ok: map<string, Name>, e: Expr, index: VariableIndex, allConfigs: seq<Name>)
    requires Accepted(e)
    ensures CoversUpTo(ok, e, index, 0, allConfigs)
  {
  }

  lemma CoversNext(ok: map<string, Name>, ok': map<string, Name>, e: Expr, index: VariableIndex, n: nat,
                   allConfigs: seq<Name>)
    requires Accepted(e) && CoversUpTo(ok, e, index, n, allConfigs) && CoversAll(ok', e, index, n, allConfigs)
    requires forall bits | 0 <= bits < n ::
               CoversAll(ok, e, index, bits, allConfigs) ==> CoversAll(ok', e, index, bits, allConfigs)
    ensures CoversUpTo(ok', e, index, n + 1, allConfigs)
  {
  }

  lemma CoveredRows(ok: map<string, Name>, out: seq<Name>, e: Expr, index: VariableIndex, bitsCount: nat,
                    allConfigs: seq<Name>)
    requires Accepted(e) && Found(ok, e, index, bitsCount, allConfigs)
    requires CoversUpTo(ok, e, index, bitsCount, allConfigs)
    requires NamesOf(out, ok)
    ensures MatchingRows(out, e, index, bitsCount, allConfigs)
  {
    forall name | IsMask(name, bitsCount, allConfigs) && Matches(e, index, name)
      ensures HasKey(out, NameKey(name))
    {
      var bits, config :| 0 <= bits < bitsCount && config in allConfigs && name == Mask(bits, config);
      assert CoversAll(ok, e, index, bits, allConfigs) && Covers(ok, e, index, bits, config);
      assert ok[NameKey(name)] in out;
    }
  }

  lemma FoundNone(e: Expr, index: VariableIndex, bitsCount: nat, allConfigs: seq<Name>)
    requires Accepted(e)
    ensures Found(map[], e, index, bitsCount, allConfigs)
  {
  }

  lemma FoundKeyed(ok: map<string, Name>, e: Expr, index: VariableIndex, bitsCount: nat, allConfigs: seq<Name>)
    requires Accepted(e) && Found(ok, e, index, bitsCount, allConfigs)
    ensures forall key | key in ok :: NameKey(ok[key]) == key
  {
  }

  /** None is the panic "isolate doesn't scale"; the order of the rows is that of a Go map. */
  method MatchConfigs(e: Expr, index: VariableIndex, allConfigs: seq<Name>) returns (r: Option<seq<Name>>)
    requires Accepted(e)
    ensures r.None? <==> |index| > 60
    ensures r.Some? ==> MatchingRows(r.value, e, index, Pow2(|index|), allConfigs)
  {
    if |index| > 60 {
      return None;
    }
    hide *;
    var boundSubsetsCount := Pow2(|index|);
    var ok: map<string, Name> := map[];
    FoundNone(e, index, boundSubsetsCount, allConfigs);
    CoversNone(ok, e, index, allConfigs);
    for boundBits := 0 to boundSubsetsCount
      invariant Found(ok, e, index, boundSubsetsCount, allConfigs)
      invariant CoversUpTo(ok, e, index, boundBits, allConfigs)
    {
      ghost var before := ok;
      ok := TryConfigs(e, index, boundBits, boundSubsetsCount, allConfigs, ok);
      CoversNext(before, ok, e, index, boundBits, allConfigs);
    }
    FoundKeyed(ok, e, index, boundSubsetsCount, allConfigs);
    var out := ListRows(ok);
    CoveredRows(ok, out, e, index, boundSubsetsCount, allConfigs);
    return Some(out);
  }

  method ListRows(ok: map<string, Name>) returns (out: seq<Name>)
    requires forall key | key in ok :: NameKey(ok[key]) == key
    ensures NamesOf(out, ok)
  {
    out := [];
    var left := ok.Keys;
    while left != {}
      invariant left <= ok.Keys
      invariant forall name | name in out :: NameKey(name) in ok && ok[NameKey(name)] == name && NameKey(name) !in left
      invariant forall key | key in ok :: key in left || ok[key] in out
      invariant forall i, j | 0 <= i < j < |out| :: NameKey(out[i]) != NameKey(out[j])
      decreases |left|
    {
      var key :| key in left;
      out := out + [ok[key]];
      left := left - {key};
    }
  }

  // ----- Over the product of all values -----

  /** A partial binding of the variables to values that occur in conditions. */
  ghost predicate Over(name: Name, sets: ValueSets, vars: seq<string>) {
    && |name| == |vars|
    && forall i | 0 <= i < |vars| :: name[i].Unbound? || name[i] in ValuesOf(sets, vars[i])
  }

  /** A full tuple that agrees with a partial binding where that is bound. */
  lemma {:induction false} Completed(name: Name, sets: ValueSets, vars: seq<string>, n: nat) returns (config: Name)
    requires n <= |vars| && Over(name, sets, vars)
    requires forall i | 0 <= i < |vars| :: ValuesOf(sets, vars[i]) != {}
    ensures |config| == n
    ensures forall i | 0 <= i < n ::
              config[i] in ValuesOf(sets, vars[i]) && (name[i].IsBound() ==> config[i] == name[i])
  {
    if n == 0 {
      config := [];
    } else {
      var before := Completed(name, sets, vars, n - 1);
      var v :| v in ValuesOf(sets, vars[n - 1]);
      config := before + [if name[n - 1].IsBound() then name[n - 1] else v];
    }
  }

  lemma MaskedBack(name: Name, config: Name)
    requires |config| == |name| && forall i | 0 <= i < |name| :: name[i].IsBound() ==> config[i] == name[i]
    ensures 0 <= BoundBits(name) < Pow2(|name|) && name == Mask(BoundBits(name), config)
  {
    BoundBitsBelow(name);
    forall i | 0 <= i < |name| ensures Mask(BoundBits(name), config)[i] == name[i] {
      BoundBitsBit(name, i);
    }
  }

  /** The subsets and tuples tried by matchConfigs are exactly the partial bindings. */
  lemma MasksArePartialBindings(name: Name, sets: ValueSets, vars: seq<string>, allConfigs: seq<Name>)
    requires forall config :: config in allConfigs <==> InProduct(config, sets, vars)
    requires forall i | 0 <= i < |vars| :: ValuesOf(sets, vars[i]) != {}
    ensures IsMask(name, Pow2(|vars|), allConfigs) <==> Over(name, sets, vars)
  {
    if Over(name, sets, vars) {
      hide Pow2, BoundBits, Mask;
      var config := Completed(name, sets, vars, |vars|);
      MaskedBack(name, config);
      assert InProduct(config, sets, vars);
      assert config in allConfigs;
    } else if IsMask(name, Pow2(|vars|), allConfigs) {
      MaskOver(name, sets, vars, Pow2(|vars|), allConfigs);
    }
  }

  lemma MaskOver(name: Name, sets: ValueSets, vars: seq<string>, bitsCount: nat, allConfigs: seq<Name>)
    requires forall config :: config in allConfigs <==> InProduct(config, sets, vars)
    requires IsMask(name, bitsCount, allConfigs)
    ensures Over(name, sets, vars)
  {
    hide Bit;
  }
}
