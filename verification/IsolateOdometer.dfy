/** variablesValuesSet.cartesianProductOfValues (client/isolate/format.go:622-668): an odometer
    whose first wheel turns fastest. */
module IsolateOdometer {
  import opened Text
  import opened IsolateValues
  import opened IsolateCondition

  // ----- Mixed radix numbers, least significant digit first -----

  function Product(lens: seq<nat>): nat {
    if lens == [] then 1 else lens[0] * Product(lens[1..])
  }

  function Number(lens: seq<nat>, digits: seq<nat>): nat
    requires |lens| == |digits|
  {
    if lens == [] then 0 else digits[0] + lens[0] * Number(lens[1..], digits[1..])
  }

  function Digits(lens: seq<nat>, k: nat): (digits: seq<nat>)
    requires forall i | 0 <= i < |lens| :: lens[i] > 0
    ensures InRange(lens, digits)
  {
    if lens == [] then [] else [k % lens[0]] + Digits(lens[1..], k / lens[0])
  }

  predicate InRange(lens: seq<nat>, digits: seq<nat>) {
    && |digits| == |lens|
    && forall i | 0 <= i < |lens| :: digits[i] < lens[i]
  }

  lemma MulStep(a: nat, b: nat, c: nat)
    requires b < c
    ensures a * b + a <= a * c
  {
    var d := c - b - 1;
    assert a * c == a * b + a + a * d;
  }

  /** The digits of a number below the product are the only in-range digits denoting it. */
  lemma {:induction false} DigitsOfNumber(lens: seq<nat>, digits: seq<nat>)
    requires InRange(lens, digits)
    ensures Number(lens, digits) < Product(lens)
    ensures Digits(lens, Number(lens, digits)) == digits
  {
    if lens != [] {
      var high := Number(lens[1..], digits[1..]);
      DigitsOfNumber(lens[1..], digits[1..]);
      MulStep(lens[0], high, Product(lens[1..]));
      DivModUnique(lens[0], high, digits[0]);
    }
  }

  lemma DivModUnique(b: nat, q: nat, r: nat)
    requires r < b
    ensures (r + b * q) / b == q && (r + b * q) % b == r
  {
    var n := r + b * q;
    assert b * (n / b) + n % b == n;
    if n / b < q { MulStep(b, n / b, q); }
    if n / b > q { MulStep(b, q, n / b); }
  }

  lemma {:induction false} NumberOfDigits(lens: seq<nat>, k: nat)
    requires forall i | 0 <= i < |lens| :: lens[i] > 0
    requires k < Product(lens)
    ensures Number(lens, Digits(lens, k)) == k
  {
    if lens != [] {
      if k / lens[0] >= Product(lens[1..]) {
        if k / lens[0] > Product(lens[1..]) { MulStep(lens[0], Product(lens[1..]), k / lens[0]); }
        assert false;
      }
      NumberOfDigits(lens[1..], k / lens[0]);
    }
  }

  lemma {:induction false} NumberOverflow(lens: seq<nat>, digits: seq<nat>)
    requires |lens| == |digits| > 0
    requires digits[|lens| - 1] >= lens[|lens| - 1]
    ensures Number(lens, digits) >= Product(lens)
  {
    if |lens| > 1 {
      NumberOverflow(lens[1..], digits[1..]);
      if Number(lens[1..], digits[1..]) > Product(lens[1..]) {
        MulStep(lens[0], Product(lens[1..]), Number(lens[1..], digits[1..]));
      }
    } else {
      assert Product(lens) == lens[0];
    }
  }

  /** Resetting a full wheel and advancing the next one keeps the number. */
  lemma {:induction false} NumberCarry(lens: seq<nat>, digits: seq<nat>, i: nat)
    requires |lens| == |digits| && i + 1 < |lens|
    requires digits[i] == lens[i]
    ensures Number(lens, digits[i := 0][i + 1 := digits[i + 1] + 1]) == Number(lens, digits)
  {
    var after := digits[i := 0][i + 1 := digits[i + 1] + 1];
    if i == 0 {
      var rest := Number(lens[2..], digits[2..]);
      assert lens[1..][1..] == lens[2..] && digits[1..][1..] == digits[2..] && after[1..][1..] == digits[2..];
      assert lens[0] * (digits[1] + 1 + lens[1] * rest) == lens[0] + lens[0] * (digits[1] + lens[1] * rest);
    } else {
      NumberCarry(lens[1..], digits[1..], i - 1);
      assert after[1..] == digits[1..][i - 1 := 0][i := digits[1..][i] + 1];
    }
  }

  lemma {:induction false} ProductSnoc(lens: seq<nat>, n: nat)
    ensures Product(lens + [n]) == Product(lens) * n
  {
    if lens != [] {
      ProductSnoc(lens[1..], n);
      assert (lens + [n])[1..] == lens[1..] + [n];
      assert lens[0] * (Product(lens[1..]) * n) == lens[0] * Product(lens[1..]) * n;
    } else {
      assert lens + [n] == [n] && [n][1..] == [];
    }
  }

  lemma {:induction false} ProductPositive(lens: seq<nat>)
    ensures Product(lens) > 0 <==> forall i | 0 <= i < |lens| :: lens[i] > 0
  {
    if lens != [] {
      ProductPositive(lens[1..]);
      assert forall i | 1 <= i < |lens| :: lens[1..][i - 1] == lens[i];
      if lens[0] > 0 && Product(lens[1..]) > 0 { MulStep(lens[0], 0, Product(lens[1..])); }
    }
  }

  // ----- The product of value sets -----

  function Lens(all: seq<seq<Value>>): (lens: seq<nat>)
    ensures |lens| == |all| && forall i | 0 <= i < |all| :: lens[i] == |all[i]|
  {
    seq(|all|, i requires 0 <= i < |all| => |all[i]|)
  }

  function Pick(all: seq<seq<Value>>, digits: seq<nat>): Name
    requires InRange(Lens(all), digits)
  {
    seq(|all|, i requires 0 <= i < |all| => all[i][digits[i]])
  }

  function ValuesOf(sets: ValueSets, id: string): set<Value> {
    if id in sets then sets[id].Values else {}
  }

  ghost predicate WellKeyed(values: map<string, Value>) {
    forall k | k in values :: ValueKey(values[k]) == k
  }

  ghost predicate Distinct<T>(s: seq<T>) {
    forall i, j | 0 <= i < j < |s| :: s[i] != s[j]
  }

  /** The order in which Go ranges over a map is arbitrary. */
  ghost predicate Lists(values: seq<Value>, m: map<string, Value>) {
    && (forall v :: v in values <==> v in m.Values)
    && (WellKeyed(m) ==> Distinct(values))
    && (values == [] <==> m == map[])
  }

  /** One value of each set, in the order of ids. */
  ghost predicate InProduct(name: Name, sets: ValueSets, ids: seq<string>) {
    && |name| == |ids|
    && forall i | 0 <= i < |ids| :: name[i] in ValuesOf(sets, ids[i])
  }

  method ListValues(m: map<string, Value>) returns (values: seq<Value>)
    ensures Lists(values, m)
  {
    values := [];
    var left := m.Keys;
    ghost var done: seq<string> := [];
    while left != {}
      invariant left <= m.Keys
      invariant |done| == |values|
      invariant forall k | k in m.Keys :: k in left || k in done
      invariant forall i | 0 <= i < |done| :: done[i] in m && done[i] !in left && values[i] == m[done[i]]
      invariant Distinct(done)
      decreases |left|
    {
      var k :| k in left;
      values := values + [m[k]];
      left := left - {k};
      done := done + [k];
    }
    forall v | v in m.Values
      ensures v in values
    {
      var k :| k in m && m[k] == v;
      var i :| 0 <= i < |done| && done[i] == k;
      assert values[i] == v;
    }
    if m != map[] {
      var k :| k in m;
      assert k in done;
    }
  }

  lemma ListValuesEmpty(m: map<string, Value>)
    ensures m.Values == {} <==> m == map[]
  {
    if m != map[] {
      var k :| k in m;
      assert m[k] in m.Values;
    }
  }

  ghost predicate ListAll(all: seq<seq<Value>>, sets: ValueSets, ids: seq<string>) {
    && |all| == |ids|
    && forall i | 0 <= i < |ids| :: Lists(all[i], if ids[i] in sets then sets[ids[i]] else map[])
  }

  /** The tuples an odometer over `all` has shown after n turns. */
  ghost function Shown(all: seq<seq<Value>>, n: nat): (out: seq<Name>)
    requires forall i | 0 <= i < |all| :: all[i] != []
    ensures |out| == n
  {
    if n == 0 then [] else Shown(all, n - 1) + [Pick(all, Digits(Lens(all), n - 1))]
  }

  lemma {:induction false} ShownAt(all: seq<seq<Value>>, n: nat, k: nat)
    requires forall i | 0 <= i < |all| :: all[i] != []
    requires k < n
    ensures Shown(all, n)[k] == Pick(all, Digits(Lens(all), k))
  {
    if k < n - 1 { ShownAt(all, n - 1, k); }
  }

  /** Between two readings only the first wheel can be full. */
  ghost predicate Turning(lens: seq<nat>, digits: seq<nat>) {
    && |digits| == |lens| > 0 && digits[0] <= lens[0]
    && forall i | 0 < i < |lens| :: digits[i] < lens[i]
  }

  /** Reading off the wheels and turning the first one adds the next tuple. */
  lemma ShownNext(all: seq<seq<Value>>, digits: seq<nat>, turned: seq<nat>, n: nat)
    requires all != [] && forall i | 0 <= i < |all| :: all[i] != []
    requires InRange(Lens(all), digits) && n == Number(Lens(all), digits)
    requires turned == digits[0 := digits[0] + 1]
    ensures n < Product(Lens(all))
    ensures Shown(all, n + 1) == Shown(all, n) + [Pick(all, digits)]
    ensures Turning(Lens(all), turned) && Number(Lens(all), turned) == n + 1
  {
    DigitsOfNumber(Lens(all), digits);
    assert turned[1..] == digits[1..];
  }

  lemma ShownInProduct(all: seq<seq<Value>>, sets: ValueSets, ids: seq<string>, k: nat)
    requires ListAll(all, sets, ids)
    requires forall i | 0 <= i < |all| :: all[i] != []
    requires k < Product(Lens(all))
    ensures InProduct(Shown(all, Product(Lens(all)))[k], sets, ids)
  {
    var digits := Digits(Lens(all), k);
    ShownAt(all, Product(Lens(all)), k);
    forall i | 0 <= i < |ids|
      ensures all[i][digits[i]] in ValuesOf(sets, ids[i])
    {
      assert Lists(all[i], if ids[i] in sets then sets[ids[i]] else map[]);
    }
  }

  lemma PickInjective(all: seq<seq<Value>>, a: seq<nat>, b: seq<nat>)
    requires InRange(Lens(all), a) && InRange(Lens(all), b)
    requires forall i | 0 <= i < |all| :: Distinct(all[i])
    requires Pick(all, a) == Pick(all, b)
    ensures a == b
  {
    forall i | 0 <= i < |all| ensures a[i] == b[i] {
      assert Pick(all, a)[i] == Pick(all, b)[i];
    }
  }

  lemma ShownDistinct(all: seq<seq<Value>>, j: nat, k: nat)
    requires forall i | 0 <= i < |all| :: all[i] != [] && Distinct(all[i])
    requires j < k < Product(Lens(all))
    ensures Shown(all, Product(Lens(all)))[j] != Shown(all, Product(Lens(all)))[k]
  {
    ShownAt(all, Product(Lens(all)), j);
    ShownAt(all, Product(Lens(all)), k);
    NumberOfDigits(Lens(all), j);
    NumberOfDigits(Lens(all), k);
    if Pick(all, Digits(Lens(all), j)) == Pick(all, Digits(Lens(all), k)) {
      PickInjective(all, Digits(Lens(all), j), Digits(Lens(all), k));
    }
  }

  /** A full turn of the odometer shows exactly the product, each tuple once. */
  lemma FullTurn(all: seq<seq<Value>>, sets: ValueSets, ids: seq<string>)
    requires ListAll(all, sets, ids)
    requires forall i | 0 <= i < |all| :: all[i] != []
    ensures forall name :: name in Shown(all, Product(Lens(all))) <==> InProduct(name, sets, ids)
    ensures (forall id | id in ids && id in sets :: WellKeyed(sets[id])) ==> Distinct(Shown(all, Product(Lens(all))))
  {
    hide Shown, Product, Digits, Number, InProduct, Pick;
    var out := Shown(all, Product(Lens(all)));
    forall k | 0 <= k < |out| ensures InProduct(out[k], sets, ids) {
      ShownInProduct(all, sets, ids, k);
    }
    forall name | InProduct(name, sets, ids) ensures name in out {
      var digits := FindDigits(name, all, sets, ids);
      DigitsOfNumber(Lens(all), digits);
      ShownAt(all, |out|, Number(Lens(all), digits));
    }
    if forall id | id in ids && id in sets :: WellKeyed(sets[id]) {
      assert forall i | 0 <= i < |all| :: Lists(all[i], if ids[i] in sets then sets[ids[i]] else map[]);
      forall j, k | 0 <= j < k < |out| ensures out[j] != out[k] {
        ShownDistinct(all, j, k);
      }
    }
  }

  lemma FindDigits(name: Name, all: seq<seq<Value>>, sets: ValueSets, ids: seq<string>) returns (digits: seq<nat>)
    requires ListAll(all, sets, ids) && InProduct(name, sets, ids)
    ensures InRange(Lens(all), digits) && Pick(all, digits) == name
  {
    digits := [];
    while |digits| < |name|
      invariant |digits| <= |name|
      invariant forall i | 0 <= i < |digits| :: digits[i] < |all[i]| && all[i][digits[i]] == name[i]
    {
      var i := |digits|;
      assert name[i] in ValuesOf(sets, ids[i]);
      assert name[i] in all[i];
      var d :| 0 <= d < |all[i]| && all[i][d] == name[i];
      digits := digits + [d];
    }
  }

  lemma EmptyValues(all: seq<seq<Value>>, sets: ValueSets, ids: seq<string>)
    requires ListAll(all, sets, ids)
    ensures (exists i | 0 <= i < |all| :: all[i] == []) <==> exists id | id in ids :: ValuesOf(sets, id) == {}
  {
    forall i | 0 <= i < |all|
      ensures all[i] == [] <==> ValuesOf(sets, ids[i]) == {}
    {
      ListValuesEmpty(if ids[i] in sets then sets[ids[i]] else map[]);
    }
    if id :| id in ids && ValuesOf(sets, id) == {} {
      var i :| 0 <= i < |ids| && ids[i] == id;
      assert all[i] == [];
    }
  }

  lemma {:induction false} ZeroNumber(lens: seq<nat>, digits: seq<nat>)
    requires |lens| == |digits| && forall i | 0 <= i < |digits| :: digits[i] == 0
    ensures Number(lens, digits) == 0
  {
    if lens != [] {
      ZeroNumber(lens[1..], digits[1..]);
    }
  }

  /** The inner loop: carries full wheels over from left to right while reading off a tuple, until
      the last wheel is full as well (None). */
  method ReadTuple(allValues: seq<seq<Value>>, indices: array<nat>) returns (r: Option<Name>)
    requires indices.Length == |allValues| > 0 && forall i | 0 <= i < |allValues| :: allValues[i] != []
    requires Turning(Lens(allValues), indices[..])
    modifies indices
    ensures Number(Lens(allValues), indices[..]) == Number(Lens(allValues), old(indices[..]))
    ensures r.None? ==> Number(Lens(allValues), indices[..]) >= Product(Lens(allValues))
    ensures r.Some? ==> InRange(Lens(allValues), indices[..]) && r.value == Pick(allValues, indices[..])
  {
    var n := |allValues|;
    ghost var lens := Lens(allValues);
    var next: Name := [];
    for i := 0 to n
      invariant |next| == i
      invariant forall j | 0 <= j < i :: indices[j] < lens[j] && next[j] == allValues[j][indices[j]]
      invariant i < n ==> indices[i] <= lens[i]
      invariant forall j | i < j < n :: indices[j] < lens[j]
      invariant Number(lens, indices[..]) == Number(lens, old(indices[..]))
    {
      if indices[i] == |allValues[i]| {
        if i + 1 == n {
          NumberOverflow(lens, indices[..]);
          return None;
        }
        NumberCarry(lens, indices[..], i);
        ghost var before := indices[..];
        indices[i] := 0;
        indices[i + 1] := indices[i + 1] + 1;
        assert indices[..] == before[i := 0][i + 1 := before[i + 1] + 1];
      }
      next := next + [allValues[i][indices[i]]];
    }
    assert next == Pick(allValues, indices[..]);
    return Some(next);
  }

  /** The loop over `indices`: it stops only after a full turn, when as many tuples have been
      shown as there are, so the error "internal error" (None) cannot happen. */
  method TurnOdometer(allValues: seq<seq<Value>>, length: int) returns (r: Option<seq<Name>>)
    requires allValues != [] && forall i | 0 <= i < |allValues| :: allValues[i] != []
    requires length == Product(Lens(allValues))
    ensures r == Some(Shown(allValues, Product(Lens(allValues))))
  {
    ghost var lens := Lens(allValues);
    var out: seq<Name> := [];
    var indices := new nat[|allValues|](_ => 0);
    ZeroNumber(lens, indices[..]);
    while true
      invariant |out| <= length && out == Shown(allValues, |out|)
      invariant Number(lens, indices[..]) == |out|
      invariant Turning(lens, indices[..])
      decreases length - |out|
    {
      var next := ReadTuple(allValues, indices);
      if next.None? {
        if length != |out| {
          return None;
        }
        return Some(out);
      }
      ghost var digits := indices[..];
      out := out + [next.value];
      indices[0] := indices[0] + 1;
      ShownNext(allValues, digits, indices[..], |out| - 1);
    }
  }

  /** The values of each variable, in the order of the keys. */
  method ListAllValues(sets: ValueSets, orderedKeys: seq<string>) returns (allValues: seq<seq<Value>>)
    ensures ListAll(allValues, sets, orderedKeys)
  {
    hide Lists;
    allValues := [];
    for i := 0 to |orderedKeys|
      invariant ListAll(allValues, sets, orderedKeys[..i])
    {
      var values := ListValues(if orderedKeys[i] in sets then sets[orderedKeys[i]] else map[]);
      allValues := allValues + [values];
    }
    assert orderedKeys[..|orderedKeys|] == orderedKeys;
  }

  method ProductLength(allValues: seq<seq<Value>>) returns (length: nat)
    ensures length == Product(Lens(allValues))
    ensures length <= 0 <==> exists i | 0 <= i < |allValues| :: allValues[i] == []
  {
    ghost var lens := Lens(allValues);
    length := 1;
    for i := 0 to |allValues|
      invariant length == Product(lens[..i])
    {
      ProductSnoc(lens[..i], |allValues[i]|);
      assert lens[..i + 1] == lens[..i] + [lens[i]];
      length := length * |allValues[i]|;
    }
    assert lens[..|lens|] == lens;
    ProductPositive(lens);
  }

  /** None is the error "some variable had empty valuesSet?". Without variables there is no tuple
      at all, not even the empty one. */
  method CartesianProductOfValues(sets: ValueSets, orderedKeys: seq<string>) returns (r: Option<seq<Name>>)
    ensures orderedKeys == [] ==> r == Some([])
    ensures orderedKeys != [] ==> (r.None? <==> exists id | id in orderedKeys :: ValuesOf(sets, id) == {})
    ensures orderedKeys != [] && r.Some? ==>
      && (forall name :: name in r.value <==> InProduct(name, sets, orderedKeys))
      && ((forall id | id in orderedKeys && id in sets :: WellKeyed(sets[id])) ==> Distinct(r.value))
  {
    if |orderedKeys| == 0 {
      return Some([]);
    }
    hide Shown, InProduct, Lists, WellKeyed, Distinct, Product;
    var allValues := ListAllValues(sets, orderedKeys);
    EmptyValues(allValues, sets, orderedKeys);
    var length := ProductLength(allValues);
    if length <= 0 {
      return None;
    }
    r := TurnOdometer(allValues, length);
    FullTurn(allValues, sets, orderedKeys);
  }
}
