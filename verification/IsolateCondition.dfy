/** The condition language of .isolate files: checking, three-valued meaning, evaluation
    (client/isolate/format.go:775-817 and 857-934). */
module IsolateCondition {
  import opened Ints
  import opened Text
  import opened IsolateValues

  datatype Operator = And | Or | Eql | OtherOperator

  /** The Go expression trees a condition string parses to. */
  datatype Expr =
    | Paren(x: Expr)
    | Binary(op: Operator, l: Expr, r: Expr)
    | Ident(name: string)
    | IntLit(text: string)
    | StringLit(body: CString)
    | OtherExpr

  /** verifyIDEqualValue: the variable and the literal of an equality, if it is one. */
  function EqualityOf(l: Expr, r: Expr): (res: Option<(string, Value)>)
    ensures res.Some? ==> res.value.1.IsBound()
  {
    if !l.Ident? then None
    else
      match r
      case IntLit(text) => (match Atoi(text) case Some(i) => Some((l.name, IntValue(i))) case None => None)
      case StringLit(body) => Some((l.name, StrValue(body)))
      case _ => None
  }

  /** What processConditionAst accepts. */
  predicate Accepted(e: Expr) {
    match e
    case Paren(x) => Accepted(x)
    case Binary(And, l, r) => Accepted(l) && Accepted(r)
    case Binary(Or, l, r) => Accepted(l) && Accepted(r)
    case Binary(Eql, l, r) => EqualityOf(l, r).Some?
    case _ => false
  }

  /** A variable on the left and on the right a text, or a number that fits 64 bits. */
  ghost predicate IsEquality(l: Expr, r: Expr, id: string, v: Value) {
    && l == Ident(id)
    && ((r.StringLit? && v == StrValue(r.body))
        || (r.IntLit? && v.IntValue? && Numeral(r.text, v.i) && -0x8000_0000_0000_0000 <= v.i < 0x8000_0000_0000_0000))
  }

  lemma EqualityExactly(l: Expr, r: Expr, id: string, v: Value)
    ensures EqualityOf(l, r) == Some((id, v)) <==> IsEquality(l, r, id, v)
  {
    if r.IntLit? && v.IntValue? {
      ParseIntExact(r.text, MIN_INT64, MAX_INT64, v.i);
    }
  }

  /** expr ::= expr ( or | and ) expr | variable == ( text | number ), and parentheses. */
  ghost predicate InGrammar(e: Expr) {
    || (e.Paren? && InGrammar(e.x))
    || (e.Binary? && (e.op == And || e.op == Or) && InGrammar(e.l) && InGrammar(e.r))
    || (e.Binary? && e.op == Eql && exists id, v :: IsEquality(e.l, e.r, id, v))
  }

  /** Exactly the expressions of the grammar are accepted. */
  lemma {:induction false} AcceptedExactly(e: Expr)
    ensures Accepted(e) <==> InGrammar(e)
  {
    hide EqualityOf, IsEquality;
    if e.Paren? {
      AcceptedExactly(e.x);
    } else if e.Binary? {
      AcceptedExactly(e.l);
      AcceptedExactly(e.r);
      if EqualityOf(e.l, e.r).Some? {
        var (id, v) := EqualityOf(e.l, e.r).value;
        EqualityExactly(e.l, e.r, id, v);
      }
      forall id, v ensures IsEquality(e.l, e.r, id, v) ==> EqualityOf(e.l, e.r).Some? {
        EqualityExactly(e.l, e.r, id, v);
      }
    }
  }

  /** The equalities of an accepted condition, as (variable, literal) pairs. */
  function Equalities(e: Expr): set<(string, Value)>
    requires Accepted(e)
  {
    if e.Paren? then Equalities(e.x)
    else if e.op.Eql? then {EqualityOf(e.l, e.r).value}
    else Equalities(e.l) + Equalities(e.r)
  }

  // ----- Collecting the values of every variable -----

  /** variablesValuesSet: for every variable its values, indexed by ValueKey. */
  type ValueSets = map<string, map<string, Value>>

  function AddValue(sets: ValueSets, id: string, v: Value): ValueSets {
    sets[id := (if id in sets then sets[id] else map[])[ValueKey(v) := v]]
  }

  /** processConditionAst: collects the literals in reading order; a later literal takes the slot
      of an earlier one with the same key. */
  function CollectValues(e: Expr, sets: ValueSets): Option<ValueSets> {
    match e
    case Paren(x) => CollectValues(x, sets)
    case Binary(Eql, l, r) =>
      (match EqualityOf(l, r)
       case Some((id, v)) => Some(AddValue(sets, id, v))
       case None => None)
    case Binary(OtherOperator, l, r) => None
    case Binary(_, l, r) =>
      (match CollectValues(l, sets)
       case Some(left) => CollectValues(r, left)
       case None => None)
    case _ => None
  }

  /** Every slot holds a literal of atoms (or of the start) under its own key, and every literal's
      slot is taken. */
  ghost predicate Collected(sets: ValueSets, atoms: set<(string, Value)>) {
    && (forall id | id in sets :: sets[id] != map[])
    && (forall id, k | id in sets && k in sets[id] :: (id, sets[id][k]) in atoms && ValueKey(sets[id][k]) == k)
    && (forall atom | atom in atoms :: atom.0 in sets && ValueKey(atom.1) in sets[atom.0])
  }

  lemma AddValueCollected(sets: ValueSets, atoms: set<(string, Value)>, id: string, v: Value)
    requires Collected(sets, atoms)
    ensures Collected(AddValue(sets, id, v), atoms + {(id, v)})
  {
    var after := AddValue(sets, id, v);
    assert ValueKey(v) in after[id];
    forall j, k | j in after && k in after[j]
      ensures (j, after[j][k]) in atoms + {(id, v)} && ValueKey(after[j][k]) == k
    {
      if j == id && k == ValueKey(v) {
      } else {
        assert j in sets && k in sets[j] && after[j][k] == sets[j][k];
      }
    }
  }

  lemma {:induction false} CollectValuesCorrect(e: Expr, sets: ValueSets, atoms: set<(string, Value)>)
    requires Collected(sets, atoms)
    ensures CollectValues(e, sets).Some? <==> Accepted(e)
    ensures Accepted(e) ==> Collected(CollectValues(e, sets).value, atoms + Equalities(e))
  {
    hide Collected, AddValue;
    if e.Paren? {
      CollectValuesCorrect(e.x, sets, atoms);
    } else if e.Binary? && e.op.Eql? && EqualityOf(e.l, e.r).Some? {
      var (id, v) := EqualityOf(e.l, e.r).value;
      AddValueCollected(sets, atoms, id, v);
    } else if e.Binary? && (e.op.And? || e.op.Or?) {
      CollectValuesCorrect(e.l, sets, atoms);
      if Accepted(e.l) {
        var left, atoms' := CollectValues(e.l, sets).value, atoms + Equalities(e.l);
        CollectValuesCorrect(e.r, left, atoms');
        if Accepted(e.r) {
          assert atoms' + Equalities(e.r) == atoms + Equalities(e);
        }
      }
    }
  }

  // ----- Meaning -----

  /** A binding gives every variable a value, possibly Unbound. */
  type Binding = string -> Value

  datatype Truth = True | False | Undecided

  /** Left to right, short-circuiting; reaching an unbound variable leaves the whole undecided. */
  function Meaning(e: Expr, b: Binding): Truth
    requires Accepted(e)
  {
    match e
    case Paren(x) => Meaning(x, b)
    case Binary(And, l, r) => if Meaning(l, b).True? then Meaning(r, b) else Meaning(l, b)
    case Binary(Or, l, r) => if Meaning(l, b).False? then Meaning(r, b) else Meaning(l, b)
    case Binary(Eql, l, r) =>
      var (id, v) := EqualityOf(l, r).value;
      if b(id).Unbound? then Undecided else if b(id) == v then True else False
  }

  /** The everyday two-valued meaning under a full configuration. */
  predicate Holds(e: Expr, b: Binding)
    requires Accepted(e)
  {
    match e
    case Paren(x) => Holds(x, b)
    case Binary(And, l, r) => Holds(l, b) && Holds(r, b)
    case Binary(Or, l, r) => Holds(l, b) || Holds(r, b)
    case Binary(Eql, l, r) => var (id, v) := EqualityOf(l, r).value; b(id) == v
  }

  ghost predicate Refines(e: Expr, weak: Binding, strong: Binding)
    requires Accepted(e)
  {
    forall atom | atom in Equalities(e) :: weak(atom.0) == Unbound || weak(atom.0) == strong(atom.0)
  }

  /** Binding more variables never changes a decided result. */
  lemma {:induction false} MeaningMonotone(e: Expr, weak: Binding, strong: Binding)
    requires Accepted(e) && Refines(e, weak, strong)
    requires !Meaning(e, weak).Undecided?
    ensures Meaning(e, strong) == Meaning(e, weak)
  {
    if e.Paren? {
      MeaningMonotone(e.x, weak, strong);
    } else if e.op.Eql? {
      assert EqualityOf(e.l, e.r).value in Equalities(e);
    } else {
      assert Refines(e.l, weak, strong) && Refines(e.r, weak, strong);
      MeaningMonotone(e.l, weak, strong);
      if !Meaning(e.r, weak).Undecided? { MeaningMonotone(e.r, weak, strong); }
    }
  }

  lemma {:induction false} MeaningHolds(e: Expr, b: Binding)
    requires Accepted(e)
    requires forall atom | atom in Equalities(e) :: b(atom.0).IsBound()
    ensures Meaning(e, b) == if Holds(e, b) then True else False
  {
    if e.Paren? {
      MeaningHolds(e.x, b);
    } else if e.op.Eql? {
      assert EqualityOf(e.l, e.r).value in Equalities(e);
    } else {
      MeaningHolds(e.l, b);
      MeaningHolds(e.r, b);
    }
  }

  /** A condition reads at least one variable before it can be decided. */
  lemma {:induction false} NothingBoundUndecided(e: Expr, b: Binding)
    requires Accepted(e)
    requires forall atom | atom in Equalities(e) :: b(atom.0).Unbound?
    ensures Meaning(e, b).Undecided?
  {
    if e.Paren? {
      NothingBoundUndecided(e.x, b);
    } else if e.op.Eql? {
      assert EqualityOf(e.l, e.r).value in Equalities(e);
    } else {
      NothingBoundUndecided(e.l, b);
    }
  }

  // ----- The evaluator -----

  /** conditionEvaluator: `stop` is raised by the first unbound variable that is read. */
  class ConditionEvaluator {
    const getVarValue: Binding
    var stop: bool

    constructor (getVarValue: Binding)
      ensures this.getVarValue == getVarValue && !stop
    {
      this.getVarValue := getVarValue;
      stop := false;
    }

    method Eval(e: Expr) returns (isTrue: bool)
      requires Accepted(e)
      modifies this`stop
      ensures stop == (old(stop) || Meaning(e, getVarValue).Undecided?)
      ensures isTrue == (!old(stop) && Meaning(e, getVarValue).True?)
      decreases e
    {
      if stop {
        return false;
      }
      match e {
        case Paren(x) =>
          isTrue := Eval(x);
        case Binary(And, l, r) =>
          isTrue := Eval(l);
          if isTrue { isTrue := Eval(r); }
        case Binary(Or, l, r) =>
          isTrue := Eval(l);
          if !isTrue { isTrue := Eval(r); }
        case Binary(Eql, l, r) =>
          var (id, eqValue) := EqualityOf(l, r).value;
          var value := getVarValue(id);
          if !value.IsBound() {
            stop := true;
            return false;
          }
          CompareZero(value, eqValue);
          return Compare(value, eqValue) == 0;
      }
    }
  }

  /** processedCondition.evaluate: None is its error, "required variable is unbound". */
  method Evaluate(e: Expr, getValue: Binding) returns (r: Option<bool>)
    requires Accepted(e)
    ensures r == match Meaning(e, getValue)
                 case True => Some(true)
                 case False => Some(false)
                 case Undecided => None
  {
    var ce := new ConditionEvaluator(getValue);
    var isTrue := ce.Eval(e);
    r := if ce.stop then None else Some(isTrue);
  }
}
