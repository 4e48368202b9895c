/** When direct evaluation agrees with reading every condition as a plain boolean formula. */
module IsolateComplete {
  import opened IsolateValues
  import opened IsolateCondition
  import opened IsolateOdometer
  import opened IsolateMatch
  import opened IsolateMerge
  import opened IsolateFiles
  import opened IsolateMeaning
  import opened IsolateChoice

  // ----- Which literals are kept -----

  ghost predicate NoSlotClash(atoms: set<(string, Value)>) {
    forall a, b | a in atoms && b in atoms && a.0 == b.0 && ValueKey(a.1) == ValueKey(b.1) :: a.1 == b.1
  }

  /** Every literal of a file is kept exactly when no two literals of one variable share a slot. */
  lemma AllLiteralsKept(conditions: seq<Condition>)
    requires AcceptedConditions(conditions)
    ensures (forall atom | atom in AllEqualities(conditions) :: atom.1 in ValuesOf(KeptValues(conditions), atom.0))
            <==> NoSlotClash(AllEqualities(conditions))
  {
    var sets, atoms := KeptValues(conditions), AllEqualities(conditions);
    hide KeptValues, AllEqualities, ValueKey;
    if NoSlotClash(atoms) {
      forall atom | atom in atoms ensures atom.1 in ValuesOf(sets, atom.0) {
        var kept := sets[atom.0][ValueKey(atom.1)];
        assert (atom.0, kept) in atoms && ValueKey(kept) == ValueKey(atom.1);
        assert kept in sets[atom.0].Values;
      }
    }
    if forall atom | atom in atoms :: atom.1 in ValuesOf(sets, atom.0) {
      forall a, b | a in atoms && b in atoms && a.0 == b.0 && ValueKey(a.1) == ValueKey(b.1) ensures a.1 == b.1 {
        assert a.1 in sets[a.0].Values && b.1 in sets[a.0].Values;
        var j, k :| j in sets[a.0] && sets[a.0][j] == a.1 && k in sets[a.0] && sets[a.0][k] == b.1;
        assert ValueKey(a.1) == j && ValueKey(b.1) == k;
      }
    }
  }

  // ----- Applying and holding -----

  /** Under a full configuration a condition applies exactly when it holds and the values that some
      condition mentions suffice to decide it. */
  lemma AppliesExactly(c: Condition, sets: ValueSets, b: Binding)
    requires Accepted(c.expr) && forall atom | atom in Equalities(c.expr) :: b(atom.0).IsBound()
    ensures Applies(c, sets, b) <==> Holds(c.expr, b) && !Meaning(c.expr, Known(sets, b)).Undecided?
  {
    MeaningHolds(c.expr, b);
    if !Meaning(c.expr, Known(sets, b)).Undecided? {
      MeaningMonotone(c.expr, Known(sets, b), b);
    }
  }

  /** The files of the global block and of every condition that holds. */
  function OwnPlainFiles(f: IsolateFile, b: Binding): set<string>
    requires AcceptedFile(f)
  {
    f.variables.files
    + set i, x | 0 <= i < |f.conditions| && Holds(f.conditions[i].expr, b) && x in f.conditions[i].variables.files :: x
  }

  function PlainFiles(f: IsolateFile, b: Binding): set<string>
    requires AcceptedTree(f)
  {
    OwnPlainFiles(f, b) + set i, x | 0 <= i < |f.includes| && x in PlainFiles(f.includes[i], b) :: x
  }

  predicate FullyBound(f: IsolateFile, b: Binding)
    requires AcceptedTree(f)
  {
    && (forall atom | atom in AllEqualities(f.conditions) :: b(atom.0).IsBound())
    && forall i | 0 <= i < |f.includes| :: FullyBound(f.includes[i], b)
  }

  /** Every value of the configuration occurs in, and is kept for, each file that uses its variable. */
  predicate FullyMentioned(f: IsolateFile, b: Binding)
    requires AcceptedTree(f)
  {
    && (forall atom | atom in AllEqualities(f.conditions) :: b(atom.0) in ValuesOf(KeptValues(f.conditions), atom.0))
    && forall i | 0 <= i < |f.includes| :: FullyMentioned(f.includes[i], b)
  }

  lemma OwnSound(f: IsolateFile, b: Binding)
    requires AcceptedFile(f)
    requires forall atom | atom in AllEqualities(f.conditions) :: b(atom.0).IsBound()
    ensures OwnFiles(f, b) <= OwnPlainFiles(f, b)
  {
    hide KeptValues, AllEqualities, Equalities, Holds;
    forall i | 0 <= i < |f.conditions|
      ensures Applies(f.conditions[i], KeptValues(f.conditions), b) ==> Holds(f.conditions[i].expr, b)
    {
      EqualitiesOf(f.conditions, i);
      AppliesExactly(f.conditions[i], KeptValues(f.conditions), b);
    }
  }

  /** Every file returned for a full configuration belongs to the global block of some file or to a
      condition that holds. */
  lemma {:induction false} Sound(f: IsolateFile, b: Binding)
    requires AcceptedTree(f) && FullyBound(f, b)
    ensures DirectFiles(f, b) <= PlainFiles(f, b)
  {
    hide OwnFiles, OwnPlainFiles, AllEqualities;
    OwnSound(f, b);
    forall i | 0 <= i < |f.includes| ensures DirectFiles(f.includes[i], b) <= PlainFiles(f.includes[i], b) {
      Sound(f.includes[i], b);
    }
  }

  lemma KeptBound(conditions: seq<Condition>, x: string)
    requires AcceptedConditions(conditions)
    ensures Unbound !in ValuesOf(KeptValues(conditions), x)
  {
    var sets := KeptValues(conditions);
    if x in sets && Unbound in sets[x].Values {
      var k :| k in sets[x] && sets[x][k] == Unbound;
      EqualitiesBound(conditions, (x, sets[x][k]));
    }
  }

  lemma {:induction false} EqualitiesBound(conditions: seq<Condition>, atom: (string, Value))
    requires AcceptedConditions(conditions) && atom in AllEqualities(conditions)
    ensures atom.1.IsBound()
  {
    var last := conditions[|conditions| - 1].expr;
    if atom in Equalities(last) {
      LiteralBound(last, atom);
    } else {
      EqualitiesBound(conditions[..|conditions| - 1], atom);
    }
  }

  lemma {:induction false} LiteralBound(e: Expr, atom: (string, Value))
    requires Accepted(e) && atom in Equalities(e)
    ensures atom.1.IsBound()
  {
    if e.Paren? {
      LiteralBound(e.x, atom);
    } else if !e.op.Eql? {
      if atom in Equalities(e.l) { LiteralBound(e.l, atom); } else { LiteralBound(e.r, atom); }
    }
  }

  lemma OwnComplete(f: IsolateFile, b: Binding)
    requires AcceptedFile(f)
    requires forall atom | atom in AllEqualities(f.conditions) ::
               b(atom.0) in ValuesOf(KeptValues(f.conditions), atom.0)
    ensures OwnFiles(f, b) == OwnPlainFiles(f, b)
  {
    hide KeptValues, AllEqualities, Equalities, Holds, Accepted;
    forall i | 0 <= i < |f.conditions|
      ensures Applies(f.conditions[i], KeptValues(f.conditions), b) <==> Holds(f.conditions[i].expr, b)
    {
      var c, sets := f.conditions[i], KeptValues(f.conditions);
      EqualitiesOf(f.conditions, i);
      forall atom | atom in Equalities(c.expr) ensures Known(sets, b)(atom.0) == b(atom.0) && b(atom.0).IsBound() {
        KeptBound(f.conditions, atom.0);
      }
      MeaningAgree(c.expr, Known(sets, b), b);
      MeaningHolds(c.expr, b);
    }
  }

  /** When every value of the configuration is mentioned, the files are exactly those of the global
      blocks and of the conditions that hold. */
  lemma {:induction false} Complete(f: IsolateFile, b: Binding)
    requires AcceptedTree(f) && FullyMentioned(f, b)
    ensures DirectFiles(f, b) == PlainFiles(f, b)
  {
    hide OwnFiles, OwnPlainFiles, AllEqualities, KeptValues;
    OwnComplete(f, b);
    forall i | 0 <= i < |f.includes| ensures DirectFiles(f.includes[i], b) == PlainFiles(f.includes[i], b) {
      Complete(f.includes[i], b);
    }
  }

  // ----- The same of what is loaded -----

  /** Whatever rows were chosen, a query under a full configuration returns only files of global blocks
      and of conditions that hold. */
  lemma QuerySound(f: IsolateFile, ch: Choice, config: Name, b: Binding)
    requires AcceptedTree(f) && Chooses(ch, f) && Represents(config, Compile(f).vars, b) && FullyBound(f, b)
    ensures |config| == |CompileWith(f, ch).vars|
    ensures Query(CompileWith(f, ch).table, |config|, config).Files() <= PlainFiles(f, b)
  {
    hide Chooses, Compile, CompileWith, DirectFiles, FullyBound, PlainFiles, Query;
    ChoiceOnlyLoses(f, ch, config, b, "");
    forall file | file in Query(CompileWith(f, ch).table, |config|, config).Files() ensures file in PlainFiles(f, b) {
      ChoiceOnlyLoses(f, ch, config, b, file);
      Sound(f, b);
    }
  }

  /** When every value of the configuration is mentioned, a query of the compiled table returns exactly
      these files. */
  lemma QueryComplete(f: IsolateFile, config: Name, b: Binding)
    requires AcceptedTree(f) && Represents(config, Compile(f).vars, b) && FullyMentioned(f, b)
    ensures Query(Compile(f).table, |config|, config).Files() == PlainFiles(f, b)
  {
    hide Compile, DirectFiles, FullyMentioned, PlainFiles, Query;
    Complete(f, b);
    forall file ensures file in Query(Compile(f).table, |config|, config).Files() <==> file in PlainFiles(f, b) {
      MeaningPreserved(f, config, b, file);
    }
  }
}
