/** Regular expressions with counted repeats, which do not rewind when they fail: one that the
    optimiser changes, and all those that it does not. */
module MpcCountedRegex {
  import opened Options
  import opened MpcAst
  import opened MpcParser
  import opened MpcBacktrack
  import opened MpcOptimise
  import opened MpcLeaves
  import opened MpcRules
  import opened MpcOptimisable
  import opened MpcCoded
  import opened MpcSoundness
  import opened MpcGrammars
  import opened MpcRegex
  import opened MpcCodedRegex

  // ----- a counted repeat is not safe to expose -----

  /** The expression a{2}|b. */
  const TWO_OR_B: Regex := Either(Sequence([Times(2, Letter('a'))]), Sequence([Letter('b')]))

  function TwoAs(): Parser { Count(2, StrFold, Expect(Single('a'))) }

  function OneB(): Parser { Expect(Single('b')) }

  lemma {:induction false} LiftDropped(x: Parser)
    requires Normal(x) && Filled(x)
    ensures Optimise(And(StrFold, [Lift(CtorStr), x])) == x
  {
    var p := And(StrFold, [Lift(CtorStr), x]);
    OptimiseEnds(p);
    NormalIsFixed(x);
    NormalIsFixed(Lift(CtorStr));
    hide Optimise;
    assert OptimiseAll(p.xs) == [Lift(CtorStr), x];
  }

  lemma TwoOrBCompiled()
    ensures var lift := Lift(CtorStr);
      Compile(TWO_OR_B) == Or([And(StrFold, [lift, TwoAs()]), And(StrFold, [lift, OneB()])])
    ensures Optimise(Compile(TWO_OR_B)) == Or([TwoAs(), OneB()])
  {
    hide Compile, Optimise, Normal, Filled, TwoAs, OneB;
    TwoOrBTerms();
    TwoOrBNormal();
    LiftDropped(TwoAs());
    LiftDropped(OneB());
    EitherUnfolds(Sequence([Times(2, Letter('a'))]), Sequence([Letter('b')]));
    OptimiseEither(And(StrFold, [Lift(CtorStr), TwoAs()]), And(StrFold, [Lift(CtorStr), OneB()]));
  }

  lemma TwoOrBNormal()
    ensures Normal(TwoAs()) && Filled(TwoAs()) && !TwoAs().Or?
    ensures Normal(OneB()) && Filled(OneB()) && !OneB().Or?
  {
    var x := Single('a');
    assert Normal(x) && Normal(Expect(x)) && Filled(x) && Filled(Expect(x));
  }

  lemma TwoOrBTerms()
    ensures Compile(Sequence([Times(2, Letter('a'))])) == And(StrFold, [Lift(CtorStr), TwoAs()])
    ensures Compile(Sequence([Letter('b')])) == And(StrFold, [Lift(CtorStr), OneB()])
  {
    TermCompiled(Times(2, Letter('a')));
    TermCompiled(Letter('b'));
    hide CompileSequence;
  }

  lemma OptimiseEither(x: Parser, y: Parser)
    requires !Optimise(x).Or? && !Optimise(y).Or?
    ensures Optimise(Or([x, y])) == Or([Optimise(x), Optimise(y)])
  {
    OptimiseUnfolds(Or([x, y]));
    hide Optimise;
    assert OptimiseAll([x, y]) == [Optimise(x), Optimise(y)];
    assert Rule(Or([Optimise(x), Optimise(y)])).None?;
  }

  /** On the input ab the compiled expression a{2}|b is refused; optimised, the count has lost the
      sequence that rewinds it, so the b behind the a is accepted. */
  lemma DroppedLiftAccepts()
    ensures Run([], "ab", Compile(TWO_OR_B), BEGIN, 1, 0).Bad?
    ensures Run([], "ab", Optimise(Compile(TWO_OR_B)), BEGIN, 1, 0).Ok?
  {
    TwoOrBCompiled();
    hide Compile, Optimise;
    var lift, mid := Lift(CtorStr), MpcParser.Step(BEGIN, 'a');
    TwoAsRuns();
    assert Run([], "ab", OneB(), BEGIN, 1, 0) == Bad(BEGIN);
    assert Run([], "ab", OneB(), mid, 1, 0).Ok?;
    RunAndPair([], "ab", StrFold, lift, TwoAs(), BEGIN, 1, 0);
    RunAndPair([], "ab", StrFold, lift, OneB(), BEGIN, 1, 0);
    EitherRuns("ab", And(StrFold, [lift, TwoAs()]), And(StrFold, [lift, OneB()]));
    EitherRuns("ab", TwoAs(), OneB());
  }

  lemma TwoAsRuns()
    ensures Run([], "ab", TwoAs(), BEGIN, 1, 0) == Bad(MpcParser.Step(BEGIN, 'a'))
  {
    var x, mid := Expect(Single('a')), MpcParser.Step(BEGIN, 'a');
    assert Run([], "ab", x, BEGIN, 1, 0) == Ok(Str("a"), mid);
    assert Run([], "ab", x, mid, 1, 0) == Bad(mid);
    assert [] + [Str("a")] == [Str("a")];
    assert RunCount([], "ab", 2, StrFold, x, mid, 1, [Str("a")], 0) == Bad(mid);
  }

  lemma EitherRuns(input: string, x: Parser, y: Parser)
    ensures var o := Run([], input, x, BEGIN, 1, 0);
      Run([], input, Or([x, y]), BEGIN, 1, 0) == if o.Bad? then Run([], input, y, o.to, 1, 0) else o
  {
    RunOfOr([], input, [x, y], BEGIN, 1, 0);
    hide Run;
    var o := Run([], input, x, BEGIN, 1, 0);
    assert [x, y][1..] == [y] && [y][1..] == [];
    if o.Bad? {
      assert RunOr([], input, [y], o.to, 1, 0) == Run([], input, y, o.to, 1, 0);
    }
  }

  // ----- counted repeats that stay inside a sequence -----

  /** An expression that rewinds when it fails. */
  predicate Rewinding(r: Regex) {
    match r
    case Plus(x) => Rewinding(x)
    case Times(_, _) => false
    case Either(x, y) => Rewinding(x) && Rewinding(y)
    case _ => true
  }

  predicate IsChain(r: Regex) {
    r.Sequence? && r.xs != []
  }

  /** A factor of a group: what is merged into the group is not asked for more than its factors are. */
  predicate Inside(r: Regex)
    decreases r, 1
  {
    if IsChain(r) then forall i | 0 <= i < |r.xs| :: Inside(r.xs[i]) else Guarded(r)
  }

  /** What stands alone in a group rewinds. */
  predicate Guarded(r: Regex)
    decreases r, 0
  {
    match r
    case Star(x) => Guarded(x)
    case Plus(x) => Guarded(x)
    case Optional(x) => Guarded(x)
    case Times(_, x) => Guarded(x)
    case Either(x, y) => Guarded(x) && Guarded(y)
    case Sequence(xs) =>
      && (forall i | 0 <= i < |xs| :: Inside(xs[i]))
      && (xs != [] && (forall i | 0 <= i < |xs| - 1 :: Blank(xs[i])) ==>
            Guarded(xs[|xs| - 1]) && Rewinding(xs[|xs| - 1]))
    case _ => true
  }

  predicate IsAtom(r: Regex) {
    r.Dot? || r.LineStart? || r.LineEnd? || r.Letter? || r.Escaped? || r.Set? || r.NoSet?
  }

  lemma AtomFits(r: Regex)
    requires IsAtom(r)
    ensures Fit({}, {}, Compile(r)) && Restoring({}, Compile(r))
  {
    CompiledIsFine(r);
    hide Compile, Plain, Filled, Restoring, Optimisable;
    PlainIsTreed({}, {}, Compile(r));
    TreedIsOptimisable({}, {}, Compile(r));
    TreedRestores({}, {}, Compile(r));
  }

  lemma {:induction false} RewindingRestores(r: Regex)
    requires Rewinding(r)
    ensures Restoring({}, Compile(r))
  {
    if IsAtom(r) {
      AtomFits(r);
    } else if r.Plus? {
      RewindingRestores(r.x);
    } else if r.Either? {
      RewindingRestores(r.x);
      RewindingRestores(r.y);
      EitherUnfolds(r.x, r.y);
      hide Compile;
      assert forall i | 0 <= i < 2 :: Restoring({}, [Compile(r.x), Compile(r.y)][i]);
    }
  }

  lemma {:induction false} CompiledIsFilled(r: Regex)
    ensures Filled(Compile(r))
    decreases r, 1
  {
    hide Filled, Escape;
    match r
    case Star(x) => CompiledIsFilled(x); FilledAround(Compile(r));
    case Plus(x) => CompiledIsFilled(x); FilledAround(Compile(r));
    case Optional(x) => CompiledIsFilled(x); FilledAround(Compile(r));
    case Times(_, x) => CompiledIsFilled(x); FilledAround(Compile(r));
    case Either(x, y) =>
      CompiledIsFilled(x);
      CompiledIsFilled(y);
      FilledPair(Compile(x), Compile(y));
    case Sequence(xs) => SequenceIsFilled(xs);
    case _ => AtomFits(r);
  }

  lemma FilledAround(p: Parser)
    requires Wraps(p) && Filled(p.x)
    ensures Filled(p)
  {}

  lemma FilledPair(x: Parser, y: Parser)
    requires Filled(x) && Filled(y)
    ensures Filled(Or([x, y])) && Filled(And(StrFold, [x, y]))
  {}

  lemma {:induction false} SequenceIsFilled(xs: seq<Regex>)
    ensures Filled(CompileSequence(xs))
    decreases xs, 0
  {
    hide Compile;
    if xs != [] {
      SequenceIsFilled(xs[..|xs| - 1]);
      CompiledIsFilled(xs[|xs| - 1]);
      hide Filled;
      FilledPair(CompileSequence(xs[..|xs| - 1]), Compile(xs[|xs| - 1]));
    }
  }

  lemma OnlyChainsMerge(r: Regex)
    ensures IsChain(r) || !SameFold(StrFold, Compile(r))
  {
    if r.Escaped? { EscapeRemains(r.c); EscapeNoChain(r.c); }
  }

  lemma EscapeNoChain(c: char)
    ensures !SameFold(StrFold, Escape(c))
  {}

  /** A factor may stand in a sequence. */
  lemma {:induction false} InsideFits(r: Regex)
    requires Inside(r)
    ensures FitElement({}, {}, StrFold, Compile(r), true)
    decreases r, 3
  {
    if IsChain(r) {
      ChainOfRegex(r.xs);
      assert Compile(r) == CompileSequence(r.xs);
      hide Loose, Compile, CompileSequence;
      assert SameFold(StrFold, CompileSequence(r.xs)) by { SequenceIsAnd(r.xs); }
    } else {
      OnlyChainsMerge(r);
      GuardedFits(r);
      hide Optimisable, Compile;
    }
  }

  lemma SequenceIsAnd(xs: seq<Regex>)
    requires xs != []
    ensures CompileSequence(xs) == And(StrFold, [CompileSequence(xs[..|xs| - 1]), Compile(xs[|xs| - 1])])
    ensures SameFold(StrFold, CompileSequence(xs))
  {
    hide Compile;
  }

  /** The chain of factors, where it is merged into another. */
  lemma {:induction false} ChainOfRegex(xs: seq<Regex>)
    requires xs != [] && forall i | 0 <= i < |xs| :: Inside(xs[i])
    ensures Loose({}, {}, CompileSequence(xs)) && FitElements({}, {}, StrFold, CompileSequence(xs).xs)
    decreases xs, 0
  {
    var init, last := xs[..|xs| - 1], xs[|xs| - 1];
    hide Inside, Optimisable, Compile;
    SequenceIsAnd(xs);
    if init != [] {
      ChainOfRegex(init);
      SequenceIsAnd(init);
    } else {
      LiftFits();
    }
    InsideFits(last);
    hide CompileSequence;
    assert FitElement({}, {}, StrFold, CompileSequence(init), true);
    PairFits(CompileSequence(init), Compile(last));
  }

  lemma LiftFits()
    ensures FitElement({}, {}, StrFold, Lift(CtorStr), true) && CompileSequence([]) == Lift(CtorStr)
  {}

  lemma PairFits(x: Parser, y: Parser)
    requires FitElement({}, {}, StrFold, x, true) && FitElement({}, {}, StrFold, y, true)
    ensures Loose({}, {}, And(StrFold, [x, y])) && FitElements({}, {}, StrFold, [x, y])
  {
    hide FitElement;
    forall i | 0 <= i < 2 ensures FitElement({}, {}, StrFold, [x, y][i], AtEnd(i, 2)) {
      assert AtEnd(i, 2) && [x, y][i] == if i == 0 then x else y;
    }
  }

  /** Every such expression compiles to a parser that may be optimised. */
  lemma {:induction false} GuardedFits(r: Regex)
    requires Guarded(r)
    ensures Optimisable({}, {}, Compile(r))
    decreases r, 2
  {
    if IsAtom(r) {
      AtomFits(r);
    } else if IsChain(r) {
      SequenceFits(r);
    } else if r.Either? {
      GuardedFits(r.x);
      GuardedFits(r.y);
      EitherUnfolds(r.x, r.y);
      hide Compile;
      EitherFits(Compile(r.x), Compile(r.y));
    } else if r.Sequence? {
      LiftFits();
    } else {
      GuardedFits(r.x);
      hide Optimise;
    }
  }

  lemma EitherFits(x: Parser, y: Parser)
    requires Optimisable({}, {}, x) && Optimisable({}, {}, y)
    ensures Optimisable({}, {}, Or([x, y]))
  {
    hide Optimise;
  }

  lemma {:induction false} SequenceFits(r: Regex)
    requires Guarded(r) && IsChain(r)
    ensures Optimisable({}, {}, Compile(r))
    decreases r, 1
  {
    var xs := r.xs;
    var init, last := xs[..|xs| - 1], xs[|xs| - 1];
    ChainOfRegex(xs);
    SequenceIsAnd(xs);
    BlanksRight(init);
    SequenceIsFilled(init);
    ToUnitRight(StrFold, CompileSequence(init));
    if forall i | 0 <= i < |xs| - 1 :: Blank(xs[i]) {
      GuardedFits(last);
      RewindingRestores(last);
    } else {
      var i :| 0 <= i < |xs| - 1 && !Blank(xs[i]);
      assert init[i] == xs[i];
    }
    assert Compile(r) == CompileSequence(xs);
    hide Compile, CompileSequence, Optimise, Loose, FitElements, Restoring, Leaves, ToUnit, Blank;
    AllOfTwo(CompileSequence(init), Compile(last));
    ChainMayStand(CompileSequence(init), Compile(last));
  }

  lemma ChainMayStand(x: Parser, y: Parser)
    requires FitElements({}, {}, StrFold, [x, y]) && OptimiseAll([x, y]) == [Optimise(x), Optimise(y)]
    requires Leaves(StrFold, Optimise(x)) == [Unit(StrFold)] ==> Optimisable({}, {}, y) && Restoring({}, y)
    ensures Optimisable({}, {}, And(StrFold, [x, y]))
  {
    hide Optimise, FitElements, Restoring, Leaves;
  }

  /** For every expression in which no counted repeat stands alone in a group, optimising preserves
      every run that has a meaning. */
  lemma CountedSound(r: Regex, input: string, c: Cursor, backtrack: int, fuel: nat)
    requires Guarded(r)
    ensures Refines(Run([], input, Compile(r), c, backtrack, fuel),
        Run([], input, Optimise(Compile(r)), c, backtrack, fuel))
  {
    GuardedFits(r);
    CompiledIsFilled(r);
    hide Run, Compile, Optimise, Optimisable, Filled;
    OptimiseSound({}, {}, [], [], input, Compile(r), c, backtrack, fuel);
  }

  /** The expression a{2}|b is not of this kind. */
  lemma AloneIsNotGuarded()
    ensures !Guarded(TWO_OR_B)
  {
    assert !Rewinding(Times(2, Letter('a')));
    hide Inside;
  }

  /** But a{2}b is. */
  lemma InsideIsGuarded()
    ensures Guarded(Sequence([Times(2, Letter('a')), Letter('b')]))
  {
    var xs := [Times(2, Letter('a')), Letter('b')];
    assert Inside(xs[0]) && Inside(xs[1]) && !Blank(xs[0]);
    hide Inside, Blank, Rewinding;
    assert Sequence(xs).xs[0] == xs[0];
  }
}
