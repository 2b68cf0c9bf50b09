/** What the optimiser as coded makes of compiled regular expressions: for which it is defined,
    and one with a counted repeat that it changes. */
module MpcCodedRegex {
  import opened Options
  import opened MpcAst
  import opened MpcParser
  import opened MpcOptimise
  import opened MpcLeaves
  import opened MpcRules
  import opened MpcCoded
  import opened MpcRegex

  // ----- for which expressions the optimiser is defined -----

  /** Sequences of nothing but such sequences. */
  predicate Blank(r: Regex) {
    r.Sequence? && forall i | 0 <= i < |r.xs| :: Blank(r.xs[i])
  }

  /** Bars, or a group with bars that stands alone. */
  predicate IsBars(r: Regex) {
    || r.Either?
    || (r.Sequence? && r.xs != [] && IsBars(r.xs[|r.xs| - 1]) && forall i | 0 <= i < |r.xs| - 1 :: Blank(r.xs[i]))
  }

  /** No group with bars stands alone before a bar. */
  predicate SafeRegex(r: Regex) {
    match r
    case Star(x) => SafeRegex(x)
    case Plus(x) => SafeRegex(x)
    case Optional(x) => SafeRegex(x)
    case Times(_, x) => SafeRegex(x)
    case Sequence(xs) => forall i | 0 <= i < |xs| :: SafeRegex(xs[i])
    case Either(x, y) => !IsBars(x) && SafeRegex(x) && SafeRegex(y)
    case _ => true
  }

  lemma {:induction false} BlankRight(r: Regex)
    ensures ToUnit(StrFold, Compile(r)) <==> Blank(r)
    decreases r, 1
  {
    if r.Sequence? { BlanksRight(r.xs); }
  }

  lemma {:induction false} BlanksRight(xs: seq<Regex>)
    ensures ToUnit(StrFold, CompileSequence(xs)) <==> forall i | 0 <= i < |xs| :: Blank(xs[i])
    decreases xs, 0
  {
    hide Blank, Compile;
    if xs != [] {
      BlanksRight(xs[..|xs| - 1]);
      BlankRight(xs[|xs| - 1]);
    }
  }

  lemma {:induction false} RemainsOfRegex(r: Regex)
    ensures (Remains(Compile(r)).Or? <==> IsBars(r)) && !Remains(Compile(r)).Ref?
    decreases r
  {
    if r.Sequence? && r.xs != [] {
      var init, last := r.xs[..|r.xs| - 1], r.xs[|r.xs| - 1];
      BlanksRight(init);
      RemainsOfRegex(last);
      CompileIsPair(r);
      IsBarsUnfolds(r);
      hide ToUnit, Blank, Compile, IsBars;
      RemainsOfPair(CompileSequence(init), Compile(last));
    } else if r.Escaped? {
      EscapeRemains(r.c);
    } else {
      hide Blank, ToUnit, Escape;
    }
  }

  lemma RemainsOfPair(x: Parser, y: Parser)
    ensures var p := And(StrFold, [x, y]); Remains(p) == if ToUnit(StrFold, x) then Remains(y) else p
  {}

  lemma IsBarsUnfolds(r: Regex)
    requires r.Sequence? && r.xs != []
    ensures var init := r.xs[..|r.xs| - 1];
      IsBars(r) <==> IsBars(r.xs[|r.xs| - 1]) && forall i | 0 <= i < |init| :: Blank(init[i])
  {
    hide Blank;
    var init := r.xs[..|r.xs| - 1];
    assert forall i | 0 <= i < |init| :: init[i] == r.xs[i];
    if IsBars(r) {
      assert forall i | 0 <= i < |init| :: Blank(r.xs[i]);
    }
    if forall i | 0 <= i < |init| :: Blank(init[i]) {
      forall i | 0 <= i < |r.xs| - 1 ensures Blank(r.xs[i]) { assert Blank(init[i]); }
    }
  }

  lemma CompileIsPair(r: Regex)
    requires r.Sequence? && r.xs != []
    ensures Compile(r) == And(StrFold, [CompileSequence(r.xs[..|r.xs| - 1]), Compile(r.xs[|r.xs| - 1])])
  {}

  lemma EscapeRemains(c: char)
    ensures var p := Escape(c); !p.Or? && !p.Ref? && Remains(p) == p && !ToUnit(StrFold, p)
  {}

  lemma {:induction false} SafeCompiled(r: Regex)
    ensures Safe(Compile(r)) <==> SafeRegex(r)
    decreases r, 1
  {
    hide Compile, Safe, SafeRegex, IsBars, Remains;
    match r
    case Star(x) => SafeCompiled(x); SafeAround(r);
    case Plus(x) => SafeCompiled(x); SafeAround(r);
    case Optional(x) => SafeCompiled(x); SafeAround(r);
    case Times(_, x) => SafeCompiled(x); SafeAround(r);
    case Sequence(xs) => SafeCompiledAll(xs); SequenceUnfolds(xs);
    case Either(x, y) =>
      SafeCompiled(x);
      SafeCompiled(y);
      RemainsOfRegex(x);
      SafePair(Compile(x), Compile(y));
      EitherUnfolds(x, y);
    case _ => SafeAtom(r);
  }

  lemma SafeAround(r: Regex)
    requires r.Star? || r.Plus? || r.Optional? || r.Times?
    requires Safe(Compile(r.x)) <==> SafeRegex(r.x)
    ensures Safe(Compile(r)) <==> SafeRegex(r)
  {
    hide Remains, ToUnit, CompileSequence, Escape;
  }

  lemma SequenceUnfolds(xs: seq<Regex>)
    ensures Compile(Sequence(xs)) == CompileSequence(xs)
    ensures SafeRegex(Sequence(xs)) <==> forall i | 0 <= i < |xs| :: SafeRegex(xs[i])
  {
    hide CompileSequence, Escape;
  }

  lemma SafeAtom(r: Regex)
    requires r.Dot? || r.LineStart? || r.LineEnd? || r.Letter? || r.Escaped? || r.Set? || r.NoSet?
    ensures Safe(Compile(r)) && SafeRegex(r)
  {
    hide Safe, Escape, Anchored, Soi, Eoi;
    AnchorsAreSafe();
    match r
    case Escaped(c) => EscapeIsSafe(c);
    case Dot => SafeLeaf(Any);
    case Letter(c) => SafeLeaf(Single(c));
    case Set(_, chars) => SafeLeaf(OneOf(chars)); SafeLeaf(NoneOf(chars));
    case NoSet => SafeLeaf(Fail);
    case _ =>
  }

  lemma EitherUnfolds(x: Regex, y: Regex)
    ensures Compile(Either(x, y)) == Or([Compile(x), Compile(y)])
    ensures SafeRegex(Either(x, y)) <==> !IsBars(x) && SafeRegex(x) && SafeRegex(y)
  {}

  lemma SafePair(x: Parser, y: Parser)
    ensures Safe(Or([x, y])) <==> Safe(x) && Safe(y) && !Remains(x).Or?
    ensures Safe(And(StrFold, [x, y])) <==> Safe(x) && Safe(y) && (ToUnit(StrFold, x) ==> !Remains(y).Ref?)
  {
    hide Remains, ToUnit;
    assert [x, y][0] == x && [x, y][1] == y;
  }

  lemma SafeLeaf(p: Parser)
    requires !Wraps(p) && !Lists(p)
    ensures Safe(p) && Safe(Expect(p)) && Safe(Expect(Expect(p)))
  {}

  lemma SafeWrap(x: Parser)
    requires Safe(x)
    ensures Safe(Expect(x)) && Safe(Not(x, CtorStr))
  {}

  lemma SafeAnchor(holds: (char, char) -> bool)
    ensures var a := Expect(Expect(Anchor(holds))); Safe(a) && Safe(Anchored(a))
  {
    SafeLeaf(Anchor(holds));
    SafeLeaf(Lift(CtorStr));
    hide Remains;
  }

  lemma SafeOr(xs: seq<Parser>)
    requires xs != [] && !Remains(xs[0]).Or? && forall i | 0 <= i < |xs| :: Safe(xs[i])
    ensures Safe(Or(xs))
  {
    hide Remains, ToUnit;
  }

  lemma AlphanumIsSafe()
    ensures Safe(Alphanum())
  {
    var xs := [Expect(Expect(OneOf(LETTERS))), Digit(), Expect(Expect(Single('_')))];
    assert Remains(xs[0]) == xs[0];
    hide Safe, Remains;
    SafeLeaf(OneOf(LETTERS)); SafeLeaf(OneOf(DIGITS)); SafeLeaf(Single('_'));
    SafeOr(xs);
    SafeWrap(Or(xs));
  }

  lemma ClassesAreSafe()
    ensures Safe(Digit()) && Safe(Whitespace()) && Safe(Alphanum()) && Safe(Boundary())
  {
    AlphanumIsSafe();
    hide Safe, Alphanum;
    SafeLeaf(OneOf(DIGITS)); SafeLeaf(OneOf(SPACES)); SafeAnchor(AtBoundary);
  }

  lemma AnchorsAreSafe()
    ensures Safe(Anchored(Boundary())) && Safe(Anchored(Soi())) && Safe(Anchored(Eoi()))
  {
    hide Safe;
    SafeAnchor(AtBoundary); SafeAnchor((prev, next) => prev == NUL); SafeAnchor((prev, next) => next == NUL);
  }

  lemma EscapeIsSafe(c: char)
    ensures Safe(Escape(c))
  {
    hide Safe, Digit, Whitespace, Alphanum, Boundary, Anchored, Soi, Eoi;
    ClassesAreSafe();
    AnchorsAreSafe();
    SafeWrap(Digit()); SafeWrap(Whitespace()); SafeWrap(Alphanum()); SafeWrap(Boundary());
    forall ch: char ensures Safe(Expect(Single(ch))) { SafeLeaf(Single(ch)); }
  }

  lemma {:induction false} SafeCompiledAll(xs: seq<Regex>)
    ensures Safe(CompileSequence(xs)) <==> forall i | 0 <= i < |xs| :: SafeRegex(xs[i])
    decreases xs, 0
  {
    hide Compile, SafeRegex, Remains, ToUnit;
    if xs != [] {
      SafeCompiledAll(xs[..|xs| - 1]);
      SafeCompiled(xs[|xs| - 1]);
      RemainsOfRegex(xs[|xs| - 1]);
      SafePair(CompileSequence(xs[..|xs| - 1]), Compile(xs[|xs| - 1]));
      hide Safe;
    }
  }

  /** The optimiser as coded is defined for a compiled expression exactly when no group with bars
      stands alone before a bar, as in (a|b)|c. */
  lemma CodedRegexExactly(r: Regex)
    ensures CodedOptimise(Compile(r)) == if SafeRegex(r) then Some(Optimise(Compile(r))) else None
  {
    CodedExactly(Compile(r));
    SafeCompiled(r);
  }

  /** So for these expressions what the optimiser as coded leaves behind yields the slice read. */
  lemma CodedRegexSlices(r: Regex, input: string, c: Cursor, backtrack: int, fuel: nat)
    requires NoTimes(r) && SafeRegex(r) && (backtrack >= 1 || SteadyRegex(r)) && c.state.pos <= |input|
    ensures var q := CodedOptimise(Compile(r));
      && q.Some?
      && Sliced(input, c, Run([], input, q.value, c, backtrack, fuel))
      && Run([], input, q.value, c, backtrack, fuel) == Run([], input, Compile(r), c, backtrack, fuel)
  {
    hide Run, Optimise, Compile, NoTimes, SafeRegex;
    CodedRegexExactly(r);
    RegexSlices(r, input, c, backtrack, fuel);
  }

  /** And comes to an end when the bodies of its repeats consume. */
  lemma CodedRegexTerminates(r: Regex, input: string, c: Cursor, backtrack: int, fuel: nat)
    requires NoTimes(r) && SafeRegex(r) && Progressing(Compile(r))
    requires backtrack >= 1 && c.state.pos <= |input| <= c.state.pos + fuel
    ensures var q := CodedOptimise(Compile(r)); q.Some? && !Run([], input, q.value, c, backtrack, fuel).Endless?
  {
    hide Run, Optimise, Compile, NoTimes, SafeRegex, Progressing;
    CodedRegexExactly(r);
    RegexTerminates(r, input, c, backtrack, fuel);
  }

  /** The expression (a|b|d)|c. */
  const GROUP_OR_C: Regex :=
    Either(Sequence([Either(Sequence([Letter('a')]), Either(Sequence([Letter('b')]), Sequence([Letter('d')])))]),
           Sequence([Letter('c')]))

  /** For that one it is not. */
  lemma GroupBeforeBar()
    ensures CodedOptimise(Compile(GROUP_OR_C)) == None
  {
    CodedRegexExactly(GROUP_OR_C);
    assert IsBars(GROUP_OR_C.x);
  }
}
