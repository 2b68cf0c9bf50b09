/** The Lispy grammar comes to an end on every input. */
module MpcLispyEnds {
  import opened Options
  import opened MpcAst
  import opened MpcParser
  import opened MpcOptimise
  import opened MpcLeaves
  import opened MpcRegex
  import opened MpcGrammars
  import opened MpcLispyGrammar
  import opened MpcTermination

  /** The names whose every success reads something: all but the whole program. */
  const READERS: set<nat> := {NUMBER, SYMBOL, SEXPR, QEXPR, EXPR}

  /** An expression enters the other four before it reads, a program enters expressions. */
  const RANKS: seq<nat> := [0, 0, 0, 0, 1, 2]

  const TOP: nat := 2

  predicate Begins(r: nat, p: Parser) { Early(READERS, RANKS, TOP, r, p) }

  predicate Reads(p: Parser) { Advances(READERS, p) }

  // ----- factors -----

  lemma PairBegins(f: Fold, r: nat, x: Parser, y: Parser)
    ensures Reads(And(f, [x, y])) <==> Reads(x) || Reads(y)
    ensures Begins(r, And(f, [x, y])) <==> Begins(r, x) && Begins(if Reads(x) then TOP + 1 else r, y)
  {
    AndIsAll(READERS, RANKS, TOP, r, f, [x, y]);
    hide Advances, Early;
    FirstOrRest(READERS, [x, y]);
    assert [x, y][1..] == [y];
    OneOfThem(READERS, RANKS, TOP, if Advances(READERS, x) then TOP + 1 else r, y);
  }

  lemma AroundBegins(r: nat, p: Parser)
    requires p.Expect? || p.Apply? || p.ApplyTo?
    ensures (Reads(p) <==> Reads(p.x)) && (Begins(r, p) <==> Begins(r, p.x))
  {}

  lemma ItemBegins(r: nat, x: Parser)
    ensures (Reads(Item(x)) <==> Reads(x)) && (Begins(r, Item(x)) <==> Begins(r, x))
  {
    assert !Reads(State) && Begins(r, State);
    hide Reads, Begins;
    PairBegins(StateTree, r, State, x);
  }

  lemma BlankBegins(r: nat)
    ensures Begins(r, Blank())
  {
    var w := Whitespace();
    assert Reads(w.x.x) && Begins(r, w.x.x);
    AroundBegins(r, w.x);
    AroundBegins(r, w);
    assert Begins(r, Many(StrFold, w)) by { hide Advances; }
    hide Reads, Begins;
    AroundBegins(r, Blank().x.x);
    AroundBegins(r, Blank().x);
    AroundBegins(r, Blank());
  }

  lemma TokenBegins(r: nat, x: Parser, tag: string)
    ensures Reads(x) ==> Reads(Token(x, tag))
    ensures r <= TOP + 1 && Begins(r, x) ==> Begins(r, Token(x, tag))
  {
    hide Reads, Begins, Blank;
    var p := And(Nth(0), [x, Blank()]);
    BlankBegins(r);
    BlankBegins(TOP + 1);
    PairBegins(Nth(0), r, x, Blank());
    var t := ApplyTo(Apply(p, StrAst), SetTag, Str(tag));
    AroundBegins(r, t.x);
    AroundBegins(r, t);
    ItemBegins(r, t);
  }

  lemma CharBegins(r: nat, ch: char)
    requires r <= TOP + 1
    ensures Reads(Char(ch)) && Begins(r, Char(ch))
  {
    assert Reads(Single(ch)) && Begins(r, Single(ch));
    AroundBegins(r, Expect(Single(ch)));
    TokenBegins(r, Expect(Single(ch)), "char");
  }

  lemma WordBegins(r: nat, s: string)
    requires r <= TOP + 1 && s != ""
    ensures Reads(Word(s)) && Begins(r, Word(s))
  {
    assert Reads(Literal(s)) && Begins(r, Literal(s));
    AroundBegins(r, Expect(Literal(s)));
    TokenBegins(r, Expect(Literal(s)), "string");
  }

  lemma NameBegins(r: nat, id: nat, name: string)
    requires id in READERS && RANKS[id] < r
    ensures Reads(Name(id, name)) && Begins(r, Name(id, name))
  {
    var t := ApplyTo(Ref(id), AddTag, Str(name));
    assert Reads(Ref(id)) && Begins(r, Ref(id));
    hide Reads, Begins;
    AroundBegins(r, t);
    AroundBegins(r, Apply(t, AddRoot));
    ItemBegins(r, Apply(t, AddRoot));
  }

  lemma ExprsBegin(r: nat)
    requires r > 1
    ensures Begins(r, Exprs())
  {
    NameBegins(r, EXPR, "expr");
    hide Name, Advances;
  }

  // ----- rules -----

  lemma {:induction false} ChainBegins(r: nat, xs: seq<Parser>)
    ensures Reads(Chain(xs)) <==> SomeAdvances(READERS, xs)
    ensures Begins(r, Chain(xs)) <==> EarlyAll(READERS, RANKS, TOP, r, xs)
  {
    if xs != [] {
      var init, x := xs[..|xs| - 1], xs[|xs| - 1];
      ChainBegins(r, init);
      ChainUnfolds(xs);
      assert xs == init + [x];
      PairBegins(FoldTree, r, Chain(init), x);
      SomeInEither(READERS, init, [x]);
      EarlyAppend(READERS, RANKS, TOP, r, init, [x]);
      OneOfThem(READERS, RANKS, TOP, After(READERS, TOP, r, init), x);
      hide Advances, Early, Chain, SomeAdvances, EarlyAll;
    }
  }

  predicate TermBegins(r: nat, t: seq<Parser>, eats: bool) {
    EarlyAll(READERS, RANKS, TOP, r, t) && (eats ==> SomeAdvances(READERS, t))
  }

  lemma {:induction false} RuleBegins(r: nat, ts: seq<seq<Parser>>, eats: bool)
    requires ts != [] && forall i | 0 <= i < |ts| :: TermBegins(r, ts[i], eats)
    ensures Begins(r, Alternatives(ts)) && (eats ==> Reads(Alternatives(ts)))
  {
    assert TermBegins(r, ts[0], eats);
    ChainBegins(r, ts[0]);
    hide Chain, TermBegins;
    if |ts| > 1 {
      RuleBegins(r, ts[1..], eats);
      hide Alternatives;
      var x, y := Chain(ts[0]), Alternatives(ts[1..]);
      OrBegins(r, x, y);
      assert Alternatives(ts) == Or([x, y]) by { AlternativesUnfold(ts); }
    }
  }

  lemma AlternativesUnfold(ts: seq<seq<Parser>>)
    requires |ts| > 1
    ensures Alternatives(ts) == Or([Chain(ts[0]), Alternatives(ts[1..])])
  {}

  lemma OrBegins(r: nat, x: Parser, y: Parser)
    ensures Begins(r, x) && Begins(r, y) ==> Begins(r, Or([x, y]))
    ensures Reads(x) && Reads(y) ==> Reads(Or([x, y]))
  {
    OrAdvances(READERS, [x, y]);
    OrEarly(READERS, RANKS, TOP, r, [x, y]);
    hide Advances, Early;
  }

  lemma LoneTermBegins(r: nat, x: Parser)
    requires Reads(x) && Begins(r, x)
    ensures TermBegins(r, [x], true)
  {
    OneOfThem(READERS, RANKS, TOP, r, x);
    hide Advances, Early;
  }

  /** A bracketed list of expressions, and a program: before the expressions something is read, or else
      the rank allows for them. */
  lemma ListTermBegins(r: nat, x: Parser, y: Parser)
    requires r <= TOP + 1 && Begins(r, x) && Begins(r, y) && Begins(TOP + 1, y) && (Reads(x) || r > 1)
    ensures TermBegins(r, [x, Exprs(), y], Reads(x))
  {
    var s := if Reads(x) then TOP + 1 else r;
    ExprsBegin(s);
    hide Advances, Early, Exprs, SomeAdvances;
    FirstOrRest(READERS, [x, Exprs(), y]);
    OneOfThem(READERS, RANKS, TOP, s, y);
    assert [x, Exprs(), y][1..] == [Exprs(), y] && [Exprs(), y][1..] == [y];
    OneOfThem(READERS, RANKS, TOP, if Reads(Exprs()) then TOP + 1 else s, y);
    ExprsRead();
    assert EarlyAll(READERS, RANKS, TOP, s, [Exprs(), y]);
  }

  lemma ExprsRead()
    ensures !Reads(Exprs())
  {}

  // ----- the three expressions -----

  /** An expression whose repeats read. */
  predicate Ending(r: Regex) {
    NoTimes(r) && Progressing(Compile(r))
  }

  lemma {:induction false} ConsumingAdvances(p: Parser)
    requires Consuming(p)
    ensures Reads(p)
    decreases p
  {
    if p.Expect? || p.Many1? {
      ConsumingAdvances(p.x);
    } else if p.Or? {
      forall i | 0 <= i < |p.xs| ensures Advances(READERS, p.xs[i]) { ConsumingAdvances(p.xs[i]); }
    } else if p.And? {
      var i :| 0 <= i < |p.xs| && Consuming(p.xs[i]);
      ConsumingAdvances(p.xs[i]);
    }
  }

  lemma {:induction false} ProgressingBegins(r: nat, p: Parser)
    requires Progressing(p)
    ensures Begins(r, p)
    decreases p, 1
  {
    if p.Many? || p.Many1? { ConsumingAdvances(p.x); }
    if Wraps(p) {
      ProgressingBegins(r, p.x);
    } else if p.Or? {
      forall i | 0 <= i < |p.xs| ensures Early(READERS, RANKS, TOP, r, p.xs[i]) { ProgressingBegins(r, p.xs[i]); }
    } else if p.And? {
      ProgressingAllBegin(r, p.xs);
    }
  }

  lemma {:induction false} ProgressingAllBegin(r: nat, xs: seq<Parser>)
    requires forall i | 0 <= i < |xs| :: Progressing(xs[i])
    ensures EarlyAll(READERS, RANKS, TOP, r, xs)
    decreases xs, 0
  {
    hide Progressing;
    if xs != [] {
      ProgressingBegins(r, xs[0]);
      ProgressingAllBegin(if Advances(READERS, xs[0]) then TOP + 1 else r, xs[1..]);
    }
  }

  lemma RegexBegins(k: nat, r: Regex)
    requires Ending(r)
    ensures Begins(k, Optimise(Compile(r))) && (Consuming(Compile(r)) ==> Reads(Optimise(Compile(r))))
  {
    var p := Compile(r);
    CompiledIsFine(r);
    ProgressingBegins(k, p);
    if Consuming(p) { ConsumingAdvances(p); }
    hide Optimise, Compile, Consuming, Advances, Early, Filled;
    OptimiseKeepsEarly(READERS, RANKS, TOP, k, p);
  }

  /** The expressions of the grammar: an optional sign and digits, the beginning and the end. */
  function NumberExpr(): Regex { Sequence([Regex.Optional(Letter('-')), Plus(Set(false, DIGITS))]) }

  function BeginExpr(): Regex { Sequence([LineStart]) }

  function EndExpr(): Regex { Sequence([LineEnd]) }

  lemma PairEnds(x: Parser, y: Parser)
    requires Progressing(x) && Progressing(y)
    ensures Progressing(And(StrFold, [x, y])) && (Consuming(y) ==> Consuming(And(StrFold, [x, y])))
  {
    assert [x, y][1] == y;
  }

  lemma ExpressionsEnd()
    ensures Ending(NumberExpr()) && Consuming(Compile(NumberExpr())) && Ending(BeginExpr()) && Ending(EndExpr())
  {
    hide Progressing, Consuming, Compile, CompileSequence;
    var sign, digits := Regex.Optional(Letter('-')), Plus(Set(false, DIGITS));
    SignEnds();
    DigitsEnd();
    AnchorsEnd();
    PairEnds(Lift(CtorStr), Compile(sign));
    PairEnds(And(StrFold, [Lift(CtorStr), Compile(sign)]), Compile(digits));
    TwoFactors(sign, digits);
    PairEnds(Lift(CtorStr), Compile(LineStart));
    PairEnds(Lift(CtorStr), Compile(LineEnd));
    TermCompiled(LineStart);
    TermCompiled(LineEnd);
  }

  lemma SignEnds()
    ensures Progressing(Compile(Regex.Optional(Letter('-')))) && Progressing(Lift(CtorStr))
  {
    var s := Compile(Letter('-'));
    assert Progressing(s.x) && Progressing(s);
  }

  lemma DigitsEnd()
    ensures var d := Compile(Plus(Set(false, DIGITS))); Progressing(d) && Consuming(d)
  {
    var d := Compile(Set(false, DIGITS));
    assert Progressing(d.x) && Consuming(d.x) && Progressing(d) && Consuming(d);
  }

  lemma AnchorsEnd()
    ensures Progressing(Compile(LineStart)) && Progressing(Compile(LineEnd))
  {
    AnchorEnds((prev, next) => prev == NUL);
    AnchorEnds((prev, next) => next == NUL);
    hide Progressing;
  }

  lemma AnchorEnds(holds: (char, char) -> bool)
    ensures Progressing(Anchored(Expect(Expect(Anchor(holds)))))
  {
    var a := Anchor(holds);
    assert Progressing(a) && Progressing(Expect(a)) && Progressing(Expect(Expect(a))) && Progressing(Lift(CtorStr));
  }

  lemma TwoFactors(x: Regex, y: Regex)
    ensures Compile(Sequence([x, y])) == And(StrFold, [And(StrFold, [Lift(CtorStr), Compile(x)]), Compile(y)])
  {
    TermCompiled(x);
    assert [x, y][..1] == [x];
    hide Compile;
    assert CompileSequence([x, y]) == And(StrFold, [CompileSequence([x, y][..1]), Compile(y)]);
  }

  // ----- the grammar -----

  lemma SymbolBegins()
    ensures SymbolRule() != [] && forall i | 0 <= i < |SymbolRule()| :: TermBegins(0, SymbolRule()[i], true)
  {
    hide TermBegins, Reads, Begins, Char, Word;
    forall s: string | s != "" ensures TermBegins(0, [Word(s)], true) { WordBegins(0, s); LoneTermBegins(0, Word(s)); }
    forall ch: char ensures TermBegins(0, [Char(ch)], true) { CharBegins(0, ch); LoneTermBegins(0, Char(ch)); }
  }

  lemma ExprBegins()
    ensures ExprRule() != [] && forall i | 0 <= i < |ExprRule()| :: TermBegins(1, ExprRule()[i], true)
  {
    forall id: nat, s: string | id < 4 ensures TermBegins(1, [Name(id, s)], true) {
      NameBegins(1, id, s);
      LoneTermBegins(1, Name(id, s));
    }
    hide TermBegins, Reads, Begins, Name;
  }

  lemma BracketsBegin(open: char, close: char)
    ensures TermBegins(0, [Char(open), Exprs(), Char(close)], true)
  {
    hide TermBegins, Reads, Begins, Char, Exprs;
    CharBegins(0, open); CharBegins(0, close); CharBegins(TOP + 1, close);
    ListTermBegins(0, Char(open), Char(close));
  }

  lemma ProgramBegins(begin: Parser, end: Parser)
    requires Begins(2, begin) && Begins(2, end) && Begins(TOP + 1, end)
    ensures TermBegins(2, [Token(begin, "regex"), Exprs(), Token(end, "regex")], false)
  {
    TokenBegins(2, begin, "regex"); TokenBegins(2, end, "regex"); TokenBegins(TOP + 1, end, "regex");
    hide Reads, Begins, Token, Exprs, EarlyAll, SomeAdvances;
    ListTermBegins(2, Token(begin, "regex"), Token(end, "regex"));
  }

  lemma RulesRanked(number: Parser, begin: Parser, end: Parser)
    requires Begins(0, number) && Reads(number) && Begins(2, begin) && Begins(2, end) && Begins(TOP + 1, end)
    ensures var g := GrammarOf(LispyRules(number, begin, end));
      forall id | 0 <= id < |g| :: Begins(RANKS[id], g[id]) && (id in READERS ==> Reads(g[id]))
  {
    hide TermBegins, Reads, Begins, Token, Char, Exprs, SymbolRule, ExprRule, Alternatives;
    TokenBegins(0, number, "regex");
    LoneTermBegins(0, Token(number, "regex"));
    OneTermBegins(0, [Token(number, "regex")], true);
    SymbolBegins();
    RuleBegins(0, SymbolRule(), true);
    BracketsBegin('(', ')');
    OneTermBegins(0, [Char('('), Exprs(), Char(')')], true);
    BracketsBegin('{', '}');
    OneTermBegins(0, [Char('{'), Exprs(), Char('}')], true);
    ExprBegins();
    RuleBegins(1, ExprRule(), true);
    ProgramBegins(begin, end);
    OneTermBegins(2, [Token(begin, "regex"), Exprs(), Token(end, "regex")], false);
  }

  lemma OneTermBegins(r: nat, t: seq<Parser>, eats: bool)
    requires TermBegins(r, t, eats)
    ensures Begins(r, Alternatives([t])) && (eats ==> Reads(Alternatives([t])))
  {
    hide TermBegins, Alternatives;
    RuleBegins(r, [t], eats);
  }

  /** With fuel of three for every character left, and three more, no run of any name of the Lispy grammar
      is endless, before and after all its rules are optimised. */
  lemma LispyEnds(number: Regex, begin: Regex, end: Regex, input: string, id: nat, c: Cursor, backtrack: int, fuel: nat)
    requires Ending(number) && Consuming(Compile(number)) && Ending(begin) && Ending(end)
    requires c.state.pos <= |input| && 3 * (|input| - c.state.pos) + 3 <= fuel
    ensures var g := GrammarOf(LispyRules(Optimise(Compile(number)), Optimise(Compile(begin)), Optimise(Compile(end))));
      && !Run(g, input, Ref(id), c, backtrack, fuel).Endless?
      && !Run(OptimiseAll(g), input, Ref(id), c, backtrack, fuel).Endless?
  {
    RegexBegins(0, number);
    RegexBegins(2, begin);
    RegexBegins(2, end);
    RegexBegins(TOP + 1, end);
    RegexIsWorded(number); RegexIsWorded(begin); RegexIsWorded(end);
    var (n, b, e) := (Optimise(Compile(number)), Optimise(Compile(begin)), Optimise(Compile(end)));
    hide Run, Optimise, Compile, LispyRules, Reads, Begins, Worded, Filled, Consuming, Ending, FitNonNull;
    RulesRanked(n, b, e);
    LispyRulesFilled(n, b, e);
    LispyRanked(n, b, e);
    GrammarEnds(READERS, RANKS, TOP, GrammarOf(LispyRules(n, b, e)), input, id, c, backtrack, fuel);
  }

  lemma LispyRulesFilled(number: Parser, begin: Parser, end: Parser)
    requires Worded(number) && Worded(begin) && Worded(end)
    ensures var g := GrammarOf(LispyRules(number, begin, end)); forall id | 0 <= id < |g| :: Filled(g[id])
  {
    LispyRulesFit(number, begin, end);
    var rules := LispyRules(number, begin, end);
    hide LispyRules, Alternatives, FitTerm, Worded, Filled;
    forall id | 0 <= id < |rules| ensures Filled(Alternatives(rules[id])) {
      assert FitNonNull(rules[id]);
      AlternativesFit(NAMES, {}, rules[id]);
    }
  }

  lemma LispyRanked(number: Parser, begin: Parser, end: Parser)
    requires var g := GrammarOf(LispyRules(number, begin, end));
      forall id | 0 <= id < |g| :: id < 6 ==> Begins(RANKS[id], g[id]) && (id in READERS ==> Reads(g[id]))
    ensures Ranked(READERS, RANKS, TOP, GrammarOf(LispyRules(number, begin, end)))
  {
    hide Advances, Early, Alternatives;
  }
}
