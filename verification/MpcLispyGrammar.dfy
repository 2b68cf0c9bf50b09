/** The grammar of the Lispy language, as its text is turned into parsers, and its optimisation. */
module MpcLispyGrammar {
  import opened Options
  import opened MpcAst
  import opened MpcParser
  import opened MpcBacktrack
  import opened MpcOptimise
  import opened MpcLeaves
  import opened MpcRules
  import opened MpcOptimisable
  import opened MpcCoded
  import opened MpcRegex
  import opened MpcGrammars

  // ----- the parts of a grammar -----

  function StrAst(v: Val): Option<Val> {
    if v.Str? then Some(Tree(Ast("", v.s, START, []))) else None
  }

  function SetTag(v: Val, t: Val): Option<Val> {
    if v.Tree? && t.Str? then Some(Tree(v.a.(tag := t.s))) else None
  }

  function AddTag(v: Val, t: Val): Option<Val> {
    if v.Null? then Some(Null)
    else if v.Tree? && t.Str? then Some(Tree(v.a.(tag := t.s + "|" + v.a.tag)))
    else None
  }

  function AddRoot(v: Val): Option<Val> {
    if v.Null? || (v.Tree? && |v.a.children| <= 1) then Some(v)
    else if v.Tree? then Some(Tree(Ast(">", "", START, [v.a])))
    else None
  }

  function Blank(): Parser {
    Expect(Apply(Expect(Many(StrFold, Whitespace())), v => Some(Null)))
  }

  /** A parser whose tree gets the state it began at. */
  function Item(x: Parser): Parser {
    And(StateTree, [State, x])
  }

  /** A word of the text and the blanks behind it, as a leaf with this tag. */
  function Token(x: Parser, tag: string): Parser {
    Item(ApplyTo(Apply(And(Nth(0), [x, Blank()]), StrAst), SetTag, Str(tag)))
  }

  function Char(c: char): Parser { Token(Expect(Single(c)), "char") }

  function Word(s: string): Parser { Token(Expect(Literal(s)), "string") }

  function Name(id: nat, name: string): Parser {
    Item(Apply(ApplyTo(Ref(id), AddTag, Str(name)), AddRoot))
  }

  // ----- the grammar -----

  const NUMBER := 0
  const SYMBOL := 1
  const SEXPR := 2
  const QEXPR := 3
  const EXPR := 4
  const LISPY := 5

  const NAMES: set<nat> := {NUMBER, SYMBOL, SEXPR, QEXPR, EXPR, LISPY}

  function Exprs(): Parser { Many(FoldTree, Name(EXPR, "expr")) }

  function SymbolRule(): seq<seq<Parser>> {
    [[Word("list")], [Word("head")], [Word("tail")], [Word("join")], [Word("eval")],
     [Char('+')], [Char('-')], [Char('/')], [Char('*')], [Char('%')], [Char('^')]]
  }

  function ExprRule(): seq<seq<Parser>> {
    [[Name(NUMBER, "number")], [Name(SYMBOL, "symbol")], [Name(SEXPR, "sexpr")], [Name(QEXPR, "qexpr")]]
  }

  /** The rules of the grammar, with the parsers of its three regular expressions. */
  function LispyRules(number: Parser, begin: Parser, end: Parser): (rules: seq<seq<seq<Parser>>>)
    ensures forall i | 0 <= i < |rules| :: rules[i] != []
  {
    [ [[Token(number, "regex")]],
      SymbolRule(),
      [[Char('('), Exprs(), Char(')')]],
      [[Char('{'), Exprs(), Char('}')]],
      ExprRule(),
      [[Token(begin, "regex"), Exprs(), Token(end, "regex")]] ]
  }

  // ----- the grammar may be optimised -----

  /** A parser of words: it may be optimised, and yields something. */
  ghost predicate Worded(x: Parser) {
    Fit(NAMES, {}, x) && NonNull(NAMES, x)
  }

  /** A factor that never yields NULL and rewinds when it fails. */
  ghost predicate Sure(x: Parser) {
    Factor(NAMES, {}, x) && NonNull(NAMES, x) && Restoring({}, x)
  }

  lemma FitWrap(p: Parser)
    requires Wraps(p) && Fit(NAMES, {}, p.x)
    ensures Fit(NAMES, {}, p)
  {
    hide Optimise;
  }

  lemma FitLeaf(p: Parser)
    requires !Wraps(p) && !Lists(p)
    ensures Fit(NAMES, {}, p)
  {}

  lemma FitPair(f: Fold, x: Parser, y: Parser)
    requires !f.FoldTree? && !f.StrFold? && Fit(NAMES, {}, x) && Fit(NAMES, {}, y)
    ensures Fit(NAMES, {}, And(f, [x, y]))
  {
    hide Optimise;
  }

  lemma ItemIsSure(x: Parser)
    requires Worded(x)
    ensures Sure(Item(x))
  {
    FitLeaf(State);
    FitPair(StateTree, State, x);
    ItemStays(x);
    ItemNonNull(x);
    hide Fit, Optimise, NonNull, Item;
  }

  lemma ItemNonNull(x: Parser)
    requires NonNull(NAMES, x)
    ensures NonNull(NAMES, Item(x)) && Restoring({}, Item(x)) && !IsTreeAnd(Item(x))
  {
    assert Item(x).xs[1] == x;
  }

  lemma ItemStays(x: Parser)
    ensures var q := Optimise(Item(x)); !IsTreeAnd(q) && q != Pass
  {
    hide OptimiseAll;
    assert Rule(Rebuild(Item(x))).None?;
  }

  lemma BlankIsFit()
    ensures Fit(NAMES, {}, Blank())
  {
    hide Fit;
    var w := Whitespace();
    FitLeaf(w.x.x);
    FitWrap(w.x);
    FitWrap(w);
    FitWrap(Many(StrFold, w));
    FitWrap(Blank().x.x);
    FitWrap(Blank().x);
    FitWrap(Blank());
  }

  lemma TokenIsSure(x: Parser, tag: string)
    requires Worded(x)
    ensures Sure(Token(x, tag))
  {
    hide Fit, Blank, Sure, SetTag, StrAst;
    var p := And(Nth(0), [x, Blank()]);
    var a := Apply(p, StrAst);
    var t := ApplyTo(a, SetTag, Str(tag));
    BlankIsFit();
    FitPair(Nth(0), x, Blank());
    FitWrap(a);
    FitWrap(t);
    TokenNonNull(p, tag);
    ItemIsSure(t);
  }

  lemma TokenNonNull(p: Parser, tag: string)
    requires NonNull(NAMES, p)
    ensures NonNull(NAMES, ApplyTo(Apply(p, StrAst), SetTag, Str(tag)))
  {
    assert KeepsNonNull(StrAst);
    assert KeepsNonNull(v => SetTag(v, Str(tag)));
  }

  lemma NameIsSure(id: nat, name: string)
    requires id in NAMES
    ensures Sure(Name(id, name))
  {
    hide Fit, Sure;
    var t := ApplyTo(Ref(id), AddTag, Str(name));
    FitLeaf(Ref(id));
    FitWrap(t);
    FitWrap(Apply(t, AddRoot));
    assert KeepsNonNull(v => AddTag(v, Str(name)));
    assert KeepsNonNull(AddRoot);
    assert NonNull(NAMES, Ref(id)) && NonNull(NAMES, t);
    ItemIsSure(Apply(t, AddRoot));
  }

  lemma ExprsIsFactor()
    ensures Factor(NAMES, {}, Exprs())
  {
    hide Name, Fit, Optimise;
    NameIsSure(EXPR, "expr");
    FitWrap(Exprs());
    KeepsKind(Exprs());
  }

  lemma CharIsSure(c: char)
    ensures Sure(Char(c))
  {
    hide Fit, Sure;
    FitLeaf(Single(c));
    FitWrap(Expect(Single(c)));
    assert NonNull(NAMES, Single(c));
    TokenIsSure(Expect(Single(c)), "char");
  }

  lemma WordIsSure(s: string)
    ensures Sure(Word(s))
  {
    hide Fit, Sure;
    FitLeaf(Literal(s));
    FitWrap(Expect(Literal(s)));
    assert NonNull(NAMES, Literal(s));
    TokenIsSure(Expect(Literal(s)), "string");
  }

  lemma LoneTerm(x: Parser)
    requires Sure(x)
    ensures FitTerm(NAMES, {}, [x]) && NonNull(NAMES, Chain([x]))
  {
    hide Factor, Restoring;
    ChainNonNull([x]);
  }

  /** The shape of a bracketed list: three factors of which the outer ones are sure. */
  lemma BracketTerm(x: Parser, y: Parser, z: Parser)
    requires Sure(x) && Factor(NAMES, {}, y) && Sure(z)
    ensures FitTerm(NAMES, {}, [x, y, z]) && NonNull(NAMES, Chain([x, y, z]))
  {
    var xs := [x, y, z];
    hide *;
    ThreeSure(x, y, z);
    assert Factors(NAMES, {}, xs) by { ThreeFactors(x, y, z); }
    ChainNonNull(xs);
    ThreeFit(xs);
  }

  lemma ThreeFactors(x: Parser, y: Parser, z: Parser)
    requires Sure(x) && Factor(NAMES, {}, y) && Sure(z)
    ensures Factors(NAMES, {}, [x, y, z]) && NonNull(NAMES, x) && NonNull(NAMES, z)
  {
    hide Factor, Restoring, NonNull;
  }

  lemma ThreeFit(xs: seq<Parser>)
    requires |xs| == 3 && Factors(NAMES, {}, xs) && SureCount(NAMES, xs) >= 2
    ensures FitTerm(NAMES, {}, xs)
  {
    hide Factors, SureCount, Restoring;
  }

  /** A chain yields something when its last factor does. */
  lemma ChainNonNull(xs: seq<Parser>)
    requires xs != [] && NonNull(NAMES, xs[|xs| - 1])
    ensures NonNull(NAMES, Chain(xs))
  {
    assert Chain(xs).xs[1] == xs[|xs| - 1];
  }

  lemma ThreeSure(x: Parser, y: Parser, z: Parser)
    requires Sure(x) && Sure(z)
    ensures SureCount(NAMES, [x, y, z]) >= 2 && NonNull(NAMES, z)
  {
    hide Factor, Restoring, NonNull;
    assert [x, y, z][1..] == [y, z] && [y, z][1..] == [z] && [z][1..] == [];
    assert SureCount(NAMES, [z]) == 1 + SureCount(NAMES, []);
    assert SureCount(NAMES, [y, z]) >= SureCount(NAMES, [z]);
  }

  ghost predicate FitNonNull(ts: seq<seq<Parser>>) {
    FitRule(NAMES, {}, ts) && NonNull(NAMES, Alternatives(ts))
  }

  lemma OneTerm(t: seq<Parser>)
    requires FitTerm(NAMES, {}, t) && NonNull(NAMES, Chain(t))
    ensures FitNonNull([t])
  {}

  lemma {:induction false} LoneTerms(ts: seq<seq<Parser>>)
    requires ts != [] && forall i | 0 <= i < |ts| :: |ts[i]| == 1 && Sure(ts[i][0])
    ensures FitNonNull(ts)
  {
    hide Sure, FitTerm, Chain;
    assert ts[0] == [ts[0][0]];
    LoneTerm(ts[0][0]);
    if |ts| > 1 {
      LoneTerms(ts[1..]);
      forall i | 0 <= i < |ts| ensures FitTerm(NAMES, {}, ts[i]) {
        if i > 0 { assert ts[i] == ts[1..][i - 1]; }
      }
    }
  }

  lemma NumberFit(number: Parser)
    requires Worded(number)
    ensures FitNonNull([[Token(number, "regex")]])
  {
    hide Sure, FitNonNull, Token, Worded;
    TokenIsSure(number, "regex");
    LoneTerms([[Token(number, "regex")]]);
  }

  lemma SymbolFit()
    ensures FitNonNull(SymbolRule())
  {
    hide Sure, FitNonNull, Char, Word;
    forall s: string ensures Sure(Word(s)) { WordIsSure(s); }
    forall c: char ensures Sure(Char(c)) { CharIsSure(c); }
    LoneTerms(SymbolRule());
  }

  lemma ExprFit()
    ensures FitNonNull(ExprRule())
  {
    hide Sure, FitNonNull, Name;
    NameIsSure(NUMBER, "number"); NameIsSure(SYMBOL, "symbol");
    NameIsSure(SEXPR, "sexpr"); NameIsSure(QEXPR, "qexpr");
    LoneTerms(ExprRule());
  }

  lemma ListFit(x: Parser, z: Parser)
    requires Sure(x) && Sure(z)
    ensures FitNonNull([[x, Exprs(), z]])
  {
    ExprsIsFactor();
    hide Sure, Factor, FitNonNull, Exprs;
    BracketTerm(x, Exprs(), z);
    OneTerm([x, Exprs(), z]);
  }

  lemma LispyRulesFit(number: Parser, begin: Parser, end: Parser)
    requires Worded(number) && Worded(begin) && Worded(end)
    ensures var rules := LispyRules(number, begin, end); forall i | 0 <= i < |rules| :: FitNonNull(rules[i])
  {
    hide Sure, FitNonNull, Token, Char, Exprs, Worded, SymbolRule, ExprRule;
    NumberFit(number);
    SymbolFit();
    CharIsSure('('); CharIsSure(')'); ListFit(Char('('), Char(')'));
    CharIsSure('{'); CharIsSure('}'); ListFit(Char('{'), Char('}'));
    ExprFit();
    TokenIsSure(begin, "regex"); TokenIsSure(end, "regex"); ListFit(Token(begin, "regex"), Token(end, "regex"));
  }

  lemma {:induction false} SlicingIsNonNull(p: Parser)
    requires Slicing(p)
    ensures NonNull(NAMES, p)
    decreases p
  {
    if p.Expect? || p.Maybe? {
      SlicingIsNonNull(p.x);
    } else if p.Or? || (p.And? && p.f.StrFold?) {
      forall i | 0 <= i < |p.xs| ensures NonNull(NAMES, p.xs[i]) { SlicingIsNonNull(p.xs[i]); }
    }
  }

  /** A regular expression is optimised before it becomes part of a rule. */
  lemma RegexIsWorded(r: Regex)
    requires NoTimes(r)
    ensures Worded(Optimise(Compile(r)))
  {
    var p := Compile(r);
    CompiledIsFine(r);
    SlicingIsNonNull(p);
    hide Compile, Optimise, NonNull, Plain;
    OptimiseKeepsPlain({}, p);
    OptimiseKeepsFilled(p);
    OptimiseKeepsNonNull(NAMES, p);
    PlainIsTreed(NAMES, {}, Optimise(p));
    TreedIsOptimisable(NAMES, {}, Optimise(p));
  }

  /** Optimising all rules of the Lispy grammar preserves every run of every name on every input,
      whatever its three regular expressions are. */
  lemma LispySound(number: Regex, begin: Regex, end: Regex, input: string, id: nat, c: Cursor, backtrack: int,
      fuel: nat)
    requires NoTimes(number) && NoTimes(begin) && NoTimes(end)
    ensures var g := GrammarOf(LispyRules(Optimise(Compile(number)), Optimise(Compile(begin)), Optimise(Compile(end))));
      Refines(Run(g, input, Ref(id), c, backtrack, fuel), Run(OptimiseAll(g), input, Ref(id), c, backtrack, fuel))
  {
    hide Run, LispyRules, Worded, NonNull, FitRule, Optimise, Compile, NoTimes;
    RegexIsWorded(number);
    RegexIsWorded(begin);
    RegexIsWorded(end);
    var (n, b, e) := (Optimise(Compile(number)), Optimise(Compile(begin)), Optimise(Compile(end)));
    LispyRulesFit(n, b, e);
    GrammarSound(NAMES, {}, LispyRules(n, b, e), input, id, c, backtrack, fuel);
  }

  /** A list of expressions in brackets becomes one flat sequence of three. */
  lemma BracketsAreFlat(x: Parser, y: Parser, z: Parser)
    requires Sure(x) && Factor(NAMES, {}, y) && Sure(z)
    ensures Optimise(Chain([x, y, z])) == And(FoldTree, [Optimise(x), Optimise(y), Optimise(z)])
  {
    hide Optimise, Fit, NonNull;
    ChainOptimised(NAMES, {}, [x, y, z]);
  }

  // ----- the optimiser as coded -----

  lemma ItemIsSafe(x: Parser)
    requires Safe(x)
    ensures SafeFactor(Item(x))
  {
    assert Safe(State);
    hide Remains, ToUnit;
    SafeOthers(StateTree, State, x);
  }

  lemma SafeOthers(f: Fold, x: Parser, y: Parser)
    requires !f.FoldTree? && !f.StrFold? && Safe(x) && Safe(y)
    ensures Safe(And(f, [x, y]))
  {
    hide Remains, ToUnit;
    assert forall i | 0 <= i < 2 :: Safe([x, y][i]);
  }

  lemma BlankIsSafe()
    ensures Safe(Blank())
  {
    var w := Whitespace();
    assert Safe(w.x.x) && Safe(w.x) && Safe(w);
    hide ToUnit, Remains;
    assert Safe(Many(StrFold, w));
    assert Safe(Blank().x.x) && Safe(Blank().x);
  }

  lemma TokenIsSafe(x: Parser, tag: string)
    requires Safe(x)
    ensures SafeFactor(Token(x, tag))
  {
    BlankIsSafe();
    hide Blank, ToUnit, Remains;
    var p := And(Nth(0), [x, Blank()]);
    SafeOthers(Nth(0), x, Blank());
    var t := ApplyTo(Apply(p, StrAst), SetTag, Str(tag));
    assert Safe(t.x) && Safe(t);
    ItemIsSafe(t);
  }

  lemma WordsAreSafe(c: char, s: string)
    ensures SafeFactor(Char(c)) && SafeFactor(Word(s))
  {
    assert Safe(Single(c)) && Safe(Literal(s));
    assert Safe(Expect(Single(c))) && Safe(Expect(Literal(s)));
    TokenIsSafe(Expect(Single(c)), "char");
    TokenIsSafe(Expect(Literal(s)), "string");
  }

  lemma NameIsSafe(id: nat, name: string)
    ensures SafeFactor(Name(id, name))
  {
    var t := ApplyTo(Ref(id), AddTag, Str(name));
    assert Safe(Ref(id)) && Safe(t) && Safe(Apply(t, AddRoot));
    ItemIsSafe(Apply(t, AddRoot));
  }

  lemma ExprsIsSafe()
    ensures SafeFactor(Exprs())
  {
    NameIsSafe(EXPR, "expr");
    hide Name;
  }

  ghost predicate SafeFactors(ts: seq<seq<Parser>>) {
    forall i, j | 0 <= i < |ts| && 0 <= j < |ts[i]| :: SafeFactor(ts[i][j])
  }

  lemma LoneFactorsSafe(ts: seq<seq<Parser>>)
    requires forall i | 0 <= i < |ts| :: |ts[i]| == 1 && SafeFactor(ts[i][0])
    ensures SafeFactors(ts)
  {}

  lemma SymbolSafe()
    ensures SafeFactors(SymbolRule())
  {
    hide SafeFactor, SafeFactors, Char, Word;
    forall c: char, s: string ensures SafeFactor(Char(c)) && SafeFactor(Word(s)) { WordsAreSafe(c, s); }
    LoneFactorsSafe(SymbolRule());
  }

  lemma ExprSafe()
    ensures SafeFactors(ExprRule())
  {
    hide SafeFactor, SafeFactors, Name;
    forall id: nat, s: string ensures SafeFactor(Name(id, s)) { NameIsSafe(id, s); }
    LoneFactorsSafe(ExprRule());
  }

  lemma ListSafe(x: Parser, z: Parser)
    requires SafeFactor(x) && SafeFactor(z)
    ensures SafeFactors([[x, Exprs(), z]])
  {
    ExprsIsSafe();
    hide SafeFactor, Exprs;
  }

  lemma LispyRulesSafe(number: Parser, begin: Parser, end: Parser)
    requires Safe(number) && Safe(begin) && Safe(end)
    ensures var rules := LispyRules(number, begin, end); forall i | 0 <= i < |rules| :: SafeFactors(rules[i])
  {
    TokenIsSafe(number, "regex"); TokenIsSafe(begin, "regex"); TokenIsSafe(end, "regex");
    WordsAreSafe('(', ""); WordsAreSafe(')', ""); WordsAreSafe('{', ""); WordsAreSafe('}', "");
    hide SafeFactor, SafeFactors, Token, Char, Exprs, SymbolRule, ExprRule, Safe;
    LoneFactorsSafe([[Token(number, "regex")]]);
    SymbolSafe();
    ListSafe(Char('('), Char(')'));
    ListSafe(Char('{'), Char('}'));
    ExprSafe();
    ListSafe(Token(begin, "regex"), Token(end, "regex"));
  }

  /** For the Lispy grammar the optimiser as coded is defined and does what it is meant to do. */
  lemma LispyCoded(number: Regex, begin: Regex, end: Regex, id: nat)
    requires NoTimes(number) && NoTimes(begin) && NoTimes(end)
    ensures var g := GrammarOf(LispyRules(Optimise(Compile(number)), Optimise(Compile(begin)), Optimise(Compile(end))));
      id < |g| ==> CodedOptimise(g[id]) == Some(Optimise(g[id]))
  {
    OptimisedIsSafe(number); OptimisedIsSafe(begin); OptimisedIsSafe(end);
    var (n, b, e) := (Optimise(Compile(number)), Optimise(Compile(begin)), Optimise(Compile(end)));
    LispyRulesSafe(n, b, e);
    hide Optimise, Compile, Safe, LispyRules, CodedOptimise, SafeFactor;
    var rules := LispyRules(n, b, e);
    if id < |rules| {
      assert SafeFactors(rules[id]);
      AlternativesSafe(rules[id]);
      CodedExactly(Alternatives(rules[id]));
    }
  }

  lemma OptimisedIsSafe(r: Regex)
    requires NoTimes(r)
    ensures Safe(Optimise(Compile(r)))
  {
    CompiledIsFine(r);
    hide Compile, Optimise, Plain;
    OptimiseIsNormal(Compile(r));
    OptimiseKeepsFilled(Compile(r));
    NormalIsSafe(Optimise(Compile(r)));
  }
}
