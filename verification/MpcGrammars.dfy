/** What the optimiser's conditions come to: for parsers of strings, and for the rules of
    grammars given as text, such as the Lispy grammar. */
module MpcGrammars {
  import opened Options
  import opened MpcAst
  import opened MpcParser
  import opened MpcBacktrack
  import opened MpcOptimise
  import opened MpcLeaves
  import opened MpcRules
  import opened MpcOptimisable
  import opened MpcCoded
  import opened MpcSoundness

  // ----- parsers without COUNT and PREDICT -----

  /** What is asked of a tree sequence: the groups merged into it are quiet, and nothing is merged,
      or the result of the merge is the same. */
  ghost predicate TreeFit(nn: set<nat>, p: Parser)
    requires IsTreeAnd(p)
  {
    && p.xs != []
    && var ys := OptimiseAll(p.xs);
       && (forall i | 0 <= i < |p.xs| && AtEnd(i, |p.xs|) :: QuietGroup(nn, p.xs[i]))
       && (Drops(FoldTree, ys) || Unmerged(FoldTree, ys) || FlatEnough(nn, Ends(FoldTree, ys)) || Rooted(p))
  }

  ghost predicate QuietGroup(nn: set<nat>, x: Parser) {
    var zs := Leaves(FoldTree, Optimise(x));
    Quiet(nn, if IsTreeAnd(x) then |x.xs| else |zs|, zs)
  }

  /** No COUNT, no PREDICT, only names in rn, and tree sequences of that kind. */
  ghost predicate Treed(nn: set<nat>, rn: set<nat>, p: Parser)
    decreases p
  {
    && !p.Count? && !p.Predict? && (p.Ref? ==> p.id in rn) && (IsTreeAnd(p) ==> TreeFit(nn, p))
    && (Wraps(p) ==> Treed(nn, rn, p.x))
    && (Lists(p) ==> forall i | 0 <= i < |p.xs| :: Treed(nn, rn, p.xs[i]))
  }

  lemma {:induction false} TreedRestores(nn: set<nat>, rn: set<nat>, p: Parser)
    requires Treed(nn, rn, p)
    ensures Restoring(rn, p)
    decreases p
  {
    hide TreeFit;
    if Wraps(p) {
      TreedRestores(nn, rn, p.x);
    } else if Lists(p) {
      forall i | 0 <= i < |p.xs| ensures Restoring(rn, p.xs[i]) { TreedRestores(nn, rn, p.xs[i]); }
    }
  }

  /** Such a parser may be optimised, and where it is merged into another it may be too. */
  lemma {:induction false} TreedIsOptimisable(nn: set<nat>, rn: set<nat>, p: Parser)
    requires Treed(nn, rn, p) && Filled(p)
    ensures Optimisable(nn, rn, p)
    ensures IsStrAnd(p) || (IsTreeAnd(p) && QuietGroup(nn, p)) ==> Loose(nn, rn, p)
    decreases p
  {
    hide Restoring, NonNull, Optimise, TreeFit, QuietGroup;
    if Wraps(p) {
      TreedIsOptimisable(nn, rn, p.x);
    } else if Lists(p) {
      forall i | 0 <= i < |p.xs| ensures MayStand(nn, rn, p.xs[i]) {
        TreedIsOptimisable(nn, rn, p.xs[i]);
        TreedRestores(nn, rn, p.xs[i]);
      }
      hide Optimisable, Loose;
      if IsStrAnd(p) {
        StringsFit(nn, rn, p);
      } else if IsTreeAnd(p) {
        TreesFit(nn, rn, p);
      } else {
        OthersFit(nn, rn, p);
      }
    }
  }

  ghost predicate MayStand(nn: set<nat>, rn: set<nat>, x: Parser) {
    && Optimisable(nn, rn, x) && Restoring(rn, x)
    && (IsStrAnd(x) || (IsTreeAnd(x) && QuietGroup(nn, x)) ==> Loose(nn, rn, x))
  }

  lemma OthersFit(nn: set<nat>, rn: set<nat>, p: Parser)
    requires Lists(p) && !IsFoldAnd(p) && forall i | 0 <= i < |p.xs| :: MayStand(nn, rn, p.xs[i])
    ensures Optimisable(nn, rn, p)
  {
    hide Restoring, Loose, QuietGroup;
    assert forall i | 0 <= i < |p.xs| :: MayStand(nn, rn, p.xs[i]) && Optimisable(nn, rn, p.xs[i]);
  }

  lemma StringsFit(nn: set<nat>, rn: set<nat>, p: Parser)
    requires IsStrAnd(p) && p.xs != [] && forall i | 0 <= i < |p.xs| :: MayStand(nn, rn, p.xs[i])
    ensures Optimisable(nn, rn, p) && Loose(nn, rn, p)
  {
    hide Restoring, NonNull, Optimise, QuietGroup;
    forall i | 0 <= i < |p.xs| ensures FitElement(nn, rn, p.f, p.xs[i], AtEnd(i, |p.xs|)) {
      assert MayStand(nn, rn, p.xs[i]);
    }
    assert |p.xs| == 2 ==> MayStand(nn, rn, p.xs[1]);
    hide Loose, FitElement;
    assert FitElements(nn, rn, p.f, p.xs);
  }

  lemma TreesFit(nn: set<nat>, rn: set<nat>, p: Parser)
    requires IsTreeAnd(p) && TreeFit(nn, p) && forall i | 0 <= i < |p.xs| :: MayStand(nn, rn, p.xs[i])
    ensures Optimisable(nn, rn, p) && (QuietGroup(nn, p) ==> Loose(nn, rn, p))
  {
    assert Drops(p.f, OptimiseAll(p.xs)) ==> |p.xs| == 2;
    hide Restoring, NonNull, Optimise, Ends, Rooted, Unmerged, FlatEnough, Drops;
    forall i | 0 <= i < |p.xs| ensures FitElement(nn, rn, p.f, p.xs[i], AtEnd(i, |p.xs|)) {
      assert MayStand(nn, rn, p.xs[i]) && (AtEnd(i, |p.xs|) ==> QuietGroup(nn, p.xs[i]));
    }
    assert |p.xs| == 2 ==> MayStand(nn, rn, p.xs[1]);
    hide FitElement;
    assert FitElements(nn, rn, p.f, p.xs);
    assert MergesExactly(nn, rn, p);
  }

  /** For every grammar of such parsers, without empty alternatives and merged sequences, optimising
      all names at once preserves every run. */
  lemma PlainOptimiseSound(nn: set<nat>, rn: set<nat>, g: Grammar, input: string, p: Parser, c: Cursor,
      backtrack: int, fuel: nat)
    requires NonNullGrammar(nn, g) && forall id | 0 <= id < |g| :: Treed(nn, rn, g[id]) && Filled(g[id])
    requires Treed(nn, rn, p) && Filled(p)
    ensures Refines(Run(g, input, p, c, backtrack, fuel), Run(OptimiseAll(g), input, Optimise(p), c, backtrack, fuel))
  {
    forall id | 0 <= id < |g| ensures Fit(nn, rn, g[id]) && Restoring(rn, g[id]) {
      TreedIsOptimisable(nn, rn, g[id]);
      TreedRestores(nn, rn, g[id]);
    }
    TreedIsOptimisable(nn, rn, p);
    hide Run, Treed, Optimisable, Restoring, Filled, NonNull, Optimise;
    OptimiseSound(nn, rn, g, OptimiseAll(g), input, p, c, backtrack, fuel);
  }

  // ----- parsers of strings -----

  /** No COUNT, no PREDICT, no tree sequence, and only names in rn. */
  ghost predicate Plain(rn: set<nat>, p: Parser)
    decreases p
  {
    && !p.Count? && !p.Predict? && !IsTreeAnd(p) && (p.Ref? ==> p.id in rn)
    && (Wraps(p) ==> Plain(rn, p.x))
    && (Lists(p) ==> forall i | 0 <= i < |p.xs| :: Plain(rn, p.xs[i]))
  }

  lemma {:induction false} PlainIsTreed(nn: set<nat>, rn: set<nat>, p: Parser)
    requires Plain(rn, p)
    ensures Treed(nn, rn, p)
    decreases p
  {
    if Wraps(p) {
      PlainIsTreed(nn, rn, p.x);
    } else if Lists(p) {
      forall i | 0 <= i < |p.xs| ensures Treed(nn, rn, p.xs[i]) { PlainIsTreed(nn, rn, p.xs[i]); }
    }
  }

  lemma RuleKeepsPlain(rn: set<nat>, p: Parser)
    requires Plain(rn, p) && Rule(p).Some?
    ensures Plain(rn, Rule(p).value)
  {
    var i := RuleCases(p);
    if !DropsFirst(p) {
      var ys := Splice(p.xs, i);
      assert Plain(rn, p.xs[i]);
      forall k | 0 <= k < |ys| ensures Plain(rn, ys[k]) { SpliceElement(p.xs, i, k); }
    }
  }

  lemma {:induction false} RewriteKeepsPlain(rn: set<nat>, p: Parser)
    requires Plain(rn, p)
    ensures Plain(rn, Rewrite(p))
    decreases Size(p)
  {
    hide Plain, Rule;
    if Rule(p).Some? {
      RuleKeepsPlain(rn, p);
      RuleShrinks(p);
      RewriteKeepsPlain(rn, Rule(p).value);
    }
  }

  lemma {:induction false} OptimiseKeepsPlain(rn: set<nat>, p: Parser)
    requires Plain(rn, p)
    ensures Plain(rn, Optimise(p))
    decreases p
  {
    if Wraps(p) {
      OptimiseKeepsPlain(rn, p.x);
    } else if Lists(p) {
      forall i | 0 <= i < |p.xs| ensures Plain(rn, Optimise(p.xs[i])) { OptimiseKeepsPlain(rn, p.xs[i]); }
    }
    assert Plain(rn, Rebuild(p)) by { hide Optimise; }
    hide Plain, Rewrite;
    RewriteKeepsPlain(rn, Rebuild(p));
    OptimiseUnfolds(p);
  }

  // ----- rules of a grammar -----

  /** The left-leaning chain behind a pass that a rule becomes. */
  function Chain(xs: seq<Parser>): Parser {
    if xs == [] then Pass else And(FoldTree, [Chain(xs[..|xs| - 1]), xs[|xs| - 1]])
  }

  function Given(xs: seq<Option<Parser>>): seq<Parser> {
    if xs == [] then [] else Given(xs[..|xs| - 1]) + if xs[|xs| - 1].Some? then [xs[|xs| - 1].value] else []
  }

  /** How many of the factors are there. */
  function Present(xs: seq<Option<Parser>>): nat {
    if xs == [] then 0 else Present(xs[1..]) + if xs[0].Some? then 1 else 0
  }

  /** Every factor that is there stands behind just those before it, and there are no others. */
  lemma {:induction false} GivenStands(xs: seq<Option<Parser>>, k: nat)
    requires k < |xs| && xs[k].Some?
    ensures |Given(xs)| == Present(xs) > Present(xs[..k]) && Given(xs)[Present(xs[..k])] == xs[k].value
  {
    var n := |xs| - 1;
    PresentNext(xs[..k], xs[k]);
    GivenCount(xs[..n]);
    GivenCount(xs);
    if k < n {
      assert xs[..n][..k] == xs[..k];
      GivenStands(xs[..n], k);
    }
  }

  lemma {:induction false} GivenCount(xs: seq<Option<Parser>>)
    ensures |Given(xs)| == Present(xs)
  {
    if xs != [] {
      var n := |xs| - 1;
      GivenCount(xs[..n]);
      PresentNext(xs[..n], xs[n]);
      assert xs[..n] + [xs[n]] == xs;
    }
  }

  lemma {:induction false} PresentNext(xs: seq<Option<Parser>>, x: Option<Parser>)
    ensures Present(xs + [x]) == Present(xs) + if x.Some? then 1 else 0
  {
    if xs == [] {
      assert [x][1..] == [];
    } else {
      PresentNext(xs[1..], x);
      assert (xs + [x])[1..] == xs[1..] + [x];
    }
  }

  /** The fold that builds the chain; factors that are NULL are skipped. */
  method BuildChain(xs: seq<Option<Parser>>) returns (p: Parser)
    ensures p == Chain(Given(xs))
  {
    p := Pass;
    for i := 0 to |xs|
      invariant p == Chain(Given(xs[..i]))
    {
      assert xs[..i + 1][..i] == xs[..i];
      ghost var before := Given(xs[..i]);
      assert Given(xs[..i + 1]) == before + if xs[i].Some? then [xs[i].value] else [];
      if xs[i].Some? {
        assert (before + [xs[i].value])[..|before|] == before;
        p := And(FoldTree, [p, xs[i].value]);
      } else {
        assert before + [] == before;
      }
    }
    assert xs[..|xs|] == xs;
  }

  /** A factor that is neither a tree sequence nor a pass, and may be optimised. */
  ghost predicate Factor(nn: set<nat>, rn: set<nat>, x: Parser) {
    Fit(nn, rn, x) && !IsTreeAnd(x) && !IsTreeAnd(Optimise(x)) && Optimise(x) != Pass
  }

  ghost predicate Factors(nn: set<nat>, rn: set<nat>, xs: seq<Parser>) {
    forall i | 0 <= i < |xs| :: Factor(nn, rn, xs[i])
  }

  lemma {:induction false} ChainFilled(nn: set<nat>, rn: set<nat>, xs: seq<Parser>)
    requires Factors(nn, rn, xs)
    ensures Filled(Chain(xs))
  {
    if xs != [] {
      var init := xs[..|xs| - 1];
      ChainFilled(nn, rn, init);
      assert Factor(nn, rn, xs[|xs| - 1]);
    }
  }

  /** The chain becomes one flat sequence, or the lone factor. */
  lemma {:induction false} ChainOptimised(nn: set<nat>, rn: set<nat>, xs: seq<Parser>)
    requires Factors(nn, rn, xs) && xs != []
    ensures Optimise(Chain(xs)) == if |xs| == 1 then Optimise(xs[0]) else And(FoldTree, OptimiseAll(xs))
    decreases |xs|, 0
  {
    var init, x := xs[..|xs| - 1], xs[|xs| - 1];
    ChainFilled(nn, rn, xs);
    OptimiseEnds(Chain(xs));
    ChainElements(xs);
    ChainLeaves(nn, rn, init);
    assert Factor(nn, rn, x) && Factor(nn, rn, xs[0]);
    hide *;
    ChainEnds(xs, Optimise(Chain(init)));
  }

  /** The elements of a chain, behind what its first ones have become. */
  lemma ChainEnds(xs: seq<Parser>, q: Parser)
    requires xs != [] && Optimise(xs[0]) != Pass && !IsTreeAnd(Optimise(xs[|xs| - 1]))
    requires Leaves(FoldTree, q) == if |xs| == 1 then [Pass] else OptimiseAll(xs[..|xs| - 1])
    ensures Drops(FoldTree, [q, Optimise(xs[|xs| - 1])]) <==> |xs| == 1
    ensures |xs| > 1 ==> Ends(FoldTree, [q, Optimise(xs[|xs| - 1])]) == OptimiseAll(xs)
    ensures |xs| == 1 ==> xs[0] == xs[|xs| - 1]
  {
    var init, x := xs[..|xs| - 1], xs[|xs| - 1];
    var ys := [q, Optimise(x)];
    hide *;
    if |xs| == 1 {
      DropsToSecond(ys);
    } else {
      assert init[0] == xs[0];
      OpensToAll(ys, OptimiseAll(init));
      AllInTwo(xs);
    }
  }

  lemma AllInTwo(xs: seq<Parser>)
    requires xs != []
    ensures OptimiseAll(xs) == OptimiseAll(xs[..|xs| - 1]) + [Optimise(xs[|xs| - 1])]
  {
    hide Optimise, OptimiseAll;
    var init := xs[..|xs| - 1];
    var ys, zs := OptimiseAll(xs), OptimiseAll(init);
    forall i | 0 <= i < |zs| ensures ys[i] == zs[i] {
      assert zs[i] == Optimise(init[i]) && init[i] == xs[i];
    }
    InTwo(ys, zs, Optimise(xs[|xs| - 1]));
  }

  lemma InTwo<T>(ys: seq<T>, zs: seq<T>, y: T)
    requires |ys| == |zs| + 1 && ys[|zs|] == y && forall i :: 0 <= i < |zs| ==> ys[i] == zs[i]
    ensures ys == zs + [y]
  {}

  lemma ChainElements(xs: seq<Parser>)
    requires xs != []
    ensures var p := Chain(xs);
        IsTreeAnd(p) && OptimiseAll(p.xs) == [Optimise(Chain(xs[..|xs| - 1])), Optimise(xs[|xs| - 1])]
  {
    ChainUnfolds(xs);
    hide Optimise, OptimiseAll, Chain;
    AllOfTwo(Chain(xs[..|xs| - 1]), xs[|xs| - 1]);
  }

  lemma DropsToSecond(ys: seq<Parser>)
    requires |ys| == 2 && Leaves(FoldTree, ys[0]) == [Pass]
    ensures Drops(FoldTree, ys)
  {}

  lemma OpensToAll(ys: seq<Parser>, zs: seq<Parser>)
    requires |ys| == 2 && Leaves(FoldTree, ys[0]) == zs && zs != [] && zs[0] != Pass && !IsTreeAnd(ys[1])
    ensures !Drops(FoldTree, ys) && Ends(FoldTree, ys) == zs + [ys[1]]
  {
    assert ys[1..1] == [];
  }

  lemma PassStays()
    ensures Optimise(Pass) == Pass
  {}

  lemma {:induction false} ChainLeaves(nn: set<nat>, rn: set<nat>, xs: seq<Parser>)
    requires Factors(nn, rn, xs)
    ensures Leaves(FoldTree, Optimise(Chain(xs))) == if xs == [] then [Pass] else OptimiseAll(xs)
    decreases |xs|, 1
  {
    hide Optimise, Fit;
    if xs == [] {
      PassStays();
    } else {
      ChainOptimised(nn, rn, xs);
      assert Factor(nn, rn, xs[0]);
      if |xs| == 1 { assert OptimiseAll(xs) == [Optimise(xs[0])]; }
    }
  }

  lemma FactorElement(nn: set<nat>, rn: set<nat>, x: Parser)
    requires Factor(nn, rn, x)
    ensures FitElement(nn, rn, FoldTree, x, true)
  {}

  lemma PassElement(nn: set<nat>, rn: set<nat>)
    ensures FitElement(nn, rn, FoldTree, Pass, true)
  {
    PassStays();
  }

  /** Whatever the factors, what is merged of a chain is loose. */
  lemma {:induction false} ChainLoose(nn: set<nat>, rn: set<nat>, xs: seq<Parser>)
    requires Factors(nn, rn, xs) && xs != []
    ensures Loose(nn, rn, Chain(xs))
  {
    var init, x := xs[..|xs| - 1], xs[|xs| - 1];
    assert Factor(nn, rn, x);
    FactorElement(nn, rn, x);
    if init == [] { PassElement(nn, rn); } else { ChainLoose(nn, rn, init); }
    hide Optimise, Optimisable, Factor;
    var p := Chain(xs);
    assert p == And(FoldTree, [Chain(init), x]);
    forall i | 0 <= i < |p.xs| ensures FitElement(nn, rn, FoldTree, p.xs[i], AtEnd(i, |p.xs|)) {
      assert p.xs[i] == if i == 0 then Chain(init) else x;
    }
  }

  lemma {:induction false} SureStays(nn: set<nat>, xs: seq<Parser>)
    requires forall i | 0 <= i < |xs| :: Filled(xs[i])
    ensures SureCount(nn, OptimiseAll(xs)) >= SureCount(nn, xs)
  {
    hide Optimise, NonNull, Filled;
    if xs != [] {
      SureStays(nn, xs[1..]);
      if NonNull(nn, xs[0]) { OptimiseKeepsNonNull(nn, xs[0]); }
      assert OptimiseAll(xs)[1..] == OptimiseAll(xs[1..]);
    }
  }

  /** A lone factor rewinds; of three and more, two are sure to yield a tree. */
  ghost predicate FitTerm(nn: set<nat>, rn: set<nat>, xs: seq<Parser>) {
    && Factors(nn, rn, xs)
    && (|xs| == 1 ==> Restoring(rn, xs[0]))
    && (|xs| >= 3 ==> SureCount(nn, xs) >= 2)
  }

  /** Such a chain may be optimised. */
  lemma ChainFit(nn: set<nat>, rn: set<nat>, xs: seq<Parser>)
    requires FitTerm(nn, rn, xs)
    ensures Fit(nn, rn, Chain(xs)) && Restoring(rn, Chain(xs))
  {
    ChainFilled(nn, rn, xs);
    if xs != [] {
      var p := Chain(xs);
      ChainLoose(nn, rn, xs);
      ChainMerges(nn, rn, xs);
      hide FitElements, MergesExactly, Optimise;
      assert IsFoldAnd(p) && FitElements(nn, rn, p.f, p.xs);
    }
  }

  lemma ChainMerges(nn: set<nat>, rn: set<nat>, xs: seq<Parser>)
    requires FitTerm(nn, rn, xs) && xs != []
    ensures IsFoldAnd(Chain(xs)) && MergesExactly(nn, rn, Chain(xs))
  {
    var init, x := xs[..|xs| - 1], xs[|xs| - 1];
    ChainElements(xs);
    ChainLeaves(nn, rn, init);
    forall i | 0 <= i < |xs| ensures Filled(xs[i]) { assert Factor(nn, rn, xs[i]); }
    assert Factor(nn, rn, x) && Factor(nn, rn, xs[0]);
    SureStays(nn, xs);
    ChainEnds(xs, Optimise(Chain(init)));
    hide Optimise, Filled, Restoring, NonNull, SureCount, Optimisable, Drops, Ends, Factor, Leaves, Unmerged, Rooted;
    assert Optimisable(nn, rn, x);
    assert Chain(xs).xs[1] == x;
  }

  /** What a rule with the alternatives ts becomes. */
  function Alternatives(ts: seq<seq<Parser>>): Parser
    requires ts != []
  {
    if |ts| == 1 then Chain(ts[0]) else Or([Chain(ts[0]), Alternatives(ts[1..])])
  }

  ghost predicate FitRule(nn: set<nat>, rn: set<nat>, ts: seq<seq<Parser>>) {
    ts != [] && forall i | 0 <= i < |ts| :: FitTerm(nn, rn, ts[i])
  }

  lemma {:induction false} AlternativesFit(nn: set<nat>, rn: set<nat>, ts: seq<seq<Parser>>)
    requires FitRule(nn, rn, ts)
    ensures Fit(nn, rn, Alternatives(ts)) && Restoring(rn, Alternatives(ts))
  {
    hide FitTerm, Chain, Optimise;
    assert FitTerm(nn, rn, ts[0]);
    ChainFit(nn, rn, ts[0]);
    if |ts| > 1 {
      AlternativesFit(nn, rn, ts[1..]);
      OrFit(nn, rn, Chain(ts[0]), Alternatives(ts[1..]));
    }
  }

  lemma OrFit(nn: set<nat>, rn: set<nat>, x: Parser, y: Parser)
    requires Fit(nn, rn, x) && Fit(nn, rn, y) && Restoring(rn, x) && Restoring(rn, y)
    ensures Fit(nn, rn, Or([x, y])) && Restoring(rn, Or([x, y]))
  {
    hide Optimise;
  }

  function GrammarOf(rules: seq<seq<seq<Parser>>>): Grammar
    requires forall i | 0 <= i < |rules| :: rules[i] != []
  {
    seq(|rules|, i requires 0 <= i < |rules| => Alternatives(rules[i]))
  }

  /** For every grammar of such rules, optimising each of them preserves every run of every name. */
  lemma GrammarSound(nn: set<nat>, rn: set<nat>, rules: seq<seq<seq<Parser>>>, input: string, id: nat, c: Cursor,
      backtrack: int, fuel: nat)
    requires forall i | 0 <= i < |rules| :: rules[i] != [] && FitRule(nn, rn, rules[i])
    requires NonNullGrammar(nn, GrammarOf(rules))
    ensures Refines(Run(GrammarOf(rules), input, Ref(id), c, backtrack, fuel),
        Run(OptimiseAll(GrammarOf(rules)), input, Ref(id), c, backtrack, fuel))
  {
    var g := GrammarOf(rules);
    forall i | 0 <= i < |g| ensures Fit(nn, rn, g[i]) && Restoring(rn, g[i]) { AlternativesFit(nn, rn, rules[i]); }
    NameFit(nn, rn, id);
    hide Run, FitRule, Optimise, Fit, Restoring, NonNullGrammar;
    OptimiseSound(nn, rn, g, OptimiseAll(g), input, Ref(id), c, backtrack, fuel);
  }

  lemma NameFit(nn: set<nat>, rn: set<nat>, id: nat)
    ensures Fit(nn, rn, Ref(id)) && Optimise(Ref(id)) == Ref(id)
  {}

  // ----- the optimiser as coded -----

  /** A factor that may be optimised as coded and is no list the rules look at, no name and no pass. */
  predicate SafeFactor(x: Parser) {
    Safe(x) && !x.Or? && !IsFoldAnd(x) && !x.Ref? && !x.Pass?
  }

  lemma {:induction false} ChainSafe(xs: seq<Parser>)
    requires forall i | 0 <= i < |xs| :: SafeFactor(xs[i])
    ensures Safe(Chain(xs)) && (ToUnit(FoldTree, Chain(xs)) <==> xs == [])
    ensures !Remains(Chain(xs)).Or? && !Remains(Chain(xs)).Ref?
  {
    if xs != [] {
      var init, x := xs[..|xs| - 1], xs[|xs| - 1];
      ChainSafe(init);
      assert SafeFactor(x);
      ToUnitUnfolds(FoldTree, Chain(xs));
      hide Safe, Chain, ToUnit;
      assert Chain(xs) == And(FoldTree, [Chain(init), x]) by { ChainUnfolds(xs); }
      SafeTreePair(Chain(init), x);
    }
  }

  lemma ChainUnfolds(xs: seq<Parser>)
    requires xs != []
    ensures Chain(xs) == And(FoldTree, [Chain(xs[..|xs| - 1]), xs[|xs| - 1]])
  {}

  lemma SafeTreePair(x: Parser, y: Parser)
    ensures Safe(And(FoldTree, [x, y])) <==> Safe(x) && Safe(y) && (ToUnit(FoldTree, x) ==> !Remains(y).Ref?)
    ensures Remains(And(FoldTree, [x, y])) == if ToUnit(FoldTree, x) then Remains(y) else And(FoldTree, [x, y])
  {
    assert [x, y][0] == x && [x, y][1] == y;
  }

  lemma SafeOrPair(x: Parser, y: Parser)
    requires Safe(x) && Safe(y) && !Remains(x).Or?
    ensures Safe(Or([x, y]))
  {}

  /** For rules of such factors the optimiser as coded is defined. */
  lemma {:induction false} AlternativesSafe(ts: seq<seq<Parser>>)
    requires ts != [] && forall i, j | 0 <= i < |ts| && 0 <= j < |ts[i]| :: SafeFactor(ts[i][j])
    ensures Safe(Alternatives(ts))
  {
    hide Safe, Chain, SafeFactor, Remains;
    ChainSafe(ts[0]);
    if |ts| > 1 {
      AlternativesSafe(ts[1..]);
      SafeOrPair(Chain(ts[0]), Alternatives(ts[1..]));
    }
  }
}
