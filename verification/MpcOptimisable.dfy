/** What the optimiser asks of a parser, and what is known of the results of its runs. */
module MpcOptimisable {
  import opened Options
  import opened MpcAst
  import opened MpcParser
  import opened MpcBacktrack
  import opened MpcOptimise
  import opened MpcLeaves
  import opened MpcRules

  // ----- what the optimiser asks of a grammar -----

  predicate AtEnd(i: int, n: int) {
    i == 0 || i == n - 1
  }

  /** Nothing is merged: after optimising, neither end is a sequence of this kind. */
  ghost predicate Unmerged(f: Fold, ys: seq<Parser>)
    requires ys != []
  {
    !SameFold(f, ys[0]) && !SameFold(f, ys[|ys| - 1])
  }

  /** A group of three or more is sure to have a part: without any, its root is empty and still
      counts as a part. */
  ghost predicate Quiet(nn: set<nat>, n: nat, zs: seq<Parser>) {
    n >= 3 ==> SureCount(nn, zs) >= 1
  }

  /** A tree sequence that yields a root whenever it succeeds. */
  predicate Rooted(p: Parser)
    decreases p
  {
    IsTreeAnd(p) && (|p.xs| >= 3 || exists i | 0 <= i < |p.xs| :: AtEnd(i, |p.xs|) && Rooted(p.xs[i]))
  }

  /** An element of a sequence with the fold f. What is merged into it only has to be loose. */
  ghost predicate FitElement(nn: set<nat>, rn: set<nat>, f: Fold, x: Parser, end: bool)
    decreases x, 3
  {
    if end && SameFold(f, x) then Loose(nn, rn, x)
    else
      && Optimisable(nn, rn, x)
      && (end && f.FoldTree? && IsTreeAnd(Optimise(x)) ==> Quiet(nn, |Optimise(x).xs|, Optimise(x).xs))
  }

  ghost predicate FitElements(nn: set<nat>, rn: set<nat>, f: Fold, xs: seq<Parser>)
    decreases xs, 0
  {
    forall i | 0 <= i < |xs| :: FitElement(nn, rn, f, xs[i], AtEnd(i, |xs|))
  }

  /** A sequence that is merged into another one of its kind. */
  ghost predicate Loose(nn: set<nat>, rn: set<nat>, p: Parser)
    decreases p, 2
  {
    && IsFoldAnd(p) && FitElements(nn, rn, p.f, p.xs)
    && (p.f.FoldTree? ==> Quiet(nn, |p.xs|, Leaves(p.f, Optimise(p))))
  }

  /** A parser that may be optimised. Only of sequences in which something is dropped or merged
      anything is demanded. */
  ghost predicate Optimisable(nn: set<nat>, rn: set<nat>, p: Parser)
    decreases p, 1
  {
    if IsFoldAnd(p) then FitElements(nn, rn, p.f, p.xs) && MergesExactly(nn, rn, p)
    else
      && (Wraps(p) ==> Optimisable(nn, rn, p.x))
      && (Lists(p) ==> forall i | 0 <= i < |p.xs| :: Optimisable(nn, rn, p.xs[i]))
  }

  /** What is left alone after a drop rewinds. A tree sequence into which something is merged
      has at most two leaves, or two that are sure to yield a tree, or a root anyway. */
  ghost predicate MergesExactly(nn: set<nat>, rn: set<nat>, p: Parser)
    requires IsFoldAnd(p)
    decreases p, 0
  {
    && p.xs != []
    && var ys := OptimiseAll(p.xs);
       if Drops(p.f, ys) then Optimisable(nn, rn, p.xs[1]) && Restoring(rn, p.xs[1])
       else p.f.StrFold? || Unmerged(p.f, ys) || FlatEnough(nn, Ends(p.f, ys)) || Rooted(p)
  }

  ghost predicate FlatEnough(nn: set<nat>, zs: seq<Parser>) {
    |zs| <= 2 || SureCount(nn, zs) >= 2
  }

  ghost predicate Fit(nn: set<nat>, rn: set<nat>, p: Parser) {
    Filled(p) && Optimisable(nn, rn, p)
  }

  /** The names in nn never yield NULL, those in rn rewind when they fail. */
  ghost predicate KnownNames(nn: set<nat>, rn: set<nat>, g: Grammar) {
    NonNullGrammar(nn, g) && RestoringGrammar(rn, g)
  }

  /** q is p itself, or p optimised where that is allowed. */
  ghost predicate Kept(nn: set<nat>, rn: set<nat>, p: Parser, q: Parser) {
    q == p || (q == Optimise(p) && Fit(nn, rn, p))
  }

  /** Each name is bound to its old body or to the optimised one. */
  ghost predicate Optimised(nn: set<nat>, rn: set<nat>, g: Grammar, h: Grammar) {
    |h| == |g| && forall id | 0 <= id < |g| :: Kept(nn, rn, g[id], h[id])
  }

  // ----- sure parts do yield something -----

  ghost predicate YieldsSomething(g: Grammar, input: string, x: Parser, backtrack: int, fuel: nat) {
    forall c: Cursor, less: nat | less <= fuel ::
      var o := Run(g, input, x, c, backtrack, less); o.Ok? ==> o.v != Null
  }

  lemma FoldedNonNull(f: Fold, vs: seq<Val>, to: Cursor)
    requires f.StrFold? || (f.FoldTree? && vs != [] && forall i :: 0 <= i < |vs| ==> vs[i] != Null)
    ensures var o := Folded(f, vs, to); o.Ok? ==> o.v != Null
  {}

  lemma {:induction false} ManyNonNull(g: Grammar, input: string, f: Fold, x: Parser, once: bool, c: Cursor,
      backtrack: int, vs: seq<Val>, fuel: nat)
    requires f.StrFold? || (f.FoldTree? && once && forall i :: 0 <= i < |vs| ==> vs[i] != Null)
    requires f.FoldTree? ==> YieldsSomething(g, input, x, backtrack, fuel)
    ensures var o := RunMany(g, input, f, x, once, c, backtrack, vs, fuel); o.Ok? ==> o.v != Null
    decreases fuel
  {
    hide Run, Folded;
    var o := Run(g, input, x, c, backtrack, fuel);
    if o.Ok? && fuel > 0 {
      ManyNonNull(g, input, f, x, once, o.to, backtrack, vs + [o.v], fuel - 1);
    } else if o.Bad? && !(once && vs == []) {
      FoldedNonNull(f, vs, o.to);
    }
  }

  lemma {:induction false} CountNonNull(g: Grammar, input: string, n: int, f: Fold, x: Parser, c: Cursor,
      backtrack: int, vs: seq<Val>, fuel: nat)
    requires f.StrFold? || (f.FoldTree? && n >= 1 && forall i :: 0 <= i < |vs| ==> vs[i] != Null)
    requires f.FoldTree? ==> YieldsSomething(g, input, x, backtrack, fuel)
    ensures var o := RunCount(g, input, n, f, x, c, backtrack, vs, fuel); o.Ok? ==> o.v != Null
    decreases 4 - |vs| + (if n > 4 then n else 4)
  {
    hide Run, Folded;
    if !(n <= |vs| && 4 <= |vs|) {
      var o := Run(g, input, x, c, backtrack, fuel);
      if o.Ok? {
        FoldedNonNull(f, vs + [o.v], o.to);
        if |vs| + 1 != n { CountNonNull(g, input, n, f, x, o.to, backtrack, vs + [o.v], fuel); }
      } else if o.Bad? && |vs| == n {
        FoldedNonNull(f, vs, o.to);
      }
    }
  }

  /** The syntactic test is right: such a parser never succeeds with NULL. */
  lemma {:induction false} NonNullSound(nn: set<nat>, g: Grammar, input: string, p: Parser, c: Cursor, backtrack: int,
      fuel: nat)
    requires NonNullGrammar(nn, g) && NonNull(nn, p)
    ensures var o := Run(g, input, p, c, backtrack, fuel); o.Ok? ==> o.v != Null
    decreases fuel, p, 1
  {
    match p
    case Expect(x) => NonNullSound(nn, g, input, x, c, backtrack, fuel);
    case Apply(x, _) => NonNullSound(nn, g, input, x, c, backtrack, fuel);
    case ApplyTo(x, f, d) =>
      NonNullSound(nn, g, input, x, c, backtrack, fuel);
    case Predict(x) => NonNullSound(nn, g, input, x, c, backtrack - 1, fuel);
    case Maybe(x, _) => NonNullSound(nn, g, input, x, c, backtrack, fuel);
    case Many(f, x) => ManyNonNull(g, input, f, x, false, c, backtrack, [], fuel);
    case Many1(f, x) =>
      if f.FoldTree? { NonNullBelow(nn, g, input, x, backtrack, fuel); }
      ManyNonNull(g, input, f, x, true, c, backtrack, [], fuel);
    case Count(n, f, x) =>
      if f.FoldTree? { NonNullBelow(nn, g, input, x, backtrack, fuel); }
      CountNonNull(g, input, n, f, x, c, backtrack, [], fuel);
    case Or(xs) => OrNonNull(nn, g, input, xs, c, backtrack, fuel);
    case And(f, xs) => AndNonNull(nn, g, input, f, xs, c, backtrack, fuel);
    case Ref(id) => if id < |g| && fuel > 0 { NonNullSound(nn, g, input, g[id], c, backtrack, fuel - 1); }
    case _ =>
  }

  lemma {:induction false} NonNullBelow(nn: set<nat>, g: Grammar, input: string, x: Parser, backtrack: int, fuel: nat)
    requires NonNullGrammar(nn, g) && NonNull(nn, x)
    ensures YieldsSomething(g, input, x, backtrack, fuel)
    decreases fuel, x, 2
  {
    forall d: Cursor, less: nat | less <= fuel && Run(g, input, x, d, backtrack, less).Ok?
      ensures Run(g, input, x, d, backtrack, less).v != Null
    {
      NonNullSound(nn, g, input, x, d, backtrack, less);
    }
  }

  lemma {:induction false} OrNonNull(nn: set<nat>, g: Grammar, input: string, xs: seq<Parser>, c: Cursor,
      backtrack: int, fuel: nat)
    requires NonNullGrammar(nn, g) && forall i | 0 <= i < |xs| :: NonNull(nn, xs[i])
    ensures var o := RunOr(g, input, xs, c, backtrack, fuel); o.Ok? ==> o.v != Null
    decreases fuel, xs, 0
  {
    hide Run, NonNull;
    if xs != [] {
      NonNullSound(nn, g, input, xs[0], c, backtrack, fuel);
      var o := Run(g, input, xs[0], c, backtrack, fuel);
      if o.Bad? { OrNonNull(nn, g, input, xs[1..], o.to, backtrack, fuel); }
    }
  }

  /** What a finished sequence has collected, with its sure elements not NULL. */
  lemma {:induction false} GatherSure(nn: set<nat>, g: Grammar, input: string, xs: seq<Parser>, c: Cursor,
      backtrack: int, fuel: nat)
    requires NonNullGrammar(nn, g)
    ensures var s := Gather(g, input, xs, c, backtrack, fuel);
            s.All? ==> && |s.vs| == |xs|
                       && (forall i :: 0 <= i < |xs| && NonNull(nn, xs[i]) ==> s.vs[i] != Null)
                       && NonNulls(s.vs) >= SureCount(nn, xs)
    decreases fuel, xs, 1
  {
    hide Run, NonNull;
    forall x: Parser, d: Cursor | x in xs && NonNull(nn, x) && Run(g, input, x, d, backtrack, fuel).Ok?
      ensures Run(g, input, x, d, backtrack, fuel).v != Null
    {
      NonNullSound(nn, g, input, x, d, backtrack, fuel);
    }
    GatherNonNull(nn, g, input, xs, c, backtrack, fuel);
  }

  lemma {:induction false} AndNonNull(nn: set<nat>, g: Grammar, input: string, f: Fold, xs: seq<Parser>, c: Cursor,
      backtrack: int, fuel: nat)
    requires NonNullGrammar(nn, g) && NonNull(nn, And(f, xs))
    ensures var o := RunAnd(g, input, f, xs, c, c, backtrack, [], fuel); o.Ok? ==> o.v != Null
    decreases fuel, xs, 2
  {
    hide Run;
    AndGathers(g, input, f, xs, c, c, backtrack, [], fuel);
    GatherSure(nn, g, input, xs, c, backtrack, fuel);
    var s := Gather(g, input, xs, c, backtrack, fuel);
    if s.All? {
      assert [] + s.vs == s.vs;
      FoldOfSure(nn, f, xs, s.vs);
    }
  }

  lemma FoldOfSure(nn: set<nat>, f: Fold, xs: seq<Parser>, vs: seq<Val>)
    requires NonNull(nn, And(f, xs)) && |vs| == |xs|
    requires forall i :: 0 <= i < |xs| && NonNull(nn, xs[i]) ==> vs[i] != Null
    ensures ApplyFold(f, vs) != Some(Null)
  {}

  // ----- optimising keeps what is known of the results -----

  /** A merge keeps what is known about the results. */
  lemma MergeKeepsNonNull(nn: set<nat>, p: Parser, i: nat)
    requires MergesAt(p, i) && NonNull(nn, p) && p.xs[i].xs != []
    ensures NonNull(nn, WithList(p, Splice(p.xs, i)))
  {
    var ys := Splice(p.xs, i);
    if p.Or? || p.f.StrFold? {
      forall k | 0 <= k < |ys| ensures NonNull(nn, ys[k]) { SpliceElement(p.xs, i, k); }
    } else if |ys| < 3 {
      var j :| 0 <= j < |p.xs| && NonNull(nn, p.xs[j]);
      var k := SpliceKeepsSure(nn, p.xs, i, j);
    }
  }

  lemma SpliceKeepsSure(nn: set<nat>, xs: seq<Parser>, i: nat, j: nat) returns (k: nat)
    requires i < |xs| && j < |xs| && IsTreeAnd(xs[i]) && NonNull(nn, xs[j]) && |Splice(xs, i)| < 3 && xs[i].xs != []
    ensures k < |Splice(xs, i)| && NonNull(nn, Splice(xs, i)[k])
  {
    if j == i {
      var m :| 0 <= m < |xs[i].xs| && NonNull(nn, xs[i].xs[m]);
      k := i + m;
    } else {
      k := if j < i then j else j + |xs[i].xs| - 1;
    }
    SpliceElement(xs, i, k);
  }

  lemma RuleKeepsNonNull(nn: set<nat>, p: Parser)
    requires Filled(p) && NonNull(nn, p) && Rule(p).Some?
    ensures NonNull(nn, Rule(p).value)
  {
    var i := RuleCases(p);
    if DropsFirst(p) {
      if p.f.FoldTree? {
        var j :| 0 <= j < |p.xs| && NonNull(nn, p.xs[j]);
        assert !NonNull(nn, p.xs[0]);
      }
    } else {
      assert Filled(p.xs[i]);
      MergeKeepsNonNull(nn, p, i);
    }
  }

  lemma {:induction false} RewriteKeepsNonNull(nn: set<nat>, p: Parser)
    requires Filled(p) && NonNull(nn, p)
    ensures NonNull(nn, Rewrite(p))
    decreases Size(p)
  {
    hide NonNull, Filled, Rule;
    if Rule(p).Some? {
      RuleKeepsNonNull(nn, p);
      RuleKeepsFilled(p);
      RuleShrinks(p);
      RewriteKeepsNonNull(nn, Rule(p).value);
    }
  }

  lemma {:induction false} OptimiseKeepsNonNull(nn: set<nat>, p: Parser)
    requires Filled(p) && NonNull(nn, p)
    ensures NonNull(nn, Optimise(p))
    decreases p
  {
    if Wraps(p) {
      if NonNull(nn, p.x) { OptimiseKeepsNonNull(nn, p.x); }
    } else if Lists(p) {
      forall i | 0 <= i < |p.xs| && NonNull(nn, p.xs[i]) ensures NonNull(nn, Optimise(p.xs[i])) {
        OptimiseKeepsNonNull(nn, p.xs[i]);
      }
    }
    RebuildKeepsNonNull(nn, p);
    OptimiseKeepsFilled(p);
    hide NonNull, Filled, Rewrite;
    RewriteKeepsNonNull(nn, Rebuild(p));
    OptimiseUnfolds(p);
  }

  lemma RebuildKeepsNonNull(nn: set<nat>, p: Parser)
    requires NonNull(nn, p)
    requires Wraps(p) && NonNull(nn, p.x) ==> NonNull(nn, Optimise(p.x))
    requires Lists(p) ==> forall i | 0 <= i < |p.xs| :: NonNull(nn, p.xs[i]) ==> NonNull(nn, Optimise(p.xs[i]))
    ensures NonNull(nn, Rebuild(p))
  {
    hide Optimise;
  }
}
