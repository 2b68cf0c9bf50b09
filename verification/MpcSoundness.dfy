/** Optimising preserves meaning: every run of an optimised grammar has the outcome of the
    same run of the original one, unless the original run had no meaning at all. */
module MpcSoundness {
  import opened Options
  import opened MpcAst
  import opened MpcParser
  import opened MpcBacktrack
  import opened MpcOptimise
  import opened MpcLeaves
  import opened MpcRules
  import opened MpcNear
  import opened MpcOptimisable
  import opened MpcCoded

  // ----- whole grammars -----

  ghost predicate Setting(nn: set<nat>, rn: set<nat>, g: Grammar, h: Grammar) {
    KnownNames(nn, rn, g) && Optimised(nn, rn, g, h)
  }

  lemma OptimisedNonNull(nn: set<nat>, rn: set<nat>, g: Grammar, h: Grammar)
    requires Setting(nn, rn, g, h)
    ensures NonNullGrammar(nn, h)
  {
    hide NonNull, Optimisable;
    forall id | id in nn && id < |h| ensures NonNull(nn, h[id]) {
      assert NonNull(nn, g[id]) && Kept(nn, rn, g[id], h[id]);
      if h[id] != g[id] { OptimiseKeepsNonNull(nn, g[id]); }
    }
  }

  /** q is p with children kept. */
  ghost predicate SameShape(nn: set<nat>, rn: set<nat>, p: Parser, q: Parser) {
    if Wraps(p) then Wraps(q) && q == p.(x := q.x) && Kept(nn, rn, p.x, q.x)
    else if Lists(p) then
      Lists(q) && q == WithList(p, q.xs) && |q.xs| == |p.xs|
          && forall i | 0 <= i < |p.xs| :: Kept(nn, rn, p.xs[i], q.xs[i])
    else q == p
  }

  // ----- merged sequences -----

  /** The leaves of one element in the sequence it is merged into. */
  function LeafOf(f: Fold, x: Parser, end: bool): seq<Parser> {
    if end then Leaves(f, Optimise(x)) else [Optimise(x)]
  }

  /** The leaves of the elements xs, the first of which begins the sequence or not. */
  function LeafList(f: Fold, xs: seq<Parser>, first: bool): seq<Parser> {
    if xs == [] then [] else LeafOf(f, xs[0], first || |xs| == 1) + LeafList(f, xs[1..], false)
  }

  lemma {:induction false} LeafListTail(f: Fold, xs: seq<Parser>)
    requires xs != []
    ensures LeafList(f, xs, false) == OptimiseAll(xs)[..|xs| - 1] + Leaves(f, Optimise(xs[|xs| - 1]))
  {
    AllUnfolds(xs);
    LeafListUnfolds(f, xs, false);
    hide *;
    if |xs| > 1 {
      LeafListTail(f, xs[1..]);
      assert xs[1..][|xs[1..]| - 1] == xs[|xs| - 1];
      TailGrows(LeafList(f, xs, false), OptimiseAll(xs), Optimise(xs[0]), OptimiseAll(xs[1..]),
          Leaves(f, Optimise(xs[|xs| - 1])));
    } else {
      NoneBefore(OptimiseAll(xs), Leaves(f, Optimise(xs[0])));
    }
  }

  lemma LeafListUnfolds(f: Fold, xs: seq<Parser>, first: bool)
    requires xs != []
    ensures |xs| == 1 ==> LeafList(f, xs, first) == Leaves(f, Optimise(xs[0]))
    ensures |xs| > 1 ==>
      LeafList(f, xs, first) == (if first then Leaves(f, Optimise(xs[0])) else [Optimise(xs[0])])
          + LeafList(f, xs[1..], false)
  {
    hide Optimise, Leaves;
    if |xs| == 1 { assert LeafList(f, xs[1..], false) == []; }
  }

  lemma AllUnfolds(xs: seq<Parser>)
    requires xs != []
    ensures OptimiseAll(xs) == [Optimise(xs[0])] + OptimiseAll(xs[1..])
  {
    hide Optimise;
  }

  lemma TailGrows<T>(ks: seq<T>, ys: seq<T>, y: T, zs: seq<T>, ls: seq<T>)
    requires zs != [] && ys == [y] + zs && ks == [y] + (zs[..|zs| - 1] + ls)
    ensures ks == ys[..|ys| - 1] + ls
  {}

  lemma NoneBefore<T>(ys: seq<T>, ls: seq<T>)
    requires |ys| == 1
    ensures ls == ys[..|ys| - 1] + ls
  {}

  lemma LeafListEnds(f: Fold, xs: seq<Parser>)
    requires xs != []
    ensures LeafList(f, xs, true) == Ends(f, OptimiseAll(xs))
  {
    hide *;
    AllUnfolds(xs);
    LeafListUnfolds(f, xs, true);
    var ys := OptimiseAll(xs);
    var first, last := Leaves(f, ys[0]), Leaves(f, ys[|ys| - 1]);
    EndsUnfold(f, ys);
    if |xs| > 1 {
      LeafListTail(f, xs[1..]);
      assert xs[1..][|xs[1..]| - 1] == xs[|xs| - 1];
      EndsGrow(first, ys, ys[0], OptimiseAll(xs[1..]), last);
    }
  }

  lemma EndsUnfold(f: Fold, ys: seq<Parser>)
    requires ys != []
    ensures |ys| == 1 ==> Ends(f, ys) == Leaves(f, ys[0])
    ensures |ys| > 1 ==> Ends(f, ys) == Leaves(f, ys[0]) + ys[1..|ys| - 1] + Leaves(f, ys[|ys| - 1])
  {}

  lemma EndsGrow<T>(ks: seq<T>, ys: seq<T>, y: T, zs: seq<T>, ls: seq<T>)
    requires zs != [] && ys == [y] + zs
    ensures ks + (zs[..|zs| - 1] + ls) == ks + ys[1..|ys| - 1] + ls
  {
    assert ys[1..|zs|] == zs[..|zs| - 1];
  }

  /** The outcome o of a nested sequence, and the results s of its leaves. */
  ghost predicate Follows(f: Fold, o: Outcome, s: Gathered, backtrack: int) {
    o.Wild? ||
    match s
    case All(vs, to) => o.Ok? && o.to == to && Near(f, o.v, vs)
    case Stopped(e) => if e.Bad? then o.Bad? && (backtrack < 1 ==> o == e) else o == e
  }

  ghost predicate RootFollows(o: Outcome, s: Gathered) {
    o.Ok? && s.All? ==> IsRootOf(o.v, s.vs) && NonNulls(s.vs) > 0
  }

  /** The same for a list of elements, whose leaves yield the groups vss. */
  ghost predicate ListFollows(f: Fold, s: Gathered, t: Gathered, vss: seq<seq<Val>>, backtrack: int) {
    s == Stopped(Wild) ||
    match t
    case All(ws, to) => s.All? && s.to == to && AllNear(f, s.vs, vss) && Joined(vss) == ws
    case Stopped(e) => s.Stopped? && if e.Bad? then s.o.Bad? && (backtrack < 1 ==> s.o == e) else s.o == e
  }

  lemma OneGathered(h: Grammar, input: string, q: Parser, c: Cursor, backtrack: int, fuel: nat)
    ensures Gather(h, input, [q], c, backtrack, fuel)
         == var o := Run(h, input, q, c, backtrack, fuel); if o.Ok? then All([o.v], o.to) else Stopped(o)
  {
    hide Run;
    assert [q][1..] == [];
    var o := Run(h, input, q, c, backtrack, fuel);
    if o.Ok? { assert [o.v] + [] == [o.v]; }
  }

  /** An element that is not merged. */
  lemma PartFollows(f: Fold, o: Outcome, h: Grammar, input: string, q: Parser, c: Cursor, backtrack: int, fuel: nat)
    requires (f.FoldTree? || f.StrFold?) && Refines(o, Run(h, input, q, c, backtrack, fuel))
    ensures Follows(f, o, Gather(h, input, [q], c, backtrack, fuel), backtrack)
  {
    hide Run, Near;
    OneGathered(h, input, q, c, backtrack, fuel);
    if o.Ok? { NearItself(f, o.v); }
  }

  /** An element that has become a sequence of the same kind. */
  lemma FlatFollows(f: Fold, o: Outcome, h: Grammar, input: string, q: Parser, c: Cursor, backtrack: int, fuel: nat)
    requires SameFold(f, q) && q.xs != [] && Refines(o, Run(h, input, q, c, backtrack, fuel))
    requires f.FoldTree? ==>
      var s := Gather(h, input, q.xs, c, backtrack, fuel);
          s.All? ==> |s.vs| == |q.xs| && (|s.vs| >= 3 ==> NonNulls(s.vs) > 0)
    ensures Follows(f, o, Gather(h, input, q.xs, c, backtrack, fuel), backtrack)
  {
    AndGathers(h, input, q.f, q.xs, c, c, backtrack, [], fuel);
    GatherLength(h, input, q.xs, c, backtrack, fuel);
    var s := Gather(h, input, q.xs, c, backtrack, fuel);
    hide Run, Near, ApplyFold;
    if s.All? && o.Ok? {
      assert [] + s.vs == s.vs;
      FlatNear(f, s.vs, o.v);
    }
  }

  lemma {:induction false} SinglesJoined(f: Fold, vs: seq<Val>) returns (vss: seq<seq<Val>>)
    requires f.FoldTree? || f.StrFold?
    ensures AllNear(f, vs, vss) && Joined(vss) == vs
  {
    hide Near;
    if vs == [] {
      vss := [];
    } else {
      NearItself(f, vs[0]);
      vss := SinglesJoined(f, vs[1..]);
      vss := [[vs[0]]] + vss;
    }
  }

  lemma FlatNear(f: Fold, vs: seq<Val>, v: Val)
    requires (f.FoldTree? || f.StrFold?) && vs != [] && ApplyFold(f, vs) == Some(v)
    requires f.FoldTree? && |vs| >= 3 ==> NonNulls(vs) > 0
    ensures Near(f, v, vs)
  {
    var vss := SinglesJoined(f, vs);
    FoldNear(f, vs, vss, v);
  }

  // ----- from the elements to the sequence -----

  /** The first element and the rest of a list. */
  lemma ListStep(f: Fold, o: Outcome, rest: Gathered, t0: Gathered, t1: Gathered, vss: seq<seq<Val>>, backtrack: int)
    requires Follows(f, o, t0, backtrack) && (if t0.All? then t0.vs != [] else !t0.o.Ok?)
    requires o.Ok? && t0.All? ==> ListFollows(f, rest, t1, vss, backtrack)
    ensures ListFollows(f, Prepend(o, rest), Continue(t0, t1), if t0.All? then [t0.vs] + vss else [], backtrack)
    ensures o.Ok? && rest.All? && t0.All? && t1.All? ==>
        Prepend(o, rest).vs == [o.v] + rest.vs && Continue(t0, t1).vs == t0.vs + t1.vs
  {
    hide Near, AllNear, Joined;
    if o.Ok? && t0.All? && t1.All? && rest.All? {
      NearCons(f, o.v, rest.vs, t0.vs, vss);
    }
  }

  lemma NearCons(f: Fold, v: Val, us: seq<Val>, vs: seq<Val>, vss: seq<seq<Val>>)
    requires Near(f, v, vs) && AllNear(f, us, vss) && vs != []
    ensures AllNear(f, [v] + us, [vs] + vss) && Joined([vs] + vss) == vs + Joined(vss)
  {
    hide Near;
    assert ([vs] + vss)[1..] == vss;
  }

  function Prepend(o: Outcome, rest: Gathered): Gathered {
    if o.Ok? then (if rest.All? then All([o.v] + rest.vs, rest.to) else rest) else Stopped(o)
  }

  function Continue(t0: Gathered, t1: Gathered): Gathered {
    if t0.All? then (if t1.All? then All(t0.vs + t1.vs, t1.to) else t1) else t0
  }

  lemma GatherCons(g: Grammar, input: string, xs: seq<Parser>, c: Cursor, backtrack: int, fuel: nat)
    requires xs != []
    ensures var o := Run(g, input, xs[0], c, backtrack, fuel);
      Gather(g, input, xs, c, backtrack, fuel) ==
          Prepend(o, if o.Ok? then Gather(g, input, xs[1..], o.to, backtrack, fuel) else Stopped(o))
  {
    hide Run;
  }

  lemma GatherContinues(h: Grammar, input: string, zs: seq<Parser>, ws: seq<Parser>, c: Cursor, backtrack: int,
      fuel: nat)
    ensures var t := Gather(h, input, zs, c, backtrack, fuel);
      Gather(h, input, zs + ws, c, backtrack, fuel) ==
          Continue(t, if t.All? then Gather(h, input, ws, t.to, backtrack, fuel) else t)
  {
    hide Run;
    GatherAppend(h, input, zs, ws, c, backtrack, fuel);
  }

  /** The fold over the elements, on what their leaves yield. */
  lemma FinishFollows(f: Fold, from: Cursor, backtrack: int, s: Gathered, t: Gathered, vss: seq<seq<Val>>)
    requires (f.FoldTree? || f.StrFold?) && ListFollows(f, s, t, vss, backtrack) && (s.All? ==> s.vs != [])
        && (t.Stopped? ==> !t.o.Ok?)
    requires f.FoldTree? && s.All? && t.All? ==> |s.vs| < 3 || NonNulls(t.vs) > 0
    ensures Follows(f, Finish(f, from, backtrack, [], s), t, backtrack)
  {
    hide Near, ApplyFold;
    if s.All? && t.All? {
      assert [] + s.vs == s.vs;
      var v := ApplyFold(f, s.vs);
      if v.Some? { FoldNear(f, s.vs, vss, v.value); }
    }
  }

  /** The same for the root that a tree sequence yields. */
  lemma FinishRoots(from: Cursor, backtrack: int, s: Gathered, t: Gathered, vss: seq<seq<Val>>, i: nat)
    requires ListFollows(FoldTree, s, t, vss, backtrack) && (s.All? && t.All? ==> i < |s.vs| && |vss| == |s.vs|)
    requires s.All? && t.All? ==> |s.vs| >= 3 || (IsRootOf(s.vs[i], vss[i]) && NonNulls(vss[i]) > 0)
    ensures var o := Finish(FoldTree, from, backtrack, [], s); o.Ok? && t.All? ==> IsRootOf(o.v, t.vs)
    ensures s.All? && t.All? && |s.vs| < 3 ==> NonNulls(t.vs) > 0
  {
    hide Near, IsRootOf, FoldTreeVals;
    if s.All? && t.All? {
      assert [] + s.vs == s.vs;
      var v := ApplyFold(FoldTree, s.vs);
      if v.Some? { FoldNear(FoldTree, s.vs, vss, v.value); }
      GroupCounts(vss, i);
    }
  }

  lemma {:induction false} GroupCounts(vss: seq<seq<Val>>, i: nat)
    requires i < |vss|
    ensures NonNulls(Joined(vss)) >= NonNulls(vss[i])
  {
    NonNullsAppend(vss[0], Joined(vss[1..]));
    if i > 0 { GroupCounts(vss[1..], i - 1); }
  }

  /** A useless first element leaves the value of the second. */
  lemma UnitBeside(f: Fold, us: seq<Val>, vss: seq<seq<Val>>, u: Val)
    requires (f.FoldTree? && u == Null) || (f.StrFold? && u == Str(""))
    requires |us| == 2 && AllNear(f, us, vss) && vss[0] == [u]
    ensures us[0] == u && (ApplyFold(f, us) == Some(us[1]) || ApplyFold(f, us) == None)
  {
    OneContributes(u);
    assert Near(f, us[0], vss[0]);
    if f.FoldTree? {
      assert us[0] == Null;
    } else {
      assert Concat([Str("")]) == "" + Concat([Str("")][1..]);
      assert us[0] == Str("");
      if AllStr(us) {
        assert us == [us[0]] + [us[1]];
        ConcatAppend([us[0]], [us[1]]);
        assert [us[0]] == [Str("")] && [us[1]][1..] == [];
        assert Concat([us[1]]) == us[1].s + Concat([us[1]][1..]);
        assert Concat(us) == us[1].s;
        assert ApplyFold(f, us) == Some(Str(Concat(us)));
      }
    }
  }

  lemma UnitRuns(f: Fold, h: Grammar, input: string, c: Cursor, backtrack: int, fuel: nat)
    requires f.FoldTree? || f.StrFold?
    ensures Gather(h, input, [Unit(f)], c, backtrack, fuel) == All([if f.FoldTree? then Null else Str("")], c)
  {
    OneGathered(h, input, Unit(f), c, backtrack, fuel);
  }

  // ----- one run -----

  /** An element of a sequence, and its leaves. */
  lemma {:induction false} ElementSound(nn: set<nat>, rn: set<nat>, g: Grammar, h: Grammar, input: string, f: Fold,
      x: Parser, end: bool, c: Cursor, backtrack: int, fuel: nat)
    requires Setting(nn, rn, g, h) && (f.FoldTree? || f.StrFold?) && Filled(x) && FitElement(nn, rn, f, x, end)
    ensures Follows(f, Run(g, input, x, c, backtrack, fuel), Gather(h, input, LeafOf(f, x, end), c, backtrack, fuel),
        backtrack)
    ensures end && f.FoldTree? && Rooted(x) ==>
      RootFollows(Run(g, input, x, c, backtrack, fuel), Gather(h, input, LeafOf(f, x, end), c, backtrack, fuel))
    decreases fuel, x, 6
  {
    hide Run, Near, NonNull, Restoring, Optimise, Follows, RootFollows, Setting;
    if end && SameFold(f, x) {
      LooseSound(nn, rn, g, h, input, x, c, backtrack, fuel);
    } else {
      var q := Optimise(x);
      assert Kept(nn, rn, x, q);
      KeptSound(nn, rn, g, h, input, x, q, c, backtrack, fuel);
      if end && SameFold(f, q) {
        QuietRuns(nn, rn, g, h, input, |q.xs|, q.xs, c, backtrack, fuel);
        OptimiseKeepsFilled(x);
        FlatFollows(f, Run(g, input, x, c, backtrack, fuel), h, input, q, c, backtrack, fuel);
      } else {
        PartFollows(f, Run(g, input, x, c, backtrack, fuel), h, input, q, c, backtrack, fuel);
      }
    }
  }

  /** Sure leaves do yield something. */
  lemma QuietRuns(nn: set<nat>, rn: set<nat>, g: Grammar, h: Grammar, input: string, n: nat, zs: seq<Parser>,
      c: Cursor, backtrack: int, fuel: nat)
    requires Setting(nn, rn, g, h)
    ensures var s := Gather(h, input, zs, c, backtrack, fuel); s.All? ==>
      && |s.vs| == |zs| && NonNulls(s.vs) >= SureCount(nn, zs)
      && (Quiet(nn, n, zs) && n >= 3 ==> NonNulls(s.vs) > 0)
  {
    OptimisedNonNull(nn, rn, g, h);
    GatherSure(nn, h, input, zs, c, backtrack, fuel);
  }

  ghost predicate FitList(nn: set<nat>, rn: set<nat>, f: Fold, xs: seq<Parser>, first: bool) {
    forall i | 0 <= i < |xs| :: Filled(xs[i]) && FitElement(nn, rn, f, xs[i], (first && i == 0) || i == |xs| - 1)
  }

  /** What the groups of a list are, and which of them are roots. */
  ghost predicate GroupsFit(f: Fold, xs: seq<Parser>, first: bool, us: seq<Val>, vss: seq<seq<Val>>) {
    && |vss| == |us| == |xs|
    && forall i :: 0 <= i < |xs| ==>
         var end := (first && i == 0) || i == |xs| - 1;
         && |vss[i]| == |LeafOf(f, xs[i], end)|
         && (end && f.FoldTree? && Rooted(xs[i]) ==> IsRootOf(us[i], vss[i]) && NonNulls(vss[i]) > 0)
  }

  lemma {:induction false} ListSound(nn: set<nat>, rn: set<nat>, g: Grammar, h: Grammar, input: string, f: Fold,
      xs: seq<Parser>, first: bool, c: Cursor, backtrack: int, fuel: nat)
    returns (vss: seq<seq<Val>>)
    requires Setting(nn, rn, g, h) && (f.FoldTree? || f.StrFold?) && FitList(nn, rn, f, xs, first)
    ensures var s, t := Gather(g, input, xs, c, backtrack, fuel),
        Gather(h, input, LeafList(f, xs, first), c, backtrack, fuel);
      && ListFollows(f, s, t, vss, backtrack)
      && (s.All? && t.All? ==> GroupsFit(f, xs, first, s.vs, vss))
    decreases fuel, xs, 0
  {
    hide Run, LeafOf, ListFollows, GroupsFit, FitList, Follows, RootFollows, Setting, FitElement, Filled, Rooted;
    if xs == [] {
      NoElements(f, first, c, backtrack);
      vss := [];
    } else {
      var end := first || |xs| == 1;
      var zs, ws := LeafOf(f, xs[0], end), LeafList(f, xs[1..], false);
      FitListStep(nn, rn, f, xs, first);
      ElementSound(nn, rn, g, h, input, f, xs[0], end, c, backtrack, fuel);
      var o, t0 := Run(g, input, xs[0], c, backtrack, fuel), Gather(h, input, zs, c, backtrack, fuel);
      GatherCons(g, input, xs, c, backtrack, fuel);
      GatherContinues(h, input, zs, ws, c, backtrack, fuel);
      GatherLength(h, input, zs, c, backtrack, fuel);
      LeafOfFilled(f, xs[0], end);
      if o.Ok? && t0.All? {
        FollowsTo(f, o, t0, backtrack);
        vss := ListSound(nn, rn, g, h, input, f, xs[1..], false, o.to, backtrack, fuel);
        var s1, t1 := Gather(g, input, xs[1..], o.to, backtrack, fuel), Gather(h, input, ws, o.to, backtrack, fuel);
        ListStep(f, o, s1, t0, t1, vss, backtrack);
        if s1.All? && t1.All? { GroupsStep(f, xs, first, o, t0, s1.vs, vss); }
        vss := [t0.vs] + vss;
      } else {
        StopFollows(f, o, t0, Gather(h, input, LeafList(f, xs, first), c, backtrack, fuel), backtrack);
        vss := [];
      }
    }
  }

  lemma NoElements(f: Fold, first: bool, c: Cursor, backtrack: int)
    ensures ListFollows(f, All([], c), All([], c), [], backtrack) && GroupsFit(f, [], first, [], [])
  {}

  lemma StopFollows(f: Fold, o: Outcome, t0: Gathered, t: Gathered, backtrack: int)
    requires Follows(f, o, t0, backtrack) && !(o.Ok? && t0.All?) && (t0.Stopped? ==> !t0.o.Ok? && t == t0)
    ensures !o.Ok? && ListFollows(f, Stopped(o), t, [], backtrack)
  {}

  lemma FollowsTo(f: Fold, o: Outcome, t: Gathered, backtrack: int)
    requires Follows(f, o, t, backtrack) && o.Ok? && t.All?
    ensures o.to == t.to
  {}

  lemma FitListStep(nn: set<nat>, rn: set<nat>, f: Fold, xs: seq<Parser>, first: bool)
    requires FitList(nn, rn, f, xs, first) && xs != []
    ensures FitList(nn, rn, f, xs[1..], false) && Filled(xs[0]) && FitElement(nn, rn, f, xs[0], first || |xs| == 1)
  {
    hide Filled, FitElement;
    assert Filled(xs[0]) && FitElement(nn, rn, f, xs[0], (first && 0 == 0) || 0 == |xs| - 1);
    forall i | 0 <= i < |xs[1..]| ensures Filled(xs[1..][i]) && FitElement(nn, rn, f, xs[1..][i], i == |xs[1..]| - 1) {
      assert Filled(xs[i + 1]) && FitElement(nn, rn, f, xs[i + 1], (first && i + 1 == 0) || i + 1 == |xs| - 1);
    }
  }

  lemma GroupsStep(f: Fold, xs: seq<Parser>, first: bool, o: Outcome, t0: Gathered, us: seq<Val>, vss: seq<seq<Val>>)
    requires xs != [] && GroupsFit(f, xs[1..], false, us, vss) && o.Ok? && t0.All?
    requires |t0.vs| == |LeafOf(f, xs[0], first || |xs| == 1)|
    requires (first || |xs| == 1) && f.FoldTree? && Rooted(xs[0]) ==> RootFollows(o, t0)
    ensures GroupsFit(f, xs, first, [o.v] + us, [t0.vs] + vss)
  {
    hide LeafOf, Rooted, IsRootOf;
    forall i | 1 <= i < |xs|
        ensures xs[i] == xs[1..][i - 1] && ([o.v] + us)[i] == us[i - 1] && ([t0.vs] + vss)[i] == vss[i - 1] {}
  }

  lemma LeafOfFilled(f: Fold, x: Parser, end: bool)
    requires Filled(x)
    ensures LeafOf(f, x, end) != []
  {
    OptimiseKeepsFilled(x);
  }

  /** A useless first element and the other one. */
  lemma DropFollows(f: Fold, from: Cursor, backtrack: int, s: Gathered, t: Gathered, vss: seq<seq<Val>>)
    requires f.FoldTree? || f.StrFold?
    requires var u := if f.FoldTree? then Null else Str("");
        ListFollows(f, s, Continue(All([u], from), t), vss, backtrack)
    requires s.All? && t.All? ==> |s.vs| == |vss| == 2 && |vss[0]| == 1
    requires t.Stopped? ==> !t.o.Ok?
    ensures Follows(f, Finish(f, from, backtrack, [], s), t, backtrack)
    ensures var o := Finish(f, from, backtrack, [], s); s.All? && t.All? ==>
      && vss[1] == t.vs && NonNulls(vss[0]) == (if f.FoldTree? then 0 else 1)
      && (o.Ok? ==> o.v == s.vs[1])
  {
    hide Near, ApplyFold;
    if s.All? && t.All? {
      var u := if f.FoldTree? then Null else Str("");
      assert [] + s.vs == s.vs;
      JoinedShort(vss);
      assert vss[0] == [u] by { assert ([u] + t.vs)[0] == (vss[0] + vss[1])[0]; }
      assert vss[1] == t.vs by { assert ([u] + t.vs)[1..] == (vss[0] + vss[1])[1..]; }
      UnitBeside(f, s.vs, vss, u);
      OneContributes(u);
      assert Near(f, s.vs[1], vss[1]);
    }
  }

  /** A nested sequence, and the leaves of what it is optimised to. */
  lemma {:induction false} LooseSound(nn: set<nat>, rn: set<nat>, g: Grammar, h: Grammar, input: string, p: Parser,
      c: Cursor, backtrack: int, fuel: nat)
    requires Setting(nn, rn, g, h) && Filled(p) && Loose(nn, rn, p)
    ensures Follows(p.f, Run(g, input, p, c, backtrack, fuel),
        Gather(h, input, Leaves(p.f, Optimise(p)), c, backtrack, fuel), backtrack)
    ensures Rooted(p) ==>
        RootFollows(Run(g, input, p, c, backtrack, fuel),
        Gather(h, input, Leaves(p.f, Optimise(p)), c, backtrack, fuel))
    decreases fuel, p, 4
  {
    var f, xs, ys, q := p.f, p.xs, OptimiseAll(p.xs), Optimise(p);
    FitListWhole(nn, rn, p);
    OptimiseEnds(p);
    LeafListEnds(f, xs);
    RunIsFinish(g, input, p, c, backtrack, fuel);
    hide Run, Optimise, FitElement, Filled, Setting, Near, ListFollows, GroupsFit, LeafList, Follows, RootFollows,
        FitList, Drops, Ends;
    var vss := ListSound(nn, rn, g, h, input, f, xs, true, c, backtrack, fuel);
    var s, t := Gather(g, input, xs, c, backtrack, fuel), Gather(h, input, LeafList(f, xs, true), c, backtrack, fuel);
    if Drops(f, ys) {
      DropLeaves(f, ys, h, input, c, backtrack, fuel);
      LooseDrop(f, xs, ys, c, backtrack, s, Gather(h, input, Leaves(f, q), c, backtrack, fuel), vss);
    } else {
      QuietRuns(nn, rn, g, h, input, |xs|, Leaves(f, q), c, backtrack, fuel);
      LooseMerge(p, c, backtrack, s, t, vss);
    }
  }

  lemma FitListWhole(nn: set<nat>, rn: set<nat>, p: Parser)
    requires IsFoldAnd(p) && Filled(p) && FitElements(nn, rn, p.f, p.xs)
    ensures p.xs != [] && FitList(nn, rn, p.f, p.xs, true)
  {
    hide FitElement;
    forall i | 0 <= i < |p.xs|
        ensures Filled(p.xs[i]) && FitElement(nn, rn, p.f, p.xs[i], (true && i == 0) || i == |p.xs| - 1) {
      assert FitElement(nn, rn, p.f, p.xs[i], AtEnd(i, |p.xs|));
    }
  }

  lemma RunIsFinish(g: Grammar, input: string, p: Parser, c: Cursor, backtrack: int, fuel: nat)
    requires p.And? && p.xs != []
    ensures Run(g, input, p, c, backtrack, fuel) ==
        Finish(p.f, c, backtrack, [], Gather(g, input, p.xs, c, backtrack, fuel))
    ensures var s := Gather(g, input, p.xs, c, backtrack, fuel); s.All? ==> |s.vs| == |p.xs|
  {
    AndGathers(g, input, p.f, p.xs, c, c, backtrack, [], fuel);
    GatherLength(g, input, p.xs, c, backtrack, fuel);
  }

  /** The leaves of a pair whose first element is dropped. */
  lemma DropLeaves(f: Fold, ys: seq<Parser>, h: Grammar, input: string, c: Cursor, backtrack: int, fuel: nat)
    requires (f.FoldTree? || f.StrFold?) && Drops(f, ys)
    ensures Ends(f, ys) == [Unit(f)] + Leaves(f, ys[1])
    ensures Gather(h, input, Ends(f, ys), c, backtrack, fuel)
         == Continue(All([if f.FoldTree? then Null else Str("")], c),
             Gather(h, input, Leaves(f, ys[1]), c, backtrack, fuel))
    ensures var t := Gather(h, input, Leaves(f, ys[1]), c, backtrack, fuel); t.Stopped? ==> !t.o.Ok?
  {
    hide Run;
    assert ys[1..1] == [];
    assert Ends(f, ys) == [Unit(f)] + Leaves(f, ys[1]);
    UnitRuns(f, h, input, c, backtrack, fuel);
    GatherContinues(h, input, [Unit(f)], Leaves(f, ys[1]), c, backtrack, fuel);
  }

  lemma LooseDrop(f: Fold, xs: seq<Parser>, ys: seq<Parser>, c: Cursor, backtrack: int, s: Gathered, t: Gathered,
      vss: seq<seq<Val>>)
    requires (f.FoldTree? || f.StrFold?) && ys == OptimiseAll(xs) && Drops(f, ys) && (t.Stopped? ==> !t.o.Ok?)
        && (s.Stopped? ==> !s.o.Ok?)
    requires var t' := Continue(All([if f.FoldTree? then Null else Str("")], c), t);
      ListFollows(f, s, t', vss, backtrack) && (s.All? && t'.All? ==> GroupsFit(f, xs, true, s.vs, vss))
    ensures Follows(f, Finish(f, c, backtrack, [], s), t, backtrack)
    ensures Rooted(And(f, xs)) ==> RootFollows(Finish(f, c, backtrack, [], s), t)
  {
    hide Near, IsRootOf, Optimise, ListFollows, Folded;
    if s.All? && t.All? {
      assert |vss| == |s.vs| == 2 && |vss[0]| == |LeafOf(f, xs[0], true)| == |Leaves(f, ys[0])|;
      if Rooted(And(f, xs)) {
        var i :| 0 <= i < |xs| && AtEnd(i, |xs|) && Rooted(xs[i]);
        assert IsRootOf(s.vs[i], vss[i]) && NonNulls(vss[i]) > 0;
      }
    }
    DropFollows(f, c, backtrack, s, t, vss);
  }

  lemma LooseMerge(p: Parser, c: Cursor, backtrack: int, s: Gathered, t: Gathered, vss: seq<seq<Val>>)
    requires IsFoldAnd(p) && ListFollows(p.f, s, t, vss, backtrack) && p.xs != [] && (t.Stopped? ==> !t.o.Ok?)
    requires if s.All? then |s.vs| == |p.xs| else !s.o.Ok?
    requires s.All? && t.All? ==>
        GroupsFit(p.f, p.xs, true, s.vs, vss) && (|p.xs| >= 3 && p.f.FoldTree? ==> NonNulls(t.vs) > 0)
    ensures Follows(p.f, Finish(p.f, c, backtrack, [], s), t, backtrack)
    ensures Rooted(p) ==> RootFollows(Finish(p.f, c, backtrack, [], s), t)
  {
    hide Near, IsRootOf, Optimise, ListFollows, LeafOf, Folded, Follows;
    FinishFollows(p.f, c, backtrack, s, t, vss);
    if Rooted(p) {
      var i := RootedEnd(p);
      FinishRoots(c, backtrack, s, t, vss, i);
    }
  }

  lemma RootedEnd(p: Parser) returns (i: nat)
    requires Rooted(p) && p.xs != []
    ensures i < |p.xs| && AtEnd(i, |p.xs|) && (|p.xs| >= 3 || Rooted(p.xs[i]))
  {
    if |p.xs| >= 3 {
      i := 0;
    } else {
      i :| i < |p.xs| && AtEnd(i, |p.xs|) && Rooted(p.xs[i]);
    }
  }

  // ----- exact sequences -----

  lemma {:induction false} SinglesSame(us: seq<Val>, vss: seq<seq<Val>>)
    requires AllNear(FoldTree, us, vss) && forall i :: 0 <= i < |us| ==> |vss[i]| == 1
    ensures Joined(vss) == us
  {
    hide NearTree;
    if us != [] {
      SinglesSame(us[1..], vss[1..]);
      OneIsItself(us[0], vss[0]);
      assert us == [us[0]] + us[1..];
    }
  }

  lemma OneIsItself(v: Val, vs: seq<Val>)
    requires NearTree(v, vs) && |vs| == 1
    ensures vs == [v]
  {
    assert vs == [vs[0]];
    OneContributes(vs[0]);
  }

  /** What makes the fold of the elements the fold of their leaves. */
  ghost predicate Flattens(f: Fold, us: seq<Val>, vss: seq<seq<Val>>) {
    var ws := Joined(vss);
    || f.StrFold?
    || (forall i :: 0 <= i < |vss| ==> |vss[i]| == 1)
    || |ws| <= 2 || NonNulls(ws) >= 2
    || |us| >= 3
    || exists i :: 0 <= i < |us| && i < |vss| && IsRootOf(us[i], vss[i]) && NonNulls(vss[i]) > 0
  }

  lemma {:induction false} GroupsAreMore(f: Fold, us: seq<Val>, vss: seq<seq<Val>>)
    requires AllNear(f, us, vss)
    ensures |us| <= |Joined(vss)|
  {
    hide Near;
    if us != [] { GroupsAreMore(f, us[1..], vss[1..]); }
  }

  lemma FoldIsFlat(f: Fold, us: seq<Val>, vss: seq<seq<Val>>, v: Val)
    requires (f.FoldTree? || f.StrFold?) && us != [] && AllNear(f, us, vss) && Flattens(f, us, vss)
        && ApplyFold(f, us) == Some(v)
    ensures ApplyFold(f, Joined(vss)) == Some(v)
  {
    hide NearTree, IsRootOf, FoldTreeVals;
    var ws := Joined(vss);
    FoldNear(f, us, vss, v);
    GroupsAreMore(f, us, vss);
    if f.StrFold? {
      assert NearStr(v, ws);
    } else if forall i :: 0 <= i < |vss| ==> |vss[i]| == 1 {
      SinglesSame(us, vss);
    } else if |ws| <= 2 || NonNulls(ws) >= 2 {
      NearIsFlat(v, ws);
    } else {
      RootIsFlat(v, ws);
    }
  }

  lemma FinishFlattens(f: Fold, from: Cursor, backtrack: int, s: Gathered, t: Gathered, vss: seq<seq<Val>>)
    requires (f.FoldTree? || f.StrFold?) && ListFollows(f, s, t, vss, backtrack)
    requires (if s.All? then s.vs != [] else !s.o.Ok?) && (t.Stopped? ==> !t.o.Ok?)
    requires s.All? && t.All? ==> Flattens(f, s.vs, vss)
    ensures Refines(Finish(f, from, backtrack, [], s), Finish(f, from, backtrack, [], t))
  {
    hide Near, ApplyFold, Flattens;
    if s.All? && t.All? {
      assert [] + s.vs == s.vs && [] + t.vs == t.vs;
      var v := ApplyFold(f, s.vs);
      if v.Some? { FoldIsFlat(f, s.vs, vss, v.value); }
    }
  }

  /** A sequence that is optimised in its own place. */
  lemma {:induction false} FoldAndSound(nn: set<nat>, rn: set<nat>, g: Grammar, h: Grammar, input: string, p: Parser,
      c: Cursor, backtrack: int, fuel: nat)
    requires Setting(nn, rn, g, h) && Fit(nn, rn, p) && IsFoldAnd(p)
    ensures Refines(Run(g, input, p, c, backtrack, fuel), Run(h, input, Optimise(p), c, backtrack, fuel))
    decreases fuel, p, 4
  {
    var f, xs, ys, q := p.f, p.xs, OptimiseAll(p.xs), Optimise(p);
    FitListWhole(nn, rn, p);
    OptimiseEnds(p);
    assert MergesExactly(nn, rn, p);
    hide Run, Optimise, FitElement, Filled, Setting, Near, ListFollows, LeafList, Follows, RootFollows, Rooted;
    if Drops(f, ys) {
      DropSound(nn, rn, g, h, input, p, c, backtrack, fuel);
    } else {
      hide FitList, Drops, Ends, GroupsFit, Flattens;
      LeafListEnds(f, xs);
      var vss := ListSound(nn, rn, g, h, input, f, xs, true, c, backtrack, fuel);
      var s, t := Gather(g, input, xs, c, backtrack, fuel), Gather(h, input, q.xs, c, backtrack, fuel);
      RunIsFinish(g, input, p, c, backtrack, fuel);
      QuietRuns(nn, rn, g, h, input, 0, q.xs, c, backtrack, fuel);
      if s.All? && t.All? && s != Stopped(Wild) { MergeFlattens(nn, rn, p, backtrack, s, t, vss); }
      LeafOfFilled(f, xs[0], true);
      EndsFilled(p);
      RunIsFinish(h, input, q, c, backtrack, fuel);
      FinishFlattens(f, c, backtrack, s, t, vss);
    }
  }

  lemma EndsFilled(p: Parser)
    requires IsFoldAnd(p) && Filled(p)
    ensures Ends(p.f, OptimiseAll(p.xs)) != []
  {
    OptimiseEnds(p);
  }

  /** The conditions on the leaves say what they should of the results. */
  lemma MergeFlattens(nn: set<nat>, rn: set<nat>, p: Parser, backtrack: int, s: Gathered, t: Gathered,
      vss: seq<seq<Val>>)
    requires IsFoldAnd(p) && MergesExactly(nn, rn, p) && !Drops(p.f, OptimiseAll(p.xs))
    requires s.All? && t.All? && ListFollows(p.f, s, t, vss, backtrack) && GroupsFit(p.f, p.xs, true, s.vs, vss)
    requires |t.vs| == |Ends(p.f, OptimiseAll(p.xs))| && NonNulls(t.vs) >= SureCount(nn, Ends(p.f, OptimiseAll(p.xs)))
    ensures Flattens(p.f, s.vs, vss)
  {
    hide Near, IsRootOf, Optimise, NonNull, Restoring, Optimisable, SureCount, Ends;
    if p.f.FoldTree? {
      if Unmerged(p.f, OptimiseAll(p.xs)) {
        forall i | 0 <= i < |vss| ensures |vss[i]| == 1 {}
      } else if Rooted(p) && |p.xs| < 3 {
        var i := RootedEnd(p);
        assert IsRootOf(s.vs[i], vss[i]) && NonNulls(vss[i]) > 0;
      }
    }
  }

  /** A sequence of which only the second element is left. */
  lemma {:induction false} DropSound(nn: set<nat>, rn: set<nat>, g: Grammar, h: Grammar, input: string, p: Parser,
      c: Cursor, backtrack: int, fuel: nat)
    requires Setting(nn, rn, g, h) && Fit(nn, rn, p) && IsFoldAnd(p) && Drops(p.f, OptimiseAll(p.xs))
    ensures Refines(Run(g, input, p, c, backtrack, fuel), Run(h, input, Optimise(p), c, backtrack, fuel))
    decreases fuel, p, 3
  {
    var f, x0, x1 := p.f, p.xs[0], p.xs[1];
    assert p == And(f, [x0, x1]) && MergesExactly(nn, rn, p);
    FitListWhole(nn, rn, p);
    OptimiseEnds(p);
    assert Filled(x0) && Filled(x1) && FitElement(nn, rn, f, x0, true);
    assert RestoringGrammar(rn, g);
    hide Run, Optimise, FitElement, Filled, Setting, Near, Follows, Optimisable, Restoring, RestoringGrammar;
    ElementSound(nn, rn, g, h, input, f, x0, true, c, backtrack, fuel);
    UnitRuns(f, h, input, c, backtrack, fuel);
    KeptSound(nn, rn, g, h, input, x1, Optimise(x1), c, backtrack, fuel);
    if backtrack >= 1 { FailureRestores(rn, g, input, x1, c, backtrack, fuel); }
    RunIsAnd(g, input, f, x0, x1, c, backtrack, fuel);
    PairDrops(f, Run(g, input, x0, c, backtrack, fuel), Run(g, input, x1, c, backtrack, fuel), c, backtrack);
  }

  lemma RunIsAnd(g: Grammar, input: string, f: Fold, a: Parser, x: Parser, c: Cursor, backtrack: int, fuel: nat)
    ensures var o := Run(g, input, a, c, backtrack, fuel);
      && (o.Ok? ==>
          Run(g, input, And(f, [a, x]), c, backtrack, fuel) ==
          Second(f, o.v, Run(g, input, x, o.to, backtrack, fuel), c, backtrack))
      && (o.Wild? ==> Run(g, input, And(f, [a, x]), c, backtrack, fuel) == Wild)
  {
    RunOfAnd(g, input, f, [a, x], c, backtrack, fuel);
    RunAndPair(g, input, f, a, x, c, backtrack, fuel);
    hide Run, Second;
    assert [a, x][0] == a;
  }

  lemma PairDrops(f: Fold, o: Outcome, o1: Outcome, c: Cursor, backtrack: int)
    requires f.FoldTree? || f.StrFold?
    requires Follows(f, o, All([if f.FoldTree? then Null else Str("")], c), backtrack)
    requires backtrack >= 1 && o1.Bad? ==> o1.to == c
    ensures o.Wild? || (o.Ok? && o.to == c && Refines(Second(f, o.v, o1, c, backtrack), o1))
  {
    var u := if f.FoldTree? then Null else Str("");
    if o.Ok? && o1.Ok? {
      NearItself(f, o1.v);
      UnitBeside(f, [o.v, o1.v], [[u], [o1.v]], u);
    }
  }

  lemma {:induction false} KeptSound(nn: set<nat>, rn: set<nat>, g: Grammar, h: Grammar, input: string, p: Parser,
      q: Parser, c: Cursor, backtrack: int, fuel: nat)
    requires Setting(nn, rn, g, h) && Kept(nn, rn, p, q)
    ensures Refines(Run(g, input, p, c, backtrack, fuel), Run(h, input, q, c, backtrack, fuel))
    decreases fuel, p, 5
  {
    if q == p {
      assert SameShape(nn, rn, p, p);
      hide Run, Setting, SameShape, Kept, Optimise;
      ShapeSound(nn, rn, g, h, input, p, p, c, backtrack, fuel);
    } else if IsFoldAnd(p) {
      hide Run, Setting, Optimise, Fit;
      FoldAndSound(nn, rn, g, h, input, p, c, backtrack, fuel);
    } else {
      RebuiltShape(nn, rn, p);
      OptimiseKeepsFilled(p);
      OptimiseUnfolds(p);
      hide Run, Setting, SameShape, Kept, Optimise, Filled, Fit, Rebuild, Rewrite;
      ShapeSound(nn, rn, g, h, input, p, Rebuild(p), c, backtrack, fuel);
      RewriteRootSound(h, input, Rebuild(p), c, backtrack, fuel);
    }
  }

  lemma RebuiltShape(nn: set<nat>, rn: set<nat>, p: Parser)
    requires Fit(nn, rn, p) && !IsFoldAnd(p)
    ensures SameShape(nn, rn, p, Rebuild(p)) && !IsFoldAnd(Rebuild(p))
  {
    hide Optimise;
  }

  lemma NameKept(nn: set<nat>, rn: set<nat>, g: Grammar, h: Grammar, id: nat)
    requires Setting(nn, rn, g, h) && id < |g|
    ensures Kept(nn, rn, g[id], h[id])
  {}

  /** The rules for alternatives change no run. */
  lemma {:induction false} RewriteRootSound(h: Grammar, input: string, p: Parser, c: Cursor, backtrack: int, fuel: nat)
    requires Filled(p) && !IsFoldAnd(p)
    ensures Run(h, input, Rewrite(p), c, backtrack, fuel) == Run(h, input, p, c, backtrack, fuel)
    decreases Size(p)
  {
    hide Run;
    if Rule(p).Some? {
      var i := RuleCases(p);
      assert Filled(p.xs[i]);
      OrMergeKeeps(h, input, p.xs, i, c, backtrack, fuel);
      RuleKeepsFilled(p);
      RuleShrinks(p);
      RewriteRootSound(h, input, Rule(p).value, c, backtrack, fuel);
    }
  }

  lemma {:induction false} ShapeSound(nn: set<nat>, rn: set<nat>, g: Grammar, h: Grammar, input: string, p: Parser,
      q: Parser, c: Cursor, backtrack: int, fuel: nat)
    requires Setting(nn, rn, g, h) && SameShape(nn, rn, p, q)
    ensures Refines(Run(g, input, p, c, backtrack, fuel), Run(h, input, q, c, backtrack, fuel))
    decreases fuel, p, 2
  {
    hide NonNull, Restoring, Optimise, Fit, KnownNames;
    if Wraps(p) {
      WrapSound(nn, rn, g, h, input, p, q, c, backtrack, fuel);
    } else if p.Or? {
      OrSound(nn, rn, g, h, input, p.xs, q.xs, c, backtrack, fuel);
    } else if p.And? {
      GatherSound(nn, rn, g, h, input, p.xs, q.xs, c, backtrack, fuel);
      AndGathers(g, input, p.f, p.xs, c, c, backtrack, [], fuel);
      AndGathers(h, input, p.f, q.xs, c, c, backtrack, [], fuel);
    } else if p.Ref? && p.id < |g| && fuel > 0 {
      NameKept(nn, rn, g, h, p.id);
      KeptSound(nn, rn, g, h, input, g[p.id], h[p.id], c, backtrack, fuel - 1);
    }
  }

  lemma {:induction false} WrapSound(nn: set<nat>, rn: set<nat>, g: Grammar, h: Grammar, input: string, p: Parser,
      q: Parser, c: Cursor, backtrack: int, fuel: nat)
    requires Setting(nn, rn, g, h) && SameShape(nn, rn, p, q) && Wraps(p)
    ensures Refines(Run(g, input, p, c, backtrack, fuel), Run(h, input, q, c, backtrack, fuel))
    decreases fuel, p, 1
  {
    hide NonNull, Restoring, Optimise, Fit, KnownNames;
    if p.Many? {
      ManySound(nn, rn, g, h, input, p.f, p.x, q.x, false, c, backtrack, [], fuel);
    } else if p.Many1? {
      ManySound(nn, rn, g, h, input, p.f, p.x, q.x, true, c, backtrack, [], fuel);
    } else if p.Count? {
      CountSound(nn, rn, g, h, input, p.n, p.f, p.x, q.x, c, backtrack, [], fuel);
    } else {
      KeptSound(nn, rn, g, h, input, p.x, q.x, c, if p.Predict? then backtrack - 1 else backtrack, fuel);
    }
  }

  lemma {:induction false} ManySound(nn: set<nat>, rn: set<nat>, g: Grammar, h: Grammar, input: string, f: Fold,
      x: Parser, y: Parser, once: bool, c: Cursor, backtrack: int, vs: seq<Val>, fuel: nat)
    requires Setting(nn, rn, g, h) && Kept(nn, rn, x, y)
    ensures Refines(RunMany(g, input, f, x, once, c, backtrack, vs, fuel),
        RunMany(h, input, f, y, once, c, backtrack, vs, fuel))
    decreases fuel, x, 6
  {
    hide Run, Setting, Kept, Folded;
    KeptSound(nn, rn, g, h, input, x, y, c, backtrack, fuel);
    var o := Run(g, input, x, c, backtrack, fuel);
    if o.Ok? && fuel > 0 {
      ManySound(nn, rn, g, h, input, f, x, y, once, o.to, backtrack, vs + [o.v], fuel - 1);
    }
  }

  lemma {:induction false} CountSound(nn: set<nat>, rn: set<nat>, g: Grammar, h: Grammar, input: string, n: int,
      f: Fold, x: Parser, y: Parser, c: Cursor, backtrack: int, vs: seq<Val>, fuel: nat)
    requires Setting(nn, rn, g, h) && Kept(nn, rn, x, y)
    ensures Refines(RunCount(g, input, n, f, x, c, backtrack, vs, fuel),
        RunCount(h, input, n, f, y, c, backtrack, vs, fuel))
    decreases fuel, x, 6, 4 - |vs| + (if n > 4 then n else 4)
  {
    hide Run, Setting, Kept, Folded;
    if !(n <= |vs| && 4 <= |vs|) {
      KeptSound(nn, rn, g, h, input, x, y, c, backtrack, fuel);
      var o := Run(g, input, x, c, backtrack, fuel);
      if o.Ok? && |vs| + 1 != n {
        CountSound(nn, rn, g, h, input, n, f, x, y, o.to, backtrack, vs + [o.v], fuel);
      }
    }
  }

  lemma {:induction false} OrSound(nn: set<nat>, rn: set<nat>, g: Grammar, h: Grammar, input: string, xs: seq<Parser>,
      ys: seq<Parser>, c: Cursor, backtrack: int, fuel: nat)
    requires Setting(nn, rn, g, h) && |ys| == |xs|
    requires forall i | 0 <= i < |xs| :: Kept(nn, rn, xs[i], ys[i])
    ensures Refines(RunOr(g, input, xs, c, backtrack, fuel), RunOr(h, input, ys, c, backtrack, fuel))
    decreases fuel, xs, 0
  {
    hide Run, Setting, Kept;
    if xs != [] {
      KeptSound(nn, rn, g, h, input, xs[0], ys[0], c, backtrack, fuel);
      var o := Run(g, input, xs[0], c, backtrack, fuel);
      if o.Bad? { OrSound(nn, rn, g, h, input, xs[1..], ys[1..], o.to, backtrack, fuel); }
    }
  }

  lemma {:induction false} GatherSound(nn: set<nat>, rn: set<nat>, g: Grammar, h: Grammar, input: string,
      xs: seq<Parser>, ys: seq<Parser>, c: Cursor, backtrack: int, fuel: nat)
    requires Setting(nn, rn, g, h) && |ys| == |xs|
    requires forall i | 0 <= i < |xs| :: Kept(nn, rn, xs[i], ys[i])
    ensures var s := Gather(g, input, xs, c, backtrack, fuel);
            s == Stopped(Wild) || s == Gather(h, input, ys, c, backtrack, fuel)
    decreases fuel, xs, 0
  {
    hide Run, Setting, Kept;
    if xs != [] {
      KeptSound(nn, rn, g, h, input, xs[0], ys[0], c, backtrack, fuel);
      var o := Run(g, input, xs[0], c, backtrack, fuel);
      if o.Ok? { GatherSound(nn, rn, g, h, input, xs[1..], ys[1..], o.to, backtrack, fuel); }
    }
  }

  /** The main theorem. For every grammar and parser that meet the optimiser's conditions,
      every input, start position, backtracking depth and fuel, and any choice of the names
      that are optimised, the optimised parser succeeds or fails with the same value at the
      same position, unless the original run is undefined behaviour. */
  lemma OptimiseSound(nn: set<nat>, rn: set<nat>, g: Grammar, h: Grammar, input: string, p: Parser, c: Cursor,
      backtrack: int, fuel: nat)
    requires KnownNames(nn, rn, g) && Optimised(nn, rn, g, h) && Fit(nn, rn, p)
    ensures Refines(Run(g, input, p, c, backtrack, fuel), Run(h, input, Optimise(p), c, backtrack, fuel))
  {
    hide Run;
    KeptSound(nn, rn, g, h, input, p, Optimise(p), c, backtrack, fuel);
  }

  /** The same of the optimiser as coded: whenever it is defined, and safe parsers are exactly
      those it is defined for, what it leaves behind runs as the parser did before. */
  lemma CodedSound(nn: set<nat>, rn: set<nat>, g: Grammar, h: Grammar, input: string, p: Parser, c: Cursor,
      backtrack: int, fuel: nat)
    requires KnownNames(nn, rn, g) && |h| == |g|
    requires forall id | 0 <= id < |g| :: h[id] == g[id] || (CodedOptimise(g[id]) == Some(h[id]) && Fit(nn, rn, g[id]))
    requires Fit(nn, rn, p)
    ensures CodedOptimise(p).Some? <==> Safe(p)
    ensures Safe(p) ==>
        Refines(Run(g, input, p, c, backtrack, fuel), Run(h, input, CodedOptimise(p).value, c, backtrack, fuel))
  {
    hide Run, Optimise, CodedOptimise, Safe, Fit;
    CodedExactly(p);
    forall id | 0 <= id < |g| ensures Kept(nn, rn, g[id], h[id]) { CodedExactly(g[id]); }
    OptimiseSound(nn, rn, g, h, input, p, c, backtrack, fuel);
  }
}
