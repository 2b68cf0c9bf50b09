/** What the optimiser makes of nested sequences with the same fold: one sequence of all their
    leaves, or what stands behind a useless first element. */
module MpcLeaves {
  import opened Options
  import opened MpcParser
  import opened MpcOptimise

  /** A sequence whose fold is f, one of the two folds that are merged. */
  predicate SameFold(f: Fold, p: Parser) {
    (f.FoldTree? && IsTreeAnd(p)) || (f.StrFold? && IsStrAnd(p))
  }

  predicate IsFoldAnd(p: Parser) {
    IsTreeAnd(p) || IsStrAnd(p)
  }

  /** The useless first element that is dropped in front of one other. */
  function Unit(f: Fold): Parser {
    if f.FoldTree? then Pass else Lift(CtorStr)
  }

  predicate IsUnit(f: Fold, x: Parser)
    ensures IsUnit(f, x) <==> x == Unit(f)
  {
    if f.FoldTree? then x.Pass? else x == Lift(CtorStr)
  }

  /** Alternatives and merged sequences are not empty. */
  ghost predicate Filled(p: Parser)
    decreases p
  {
    && (p.Or? || IsFoldAnd(p) ==> p.xs != [])
    && (Wraps(p) ==> Filled(p.x))
    && (Lists(p) ==> forall i | 0 <= i < |p.xs| :: Filled(p.xs[i]))
  }

  /** What an element leaves in the sequence it stands at an end of. */
  function Leaves(f: Fold, q: Parser): (zs: seq<Parser>)
    ensures !SameFold(f, q) ==> zs == [q]
  {
    if SameFold(f, q) then q.xs else [q]
  }

  /** The list with both ends opened. */
  function Ends(f: Fold, ys: seq<Parser>): seq<Parser>
    requires ys != []
  {
    if |ys| == 1 then Leaves(f, ys[0]) else Leaves(f, ys[0]) + ys[1..|ys| - 1] + Leaves(f, ys[|ys| - 1])
  }

  /** The first of two elements comes down to the useless one. */
  ghost predicate Drops(f: Fold, ys: seq<Parser>) {
    |ys| == 2 && Leaves(f, ys[0]) == [Unit(f)]
  }

  /** Optimised elements, ready to be merged. */
  ghost predicate Ready(f: Fold, ys: seq<Parser>) {
    && (f.FoldTree? || f.StrFold?) && ys != []
    && (SameFold(f, ys[0]) ==> ys[0].xs != []) && (SameFold(f, ys[|ys| - 1]) ==> ys[|ys| - 1].xs != [])
    && forall i :: 0 <= i < |ys| ==> Normal(ys[i])
  }

  /** The ends of an optimised sequence are no such sequences themselves. */
  lemma NormalEnds(f: Fold, q: Parser)
    requires SameFold(f, q) && Normal(q) && q.xs != []
    ensures Lists(q) && !SameFold(f, q.xs[0]) && !SameFold(f, q.xs[|q.xs| - 1]) && !Drops(f, q.xs)
    ensures forall i :: 0 <= i < |q.xs| ==> Normal(q.xs[i])
  {}

  lemma NormalRewrite(p: Parser)
    requires Normal(p)
    ensures Rewrite(p) == p
  {}

  /** What the rewriting loop makes of a sequence of optimised elements. */
  lemma {:induction false} RewriteEnds(f: Fold, ys: seq<Parser>)
    requires Ready(f, ys)
    ensures Rewrite(And(f, ys)) == if Drops(f, ys) then ys[1] else And(f, Ends(f, ys))
    decreases SizeAll(ys)
  {
    var p, n := And(f, ys), |ys|;
    hide Rewrite, Size, SizeAll;
    if DropsFirst(p) {
      RewriteUnfolds(p);
      NormalRewrite(ys[1]);
    } else if SameFold(f, ys[0]) {
      OpenFirst(f, ys);
    } else if SameFold(f, ys[n - 1]) {
      OpenLast(f, ys);
    } else {
      RewriteUnfolds(p);
      assert Rule(p).None?;
      if n > 1 { assert ys == [ys[0]] + ys[1..n - 1] + [ys[n - 1]]; }
    }
  }

  lemma RewriteUnfolds(p: Parser)
    ensures Rewrite(p) == if Rule(p).Some? then Rewrite(Rule(p).value) else p
  {}

  lemma {:induction false} OpenFirst(f: Fold, ys: seq<Parser>)
    requires Ready(f, ys) && SameFold(f, ys[0]) && !DropsFirst(And(f, ys))
    ensures Rewrite(And(f, ys)) == if Drops(f, ys) then ys[1] else And(f, Ends(f, ys))
    decreases SizeAll(ys), 0
  {
    NormalEnds(f, ys[0]);
    hide *;
    MergeStep(f, ys, 0);
    FirstOpened(f, ys);
    RewriteEnds(f, ys[0].xs + ys[1..]);
  }

  lemma {:induction false} OpenLast(f: Fold, ys: seq<Parser>)
    requires Ready(f, ys) && !SameFold(f, ys[0]) && SameFold(f, ys[|ys| - 1]) && !DropsFirst(And(f, ys))
    ensures Rewrite(And(f, ys)) == if Drops(f, ys) then ys[1] else And(f, Ends(f, ys))
    decreases SizeAll(ys), 0
  {
    NormalEnds(f, ys[|ys| - 1]);
    hide *;
    MergeStep(f, ys, |ys| - 1);
    LastOpened(f, ys);
    RewriteEnds(f, ys[..|ys| - 1] + ys[|ys| - 1].xs);
  }

  /** The merge at one end, as one round of the loop. */
  lemma MergeStep(f: Fold, ys: seq<Parser>, i: nat)
    requires ys != [] && i < |ys| && SameFold(f, ys[i]) && !DropsFirst(And(f, ys))
    requires i == 0 || (i == |ys| - 1 && !SameFold(f, ys[0]))
    ensures Rewrite(And(f, ys)) == Rewrite(And(f, ys[..i] + ys[i].xs + ys[i + 1..]))
    ensures SizeAll(ys[..i] + ys[i].xs + ys[i + 1..]) < SizeAll(ys)
    ensures i == 0 ==> ys[..i] + ys[i].xs + ys[i + 1..] == ys[0].xs + ys[1..]
    ensures i == |ys| - 1 ==> ys[..i] + ys[i].xs + ys[i + 1..] == ys[..|ys| - 1] + ys[|ys| - 1].xs
  {
    hide Rewrite, Size, SizeAll;
    RewriteUnfolds(And(f, ys));
    SpliceShrinks(ys, i);
  }

  /** Opening the first element leaves nothing else to open there. */
  lemma FirstOpened(f: Fold, ys: seq<Parser>)
    requires Ready(f, ys) && SameFold(f, ys[0]) && Lists(ys[0])
    ensures Ready(f, ys[0].xs + ys[1..]) && Ends(f, ys[0].xs + ys[1..]) == Ends(f, ys)
    ensures Drops(f, ys[0].xs + ys[1..]) == Drops(f, ys) && (Drops(f, ys) ==> (ys[0].xs + ys[1..])[1] == ys[1])
  {
    NormalEnds(f, ys[0]);
    var zs := ys[0].xs;
    if |ys| == 1 {
      hide *;
      assert zs + ys[1..] == zs;
      LoneOpened(f, ys, zs);
    } else {
      FirstJoined(zs, ys);
      hide *;
      ReadyJoined(f, ys, zs + ys[1..], zs, true);
      EndsJoined(f, ys, zs + ys[1..], zs);
    }
  }

  /** The leaves of a lone element. */
  lemma LoneOpened(f: Fold, ys: seq<Parser>, zs: seq<Parser>)
    requires |ys| == 1 && Ready(f, ys) && SameFold(f, ys[0]) && Lists(ys[0]) && zs == ys[0].xs && zs != []
    requires !SameFold(f, zs[0]) && !SameFold(f, zs[|zs| - 1]) && !Drops(f, zs)
    requires forall i :: 0 <= i < |zs| ==> Normal(zs[i])
    ensures Ready(f, zs) && Ends(f, zs) == Ends(f, ys) && !Drops(f, ys)
  {
    hide Normal, SameFold;
    Singles(f, zs);
  }

  lemma Singles(f: Fold, zs: seq<Parser>)
    requires zs != [] && !SameFold(f, zs[0]) && !SameFold(f, zs[|zs| - 1])
    ensures Ends(f, zs) == zs
  {
    hide SameFold;
    if |zs| > 1 { assert zs == [zs[0]] + zs[1..|zs| - 1] + [zs[|zs| - 1]]; }
  }

  /** The opened list ls, whose elements come from ys and from zs, which took the place of one
      end of ys. */
  lemma ReadyJoined(f: Fold, ys: seq<Parser>, ls: seq<Parser>, zs: seq<Parser>, first: bool)
    requires Ready(f, ys) && |ys| > 1 && zs != [] && |ls| == |ys| - 1 + |zs|
    requires forall i :: 0 <= i < |zs| ==> Normal(zs[i])
    requires !SameFold(f, zs[0]) && !SameFold(f, zs[|zs| - 1])
    requires forall i {:trigger ls[i]} :: 0 <= i < |ls| ==>
      ls[i] == if first then (if i < |zs| then zs[i] else ys[i - |zs| + 1]) else if i < |ys| - 1 then ys[i]
          else zs[i - |ys| + 1]
    ensures Ready(f, ls)
  {
    hide Normal, SameFold;
    assert ls[0] == if first then zs[0] else ys[0];
    assert ls[|ls| - 1] == if first then ys[|ys| - 1] else zs[|zs| - 1];
    forall i | 0 <= i < |ls| ensures Normal(ls[i]) {
      if first { assert i >= |zs| ==> Normal(ys[i - |zs| + 1]); } else { assert i < |ys| - 1 ==> Normal(ys[i]); }
    }
  }

  lemma EndsJoined(f: Fold, ys: seq<Parser>, ls: seq<Parser>, zs: seq<Parser>)
    requires |ys| > 1 && zs != [] && SameFold(f, ys[0]) && Lists(ys[0]) && ys[0].xs == zs && !SameFold(f, zs[0])
    requires && |ls| > 1 && ls[0] == zs[0] && ls[|ls| - 1] == ys[|ys| - 1]
             && (|ls| == 2 <==> |ys| == 2 && |zs| == 1) && (|ys| == 2 && |zs| == 1 ==> ls[1] == ys[1] && zs == [zs[0]])
             && [ls[0]] + ls[1..|ls| - 1] == zs + ys[1..|ys| - 1]
    ensures Ends(f, ls) == Ends(f, ys)
    ensures Drops(f, ls) == Drops(f, ys) && (Drops(f, ys) ==> ls[1] == ys[1])
  {
    hide SameFold, Unit;
  }

  lemma LastOpened(f: Fold, ys: seq<Parser>)
    requires Ready(f, ys) && !SameFold(f, ys[0]) && SameFold(f, ys[|ys| - 1]) && Lists(ys[|ys| - 1])
        && !DropsFirst(And(f, ys))
    ensures Ready(f, ys[..|ys| - 1] + ys[|ys| - 1].xs) && Ends(f, ys[..|ys| - 1] + ys[|ys| - 1].xs) == Ends(f, ys)
    ensures !Drops(f, ys[..|ys| - 1] + ys[|ys| - 1].xs) && !Drops(f, ys)
  {
    NormalEnds(f, ys[|ys| - 1]);
    assert !Drops(f, ys);
    var zs := ys[|ys| - 1].xs;
    LastJoined(zs, ys);
    hide *;
    ReadyJoined(f, ys, ys[..|ys| - 1] + zs, zs, false);
    LastEnds(f, ys, ys[..|ys| - 1] + zs, zs);
  }

  lemma LastEnds(f: Fold, ys: seq<Parser>, ls: seq<Parser>, zs: seq<Parser>)
    requires |ys| > 1 && zs != [] && SameFold(f, ys[|ys| - 1]) && Lists(ys[|ys| - 1]) && ys[|ys| - 1].xs == zs
    requires !SameFold(f, ys[0]) && !SameFold(f, zs[|zs| - 1]) && !Drops(f, ys)
    requires && |ls| > 1 && ls[0] == ys[0] && ls[|ls| - 1] == zs[|zs| - 1] && |ls| >= |ys|
             && ls[1..|ls| - 1] + [ls[|ls| - 1]] == ys[1..|ys| - 1] + zs
    ensures Ends(f, ls) == Ends(f, ys) && !Drops(f, ls)
  {
    hide SameFold, Unit;
    Regroup([ys[0]], ls[1..|ls| - 1], [ls[|ls| - 1]]);
    Regroup([ys[0]], ys[1..|ys| - 1], zs);
  }

  lemma Regroup<T>(a: seq<T>, b: seq<T>, c: seq<T>)
    ensures a + b + c == a + (b + c)
  {}

  lemma FirstJoined<T>(zs: seq<T>, ys: seq<T>)
    requires zs != [] && |ys| > 1
    ensures var ls := zs + ys[1..];
      && |ls| > 1 && ls[0] == zs[0] && ls[|ls| - 1] == ys[|ys| - 1]
      && (|ls| == 2 <==> |ys| == 2 && |zs| == 1) && (|ys| == 2 && |zs| == 1 ==> ls[1] == ys[1] && zs == [zs[0]])
      && [ls[0]] + ls[1..|ls| - 1] == zs + ys[1..|ys| - 1]
  {}

  lemma LastJoined<T>(zs: seq<T>, ys: seq<T>)
    requires zs != [] && |ys| > 1
    ensures var ls := ys[..|ys| - 1] + zs;
      && |ls| > 1 && ls[0] == ys[0] && ls[|ls| - 1] == zs[|zs| - 1] && |ls| >= |ys|
      && ls[1..|ls| - 1] + [ls[|ls| - 1]] == ys[1..|ys| - 1] + zs
  {}

  // ----- optimising keeps lists filled -----

  lemma RuleKeepsFilled(p: Parser)
    requires Filled(p) && Rule(p).Some?
    ensures Filled(Rule(p).value)
  {
    var i := RuleCases(p);
    if !DropsFirst(p) {
      assert Filled(p.xs[i]);
      var ys := Splice(p.xs, i);
      forall k | 0 <= k < |ys| ensures Filled(ys[k]) { SpliceElement(p.xs, i, k); }
    }
  }

  lemma {:induction false} RewriteKeepsFilled(p: Parser)
    requires Filled(p)
    ensures Filled(Rewrite(p))
    decreases Size(p)
  {
    if Rule(p).Some? {
      RuleKeepsFilled(p);
      RuleShrinks(p);
      RewriteKeepsFilled(Rule(p).value);
    }
  }

  lemma {:induction false} OptimiseKeepsFilled(p: Parser)
    requires Filled(p)
    ensures Filled(Rebuild(p)) && Filled(Optimise(p))
    decreases p
  {
    if Wraps(p) {
      OptimiseKeepsFilled(p.x);
    } else if Lists(p) {
      forall i | 0 <= i < |p.xs| ensures Filled(Optimise(p.xs[i])) { OptimiseKeepsFilled(p.xs[i]); }
    }
    RewriteKeepsFilled(Rebuild(p));
  }

  /** The optimised form of a sequence, by its optimised elements. */
  lemma OptimiseEnds(p: Parser)
    requires IsFoldAnd(p) && Filled(p)
    ensures Ready(p.f, OptimiseAll(p.xs))
    ensures Optimise(p) ==
        if Drops(p.f, OptimiseAll(p.xs)) then OptimiseAll(p.xs)[1] else And(p.f, Ends(p.f, OptimiseAll(p.xs)))
  {
    var ys := OptimiseAll(p.xs);
    forall i | 0 <= i < |ys| ensures Normal(ys[i]) && Filled(ys[i]) {
      OptimiseIsNormal(p.xs[i]);
      OptimiseKeepsFilled(p.xs[i]);
    }
    hide Normal, Rewrite, Rule;
    assert Ready(p.f, ys);
    RewriteEnds(p.f, ys);
    OptimiseUnfolds(p);
  }
}
