/** The optimiser as it works on its arrays of pointers, next to what it is meant to do: where it
    is defined at all, and that it then does just that. */
module MpcCoded {
  import opened Options
  import opened Memory
  import opened MpcParser
  import opened MpcOptimise
  import opened MpcLeaves

  // ----- the merges on their arrays -----

  /** The list ys takes the place of the last element. */
  function MergeLast(xs: seq<Parser>, ys: seq<Parser>): Option<Block<Parser>>
    requires xs != []
  {
    Memmove(Some(Realloc(Stored(xs), |xs| + |ys| - 1)), |xs| - 1, Stored(ys), 0, |ys|)
  }

  /** The list ys takes the place of the first element of a sequence. */
  function MergeFirst(xs: seq<Parser>, ys: seq<Parser>): Option<Block<Parser>>
    requires xs != []
  {
    var b := Realloc(Stored(xs), |xs| + |ys| - 1);
    Memmove(Memmove(Some(b), |ys|, b, 1, |xs| - 1), 0, Stored(ys), 0, |ys|)
  }

  /** The same for alternatives, where the tail is taken from the wrong list, and one pointer too
      many. */
  function MergeFirstOr(xs: seq<Parser>, ys: seq<Parser>): Option<Block<Parser>>
    requires xs != []
  {
    Memmove(Memmove(Some(Realloc(Stored(xs), |xs| + |ys| - 1)), |ys|, Stored(ys), 1, |xs|), 0, Stored(ys), 0, |ys|)
  }

  lemma MergeLastSplices(xs: seq<Parser>)
    requires xs != [] && Lists(xs[|xs| - 1])
    ensures MergeLast(xs, xs[|xs| - 1].xs) == Some(Stored(Splice(xs, |xs| - 1)))
  {
    var ys := xs[|xs| - 1].xs;
    assert MergeLast(xs, ys).value == Stored(Splice(xs, |xs| - 1));
  }

  lemma MergeFirstSplices(xs: seq<Parser>)
    requires xs != [] && Lists(xs[0])
    ensures MergeFirst(xs, xs[0].xs) == if xs[0].xs == [] then None else Some(Stored(Splice(xs, 0)))
  {
    var ys := xs[0].xs;
    var b := Realloc(Stored(xs), |xs| + |ys| - 1);
    if ys != [] {
      var c := Memmove(Some(b), |ys|, b, 1, |xs| - 1).value;
      assert forall k :: |ys| <= k < |c| ==> c[k] == Some(xs[k - |ys| + 1]);
      assert MergeFirst(xs, ys).value == Stored(Splice(xs, 0));
    }
  }

  /** The left merge of alternatives writes past its array whenever it is made. */
  lemma MergeFirstOrOverruns(xs: seq<Parser>, ys: seq<Parser>)
    requires xs != []
    ensures MergeFirstOr(xs, ys) == None
  {}

  // ----- the rules as performed -----

  /** One round of the loop: nothing to do, a new parser, or undefined behaviour. */
  datatype Round = Done | Becomes(p: Parser) | Broken

  function Merged(p: Parser, b: Option<Block<Parser>>): Round
    requires Lists(p)
  {
    var xs := Loaded(b);
    if xs.Some? then Becomes(WithList(p, xs.value)) else Broken
  }

  /** The tests in their order. The last element of an empty list is read before the list. Where
      the second of two elements is a name, the parser it names is copied and freed under its
      other holders. */
  function CodedRule(p: Parser): Round {
    if !p.Or? && !IsFoldAnd(p) then Done
    else if p.xs == [] then Broken
    else
      var n := |p.xs|;
      var first, last := p.xs[0], p.xs[n - 1];
      if p.Or? then
        if last.Or? then Merged(p, MergeLast(p.xs, last.xs))
        else if first.Or? then Merged(p, MergeFirstOr(p.xs, first.xs))
        else Done
      else if n == 2 && IsUnit(p.f, first) then if p.xs[1].Ref? then Broken else Becomes(p.xs[1])
      else if SameFold(p.f, first) then Merged(p, MergeFirst(p.xs, first.xs))
      else if SameFold(p.f, last) then Merged(p, MergeLast(p.xs, last.xs))
      else Done
  }

  /** Where a round is undefined. */
  predicate Breaks(p: Parser) {
    || ((p.Or? || IsFoldAnd(p)) && p.xs == [])
    || (p.Or? && !p.xs[|p.xs| - 1].Or? && p.xs[0].Or?)
    || (DropsFirst(p) && p.xs[1].Ref?)
    || (IsFoldAnd(p) && !DropsFirst(p) && SameFold(p.f, p.xs[0]) && p.xs[0].xs == [])
  }

  lemma MergedStored(p: Parser, xs: seq<Parser>)
    requires Lists(p)
    ensures Merged(p, Some(Stored(xs))) == Becomes(WithList(p, xs))
  {
    StoredLoads(xs);
  }

  /** A round as performed is the rule, unless it breaks. */
  lemma CodedRuleExactly(p: Parser)
    ensures CodedRule(p) == if Breaks(p) then Broken else if Rule(p).Some? then Becomes(Rule(p).value) else Done
  {
    if (p.Or? || IsFoldAnd(p)) && p.xs != [] {
      var n := |p.xs|;
      RuleOfList(p);
      hide Rule, Stored, Realloc, Memmove, MergeLast, MergeFirst, MergeFirstOr, Splice, Merged;
      if Lists(p.xs[n - 1]) {
        MergeLastSplices(p.xs);
        MergedStored(p, Splice(p.xs, n - 1));
      }
      if Lists(p.xs[0]) {
        MergeFirstSplices(p.xs);
        MergeFirstOrOverruns(p.xs, p.xs[0].xs);
        MergedStored(p, Splice(p.xs, 0));
      }
      NothingMerged(p);
    }
  }

  lemma RuleOfList(p: Parser)
    requires (p.Or? || IsFoldAnd(p)) && p.xs != []
    ensures var n := |p.xs|;
      Rule(p) ==
        if p.And? && n == 2 && IsUnit(p.f, p.xs[0]) then Some(p.xs[1])
        else if p.Or? && p.xs[n - 1].Or? then Some(WithList(p, Splice(p.xs, n - 1)))
        else if (p.Or? && p.xs[0].Or?) || (p.And? && SameFold(p.f, p.xs[0])) then Some(WithList(p, Splice(p.xs, 0)))
        else if p.And? && SameFold(p.f, p.xs[n - 1]) then Some(WithList(p, Splice(p.xs, n - 1)))
        else None
  {
    hide Splice;
  }

  lemma NothingMerged(p: Parser)
    requires Lists(p)
    ensures Merged(p, None) == Broken
  {}

  /** A round that has a meaning drops the first of two elements or splices in one end of the list, the
      first end only of a sequence; and it makes the tree smaller. */
  lemma RoundCases(p: Parser) returns (i: nat)
    requires CodedRule(p).Becomes?
    ensures Lists(p) && i < |p.xs| && Size(CodedRule(p).p) < Size(p)
    ensures DropsFirst(p) ==> CodedRule(p).p == p.xs[1]
    ensures !DropsFirst(p) ==>
      && (i == |p.xs| - 1 || (i == 0 && p.And?)) && MergesAt(p, i)
      && CodedRule(p).p == WithList(p, Splice(p.xs, i))
  {
    CodedRuleExactly(p);
    hide CodedRule, Size;
    RuleShrinks(p);
    i := RuleCases(p);
    if p.Or? { i := |p.xs| - 1; }
  }

  /** It keeps the node count, unless it drops an element, which lowers it by one. */
  lemma RoundCounts(p: Parser)
    requires CodedRule(p).Becomes?
    ensures NodeCount(CodedRule(p).p) == if DropsFirst(p) then NodeCount(p) - 1 else NodeCount(p)
  {
    CodedRuleExactly(p);
    hide CodedRule, Rule, NodeCount;
    RuleCounts(p);
  }

  /** The loop as performed; None is undefined behaviour. */
  function CodedRewrite(p: Parser): Option<Parser>
    decreases Size(p)
  {
    match CodedRule(p)
    case Done => Some(p)
    case Broken => None
    case Becomes(q) => CodedRuleExactly(p); RuleShrinks(p); CodedRewrite(q)
  }

  /** The optimiser as performed. */
  function CodedOptimise(p: Parser): Option<Parser>
    decreases p, 1
  {
    if Wraps(p) then
      match CodedOptimise(p.x)
      case None => None
      case Some(y) => CodedRewrite(p.(x := y))
    else if Lists(p) then
      match CodedAll(p.xs)
      case None => None
      case Some(ys) => CodedRewrite(WithList(p, ys))
    else CodedRewrite(p)
  }

  function CodedAll(xs: seq<Parser>): (r: Option<seq<Parser>>)
    ensures r.Some? <==> forall i | 0 <= i < |xs| :: CodedOptimise(xs[i]).Some?
    ensures r.Some? ==> |r.value| == |xs| && forall i | 0 <= i < |xs| :: r.value[i] == CodedOptimise(xs[i]).value
    decreases xs, 0
  {
    if xs == [] then Some([])
    else
      match CodedOptimise(xs[0])
      case None => None
      case Some(y) => match CodedAll(xs[1..]) case None => None case Some(ys) => Some([y] + ys)
  }

  // ----- where the loop is defined -----

  /** No round breaks. */
  ghost predicate Goes(p: Parser)
    decreases Size(p)
  {
    !Breaks(p) && (Rule(p).Some? ==> (RuleShrinks(p); Goes(Rule(p).value)))
  }

  lemma {:induction false} CodedRewriteGoes(p: Parser)
    ensures CodedRewrite(p) == if Goes(p) then Some(Rewrite(p)) else None
    decreases Size(p)
  {
    hide Breaks, Rule, CodedRule;
    CodedRuleExactly(p);
    if Rule(p).Some? {
      RuleShrinks(p);
      CodedRewriteGoes(Rule(p).value);
    }
  }

  lemma NormalGoes(p: Parser)
    requires Normal(p) && Filled(p)
    ensures Goes(p)
  {
    assert Rule(p).None?;
  }

  /** Optimised elements of a list. */
  ghost predicate Optimal(ys: seq<Parser>) {
    ys != [] && forall i :: 0 <= i < |ys| ==> Normal(ys[i]) && Filled(ys[i])
  }

  lemma OrGoes(ys: seq<Parser>)
    requires Optimal(ys)
    ensures Goes(Or(ys)) <==> !(|ys| >= 2 && ys[0].Or?)
  {
    var n := |ys|;
    GoesUnfolds(Or(ys));
    OrBreaks(ys);
    if ys[n - 1].Or? {
      var zs := Splice(ys, n - 1);
      LastOpens(ys);
      GoesUnfolds(Or(zs));
      OrBreaks(zs);
      hide *;
    }
  }

  lemma OrBreaks(xs: seq<Parser>)
    requires xs != []
    ensures Breaks(Or(xs)) <==> !xs[|xs| - 1].Or? && xs[0].Or?
    ensures Rule(Or(xs)) ==
      if xs[|xs| - 1].Or? then Some(Or(Splice(xs, |xs| - 1))) else if xs[0].Or? then Some(Or(Splice(xs, 0))) else None
  {
    hide Splice;
  }

  lemma LastOpens(ys: seq<Parser>)
    requires Optimal(ys) && ys[|ys| - 1].Or?
    ensures var zs := Splice(ys, |ys| - 1);
      zs != [] && !zs[|zs| - 1].Or? && (zs[0].Or? <==> |ys| >= 2 && ys[0].Or?)
  {
    var n := |ys|;
    var last := ys[n - 1];
    assert Rule(last).None? && Filled(last);
    SpliceElement(ys, n - 1, 0);
    SpliceElement(ys, n - 1, |Splice(ys, n - 1)| - 1);
  }

  lemma OptimalReady(f: Fold, ys: seq<Parser>)
    requires (f.FoldTree? || f.StrFold?) && Optimal(ys)
    ensures Ready(f, ys)
  {
    assert Filled(ys[0]) && Filled(ys[|ys| - 1]);
  }

  lemma OptimalOpened(ys: seq<Parser>, i: nat)
    requires Optimal(ys) && i < |ys| && ys[i].And? && ys[i].xs != []
    ensures Optimal(ys[..i] + ys[i].xs + ys[i + 1..])
  {
    assert Normal(ys[i]) && Filled(ys[i]) && ChildrenNormal(ys[i]);
    hide Normal, Filled;
  }

  lemma AndBreaks(f: Fold, ys: seq<Parser>)
    requires Ready(f, ys)
    ensures Breaks(And(f, ys)) <==> DropsFirst(And(f, ys)) && ys[1].Ref?
  {}

  lemma GoesUnfolds(p: Parser)
    ensures Goes(p) <==> !Breaks(p) && (Rule(p).Some? ==> Goes(Rule(p).value))
  {}

  lemma {:induction false} AndGoes(f: Fold, ys: seq<Parser>)
    requires (f.FoldTree? || f.StrFold?) && Optimal(ys)
    ensures Goes(And(f, ys)) <==> !(Drops(f, ys) && ys[1].Ref?)
    decreases SizeAll(ys)
  {
    var p, n := And(f, ys), |ys|;
    OptimalReady(f, ys);
    AndBreaks(f, ys);
    GoesUnfolds(p);
    hide Goes, Breaks, Size, SizeAll;
    if DropsFirst(p) {
      assert Rule(p) == Some(ys[1]);
      NormalGoes(ys[1]);
    } else if SameFold(f, ys[0]) {
      OpensFirst(f, ys);
    } else if SameFold(f, ys[n - 1]) {
      OpensLast(f, ys);
    } else {
      assert Rule(p).None?;
    }
  }

  lemma {:induction false} OpensFirst(f: Fold, ys: seq<Parser>)
    requires Ready(f, ys) && Optimal(ys) && SameFold(f, ys[0]) && !DropsFirst(And(f, ys))
    ensures var p := And(f, ys); Rule(p).Some? && (Goes(Rule(p).value) <==> !(Drops(f, ys) && ys[1].Ref?))
    decreases SizeAll(ys), 0
  {
    var zs := ys[0].xs;
    assert Lists(ys[0]) && ys[0].And? && zs != [];
    hide *;
    OpenRule(f, ys, 0);
    OptimalOpened(ys, 0);
    assert ys[..0] + zs + ys[1..] == zs + ys[1..];
    FirstOpened(f, ys);
    AndGoes(f, zs + ys[1..]);
  }

  lemma {:induction false} OpensLast(f: Fold, ys: seq<Parser>)
    requires Ready(f, ys) && Optimal(ys) && !SameFold(f, ys[0]) && SameFold(f, ys[|ys| - 1]) && !DropsFirst(And(f, ys))
    ensures var p := And(f, ys); Rule(p).Some? && (Goes(Rule(p).value) <==> !(Drops(f, ys) && ys[1].Ref?))
    decreases SizeAll(ys), 0
  {
    var i := |ys| - 1;
    var zs := ys[i].xs;
    assert Lists(ys[i]) && ys[i].And? && zs != [];
    hide *;
    OpenRule(f, ys, i);
    OptimalOpened(ys, i);
    assert ys[..i] + zs + ys[i + 1..] == ys[..i] + zs;
    LastOpened(f, ys);
    AndGoes(f, ys[..i] + zs);
  }

  lemma OpenRule(f: Fold, ys: seq<Parser>, i: nat)
    requires ys != [] && i < |ys| && SameFold(f, ys[i]) && !DropsFirst(And(f, ys))
    requires i == 0 || (i == |ys| - 1 && !SameFold(f, ys[0]))
    ensures Rule(And(f, ys)) == Some(And(f, ys[..i] + ys[i].xs + ys[i + 1..]))
    ensures SizeAll(ys[..i] + ys[i].xs + ys[i + 1..]) < SizeAll(ys)
  {
    hide SizeAll;
    SpliceShrinks(ys, i);
  }

  // ----- which parsers can be optimised as coded -----

  /** x comes down to the element that is dropped before others. */
  predicate ToUnit(f: Fold, x: Parser)
    decreases x
  {
    if IsFoldAnd(x) then
      || (|x.xs| == 2 && ToUnit(x.f, x.xs[0]) && ToUnit(f, x.xs[1]))
      || (|x.xs| == 1 && SameFold(f, x) && ToUnit(f, x.xs[0]))
    else IsUnit(f, x)
  }

  /** What is left of x when useless first elements are dropped. */
  function Remains(x: Parser): Parser {
    if IsFoldAnd(x) && |x.xs| == 2 && ToUnit(x.f, x.xs[0]) then Remains(x.xs[1]) else x
  }

  /** No list that the rules look at is empty, no alternatives begin with alternatives and have
      others behind them, and no name is left alone behind something dropped. */
  predicate Safe(p: Parser)
    decreases p
  {
    && (p.Or? || IsFoldAnd(p) ==> p.xs != [])
    && (p.Or? && |p.xs| >= 2 ==> !Remains(p.xs[0]).Or?)
    && (IsFoldAnd(p) && |p.xs| == 2 && ToUnit(p.f, p.xs[0]) ==> !Remains(p.xs[1]).Ref?)
    && (Wraps(p) ==> Safe(p.x))
    && (Lists(p) ==> forall i | 0 <= i < |p.xs| :: Safe(p.xs[i]))
  }

  lemma {:induction false} SafeIsFilled(p: Parser)
    requires Safe(p)
    ensures Filled(p)
    decreases p
  {
    if Wraps(p) {
      SafeIsFilled(p.x);
    } else if Lists(p) {
      forall i | 0 <= i < |p.xs| ensures Filled(p.xs[i]) { SafeIsFilled(p.xs[i]); }
    }
  }

  /** The rules look through nothing but the sequences they merge and the alternatives. */
  lemma KeepsKind(p: Parser)
    requires !IsFoldAnd(p)
    ensures !IsFoldAnd(Optimise(p)) && (Optimise(p).Or? <==> p.Or?) && (Optimise(p).Ref? <==> p.Ref?)
    ensures !Wraps(p) && !Lists(p) ==> Optimise(p) == p
    ensures Wraps(p) || Lists(p) ==> Wraps(Optimise(p)) || Lists(Optimise(p))
  {
    hide OptimiseAll;
    if p.Or? {
      RewritesToOr(Rebuild(p));
    } else {
      assert Rule(Rebuild(p)).None?;
    }
  }

  lemma {:induction false} RewritesToOr(p: Parser)
    requires p.Or?
    ensures Rewrite(p).Or?
    decreases Size(p)
  {
    if Rule(p).Some? {
      RuleShrinks(p);
      RewritesToOr(Rule(p).value);
    }
  }

  lemma {:induction false} ToUnitRight(f: Fold, x: Parser)
    requires Filled(x) && (f.FoldTree? || f.StrFold?)
    ensures ToUnit(f, x) <==> Leaves(f, Optimise(x)) == [Unit(f)]
    decreases x
  {
    if !IsFoldAnd(x) {
      KeepsKind(x);
    } else {
      ToUnitRight(x.f, x.xs[0]);
      ToUnitRight(f, x.xs[0]);
      if |x.xs| == 2 { ToUnitRight(f, x.xs[1]); }
      hide *;
      ToUnitOfAnd(f, x);
    }
  }

  lemma ToUnitOfAnd(f: Fold, x: Parser)
    requires IsFoldAnd(x) && Filled(x) && x.And? && x.xs != [] && (f.FoldTree? || f.StrFold?)
    requires ToUnit(x.f, x.xs[0]) <==> Leaves(x.f, Optimise(x.xs[0])) == [Unit(x.f)]
    requires ToUnit(f, x.xs[0]) <==> Leaves(f, Optimise(x.xs[0])) == [Unit(f)]
    requires |x.xs| == 2 ==> (ToUnit(f, x.xs[1]) <==> Leaves(f, Optimise(x.xs[1])) == [Unit(f)])
    ensures ToUnit(f, x) <==> Leaves(f, Optimise(x)) == [Unit(f)]
  {
    hide *;
    FoldKinds(x);
    OptimiseEnds(x);
    ToUnitUnfolds(f, x);
    EndsToUnit(f, x.f, OptimiseAll(x.xs), Optimise(x));
  }

  lemma ToUnitUnfolds(f: Fold, x: Parser)
    requires IsFoldAnd(x) && (f.FoldTree? || f.StrFold?)
    ensures ToUnit(f, x) <==>
      || (|x.xs| == 2 && ToUnit(x.f, x.xs[0]) && ToUnit(f, x.xs[1]))
      || (|x.xs| == 1 && f == x.f && ToUnit(f, x.xs[0]))
  {}

  lemma FoldKinds(x: Parser)
    requires IsFoldAnd(x)
    ensures x.And? && (x.f.FoldTree? || x.f.StrFold?)
  {}

  lemma EndsToUnit(f: Fold, e: Fold, ys: seq<Parser>, q: Parser)
    requires (f.FoldTree? || f.StrFold?) && (e.FoldTree? || e.StrFold?) && Ready(e, ys)
    requires q == if Drops(e, ys) then ys[1] else And(e, Ends(e, ys))
    ensures Leaves(f, q) == [Unit(f)] <==>
      || (|ys| == 2 && Leaves(e, ys[0]) == [Unit(e)] && Leaves(f, ys[1]) == [Unit(f)])
      || (|ys| == 1 && f == e && Leaves(f, ys[0]) == [Unit(f)])
  {}

  lemma {:induction false} RemainsRight(x: Parser)
    requires Filled(x)
    ensures Optimise(x).Or? <==> Remains(x).Or?
    ensures Optimise(x).Ref? <==> Remains(x).Ref?
    decreases x
  {
    if !IsFoldAnd(x) {
      KeepsKind(x);
    } else {
      OptimiseEnds(x);
      ToUnitRight(x.f, x.xs[0]);
      if |x.xs| == 2 { RemainsRight(x.xs[1]); }
      assert Drops(x.f, OptimiseAll(x.xs)) <==>
          |x.xs| == 2 && ToUnit(x.f, x.xs[0]) by { hide Optimise, ToUnit, Filled; }
      hide Optimise, Filled, ToUnit, Ready, Ends, Leaves, Drops, OptimiseAll;
    }
  }

  lemma CodedLeaf(p: Parser)
    requires !Wraps(p) && !Lists(p)
    ensures CodedOptimise(p) == Some(Optimise(p)) && Safe(p)
  {
    assert Rule(p).None?;
  }

  lemma ElementsOptimal(xs: seq<Parser>)
    requires xs != [] && forall i | 0 <= i < |xs| :: Filled(xs[i])
    ensures Optimal(OptimiseAll(xs))
  {
    var ys := OptimiseAll(xs);
    hide Optimise, OptimiseAll, Filled, Normal, Rebuild;
    forall i | 0 <= i < |ys| ensures Normal(ys[i]) && Filled(ys[i]) {
      assert ys[i] == Optimise(xs[i]) && Filled(xs[i]);
      OptimiseIsNormal(xs[i]);
      OptimiseKeepsFilled(xs[i]);
    }
  }

  /** The optimiser as coded is defined exactly for safe parsers, and then does what it is meant
      to do. */
  lemma {:induction false} CodedExactly(p: Parser)
    ensures CodedOptimise(p) == if Safe(p) then Some(Optimise(p)) else None
    decreases p
  {
    if Wraps(p) {
      CodedExactly(p.x);
      CodedRewriteGoes(Rebuild(p));
      assert Rule(Rebuild(p)).None?;
    } else if Lists(p) {
      forall i | 0 <= i < |p.xs|
          ensures CodedOptimise(p.xs[i]) == if Safe(p.xs[i]) then Some(Optimise(p.xs[i])) else None {
        CodedExactly(p.xs[i]);
      }
      CodedList(p);
    } else {
      CodedLeaf(p);
    }
  }

  lemma CodedList(p: Parser)
    requires Lists(p)
        && forall i | 0 <= i < |p.xs| ::
        CodedOptimise(p.xs[i]) == if Safe(p.xs[i]) then Some(Optimise(p.xs[i])) else None
    ensures CodedOptimise(p) == if Safe(p) then Some(Optimise(p)) else None
  {
    if forall i | 0 <= i < |p.xs| :: Safe(p.xs[i]) {
      forall i | 0 <= i < |p.xs| ensures Filled(p.xs[i]) { SafeIsFilled(p.xs[i]); }
      hide Optimise, CodedRewrite, Rewrite, Filled, Goes;
      assert CodedAll(p.xs).value == OptimiseAll(p.xs);
      CodedRewriteGoes(Rebuild(p));
      OptimiseUnfolds(p);
      ListGoes(p);
    } else {
      assert CodedAll(p.xs).None?;
    }
  }

  lemma ListGoes(p: Parser)
    requires Lists(p) && forall i | 0 <= i < |p.xs| :: Safe(p.xs[i]) && Filled(p.xs[i])
    ensures Goes(Rebuild(p)) <==> Safe(p)
  {
    SafeUnfolds(p);
    hide Goes, Rebuild, Safe, Filled, Remains, ToUnit;
    if p.xs == [] || (!p.Or? && !IsFoldAnd(p)) {
      NoRuleGoes(p);
    } else if p.Or? {
      AlternativesGo(p.xs);
    } else {
      SequenceGoes(p.f, p.xs);
    }
  }

  lemma NoRuleGoes(p: Parser)
    requires Lists(p) && (p.xs == [] || (!p.Or? && !IsFoldAnd(p)))
    ensures Goes(Rebuild(p)) <==> !((p.Or? || IsFoldAnd(p)) && p.xs == [])
  {
    hide Optimise;
    assert Rule(Rebuild(p)).None?;
  }

  lemma AlternativesGo(xs: seq<Parser>)
    requires xs != [] && forall i | 0 <= i < |xs| :: Filled(xs[i])
    ensures Goes(Rebuild(Or(xs))) <==> !(|xs| >= 2 && Remains(xs[0]).Or?)
  {
    hide Optimise, Optimal, Filled, Remains, Goes;
    ElementsOptimal(xs);
    RemainsRight(xs[0]);
    OrGoes(OptimiseAll(xs));
  }

  lemma SequenceGoes(f: Fold, xs: seq<Parser>)
    requires (f.FoldTree? || f.StrFold?) && xs != [] && forall i | 0 <= i < |xs| :: Filled(xs[i])
    ensures Goes(Rebuild(And(f, xs))) <==> !(|xs| == 2 && ToUnit(f, xs[0]) && Remains(xs[1]).Ref?)
  {
    hide Optimise, Optimal, Filled, Remains, ToUnit, Goes;
    ElementsOptimal(xs);
    ToUnitRight(f, xs[0]);
    if |xs| == 2 { RemainsRight(xs[1]); }
    AndGoes(f, OptimiseAll(xs));
  }

  lemma SafeUnfolds(p: Parser)
    requires Lists(p) && forall i | 0 <= i < |p.xs| :: Safe(p.xs[i])
    ensures Safe(p) <==>
        && (p.Or? || IsFoldAnd(p) ==> p.xs != [])
        && (p.Or? && |p.xs| >= 2 ==> !Remains(p.xs[0]).Or?)
        && (IsFoldAnd(p) && |p.xs| == 2 && ToUnit(p.f, p.xs[0]) ==> !Remains(p.xs[1]).Ref?)
  {}

  // ----- which roots stay what they are -----

  /** No round copies the second of two elements over its parent, the parent's name included. */
  ghost predicate RootStays(p: Parser)
    decreases Size(p)
  {
    !DropsFirst(p) && (Rule(p).Some? ==> (RuleShrinks(p); RootStays(Rule(p).value)))
  }

  /** The parser does not come down to the second of two elements. */
  predicate KeepsName(p: Parser) {
    !(IsFoldAnd(p) && |p.xs| == 2 && ToUnit(p.f, p.xs[0]))
  }

  lemma StaysUnfolds(p: Parser)
    ensures RootStays(p) <==> !DropsFirst(p) && (Rule(p).Some? ==> RootStays(Rule(p).value))
  {}

  lemma {:induction false} OrStays(p: Parser)
    requires p.Or?
    ensures RootStays(p)
    decreases Size(p)
  {
    if Rule(p).Some? {
      RuleShrinks(p);
      OrStays(Rule(p).value);
    }
  }

  lemma {:induction false} AndStays(f: Fold, ys: seq<Parser>)
    requires (f.FoldTree? || f.StrFold?) && Optimal(ys)
    ensures RootStays(And(f, ys)) <==> !Drops(f, ys)
    decreases SizeAll(ys)
  {
    var p, n := And(f, ys), |ys|;
    OptimalReady(f, ys);
    StaysUnfolds(p);
    hide RootStays, Size, SizeAll;
    if !DropsFirst(p) && SameFold(f, ys[0]) {
      FirstStays(f, ys);
    } else if !DropsFirst(p) && SameFold(f, ys[n - 1]) {
      LastStays(f, ys);
    } else if !DropsFirst(p) {
      assert Rule(p).None?;
    }
  }

  lemma {:induction false} FirstStays(f: Fold, ys: seq<Parser>)
    requires Ready(f, ys) && Optimal(ys) && SameFold(f, ys[0]) && !DropsFirst(And(f, ys))
    ensures var p := And(f, ys); Rule(p).Some? && (RootStays(Rule(p).value) <==> !Drops(f, ys))
    decreases SizeAll(ys), 0
  {
    var zs := ys[0].xs;
    assert Lists(ys[0]) && ys[0].And? && zs != [];
    hide *;
    OpenRule(f, ys, 0);
    OptimalOpened(ys, 0);
    assert ys[..0] + zs + ys[1..] == zs + ys[1..];
    FirstOpened(f, ys);
    AndStays(f, zs + ys[1..]);
  }

  lemma {:induction false} LastStays(f: Fold, ys: seq<Parser>)
    requires Ready(f, ys) && Optimal(ys) && !SameFold(f, ys[0]) && SameFold(f, ys[|ys| - 1]) && !DropsFirst(And(f, ys))
    ensures var p := And(f, ys); Rule(p).Some? && (RootStays(Rule(p).value) <==> !Drops(f, ys))
    decreases SizeAll(ys), 0
  {
    var i := |ys| - 1;
    var zs := ys[i].xs;
    assert Lists(ys[i]) && ys[i].And? && zs != [];
    hide *;
    OpenRule(f, ys, i);
    OptimalOpened(ys, i);
    assert ys[..i] + zs + ys[i + 1..] == ys[..i] + zs;
    LastOpened(f, ys);
    AndStays(f, ys[..i] + zs);
  }

  /** Whether the root stays can be told from the parser as it is written. */
  lemma RootStaysExactly(p: Parser)
    requires Filled(p)
    ensures RootStays(Rebuild(p)) <==> KeepsName(p)
  {
    if p.Or? {
      hide OptimiseAll;
      OrStays(Rebuild(p));
    } else if IsFoldAnd(p) {
      FoldKinds(p);
      ElementsOptimal(p.xs);
      ToUnitRight(p.f, p.xs[0]);
      hide Optimise, RootStays, ToUnit, Filled, Optimal;
      AndStays(p.f, OptimiseAll(p.xs));
    } else {
      hide Optimise;
      assert Rule(Rebuild(p)).None?;
    }
  }

  /** What is optimised already stays safe. */
  lemma {:induction false} NormalIsSafe(p: Parser)
    requires Normal(p) && Filled(p)
    ensures Safe(p)
    decreases p
  {
    if Wraps(p) {
      NormalIsSafe(p.x);
    } else if Lists(p) {
      forall i | 0 <= i < |p.xs| ensures Safe(p.xs[i]) && Optimise(p.xs[i]) == p.xs[i] && Filled(p.xs[i]) {
        NormalIsSafe(p.xs[i]);
        NormalIsFixed(p.xs[i]);
      }
      if p.xs != [] {
        RemainsRight(p.xs[0]);
        if IsFoldAnd(p) { ToUnitRight(p.f, p.xs[0]); }
      }
    }
  }

  /** And keeps its root. */
  lemma NormalKeepsName(p: Parser)
    requires Normal(p) && Filled(p)
    ensures KeepsName(p)
  {
    if IsFoldAnd(p) {
      NormalIsFixed(p.xs[0]);
      ToUnitRight(p.f, p.xs[0]);
    }
  }

  /** A pass before a name: meant to leave the name, and undefined as coded. */
  lemma NameBehindPass(id: nat)
    ensures Optimise(And(FoldTree, [Pass, Ref(id)])) == Ref(id)
    ensures CodedOptimise(And(FoldTree, [Pass, Ref(id)])) == None
  {
    var p := And(FoldTree, [Pass, Ref(id)]);
    CodedExactly(p);
    assert p.xs[0].Pass? && Remains(p.xs[1]) == Ref(id);
    OptimiseEnds(p);
    KeepsKind(Pass);
    KeepsKind(Ref(id));
    hide Optimise;
    assert OptimiseAll(p.xs) == [Pass, Ref(id)];
  }
}
