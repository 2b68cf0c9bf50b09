/** The optimiser of mpc: rules that flatten nested alternatives and sequences, applied bottom
    up until none fires. It ends, leaves nothing to do, and is idempotent. */
module MpcOptimise {
  import opened Options
  import opened MpcAst
  import opened MpcParser

  // ----- the rules -----

  predicate IsTreeAnd(p: Parser) { p.And? && p.f.FoldTree? }

  predicate IsStrAnd(p: Parser) { p.And? && p.f.StrFold? }

  /** Replaces element i of xs, itself a list, by its elements. */
  function Splice(xs: seq<Parser>, i: nat): seq<Parser>
    requires i < |xs| && Lists(xs[i])
  {
    xs[..i] + xs[i].xs + xs[i + 1..]
  }

  /** The result of the first rule that applies to the root of p. A named parser is a Ref and
      no rule looks through it. An empty list, whose last element the source would read, is
      left alone. */
  function Rule(p: Parser): Option<Parser> {
    if p.Or? && p.xs != [] then
      var n := |p.xs|;
      if p.xs[n - 1].Or? then Some(Or(Splice(p.xs, n - 1)))
      else if p.xs[0].Or? then Some(Or(Splice(p.xs, 0)))
      else None
    else if p.And? && p.xs != [] then
      var n := |p.xs|;
      if p.f.FoldTree? && n == 2 && p.xs[0].Pass? then Some(p.xs[1])
      else if p.f.FoldTree? && IsTreeAnd(p.xs[0]) then Some(And(p.f, Splice(p.xs, 0)))
      else if p.f.FoldTree? && IsTreeAnd(p.xs[n - 1]) then Some(And(p.f, Splice(p.xs, n - 1)))
      else if p.f.StrFold? && n == 2 && p.xs[0] == Lift(CtorStr) then Some(p.xs[1])
      else if p.f.StrFold? && IsStrAnd(p.xs[0]) then Some(And(p.f, Splice(p.xs, 0)))
      else if p.f.StrFold? && IsStrAnd(p.xs[n - 1]) then Some(And(p.f, Splice(p.xs, n - 1)))
      else None
    else None
  }

  /** The two rules that drop a useless first element. */
  predicate DropsFirst(p: Parser) {
    p.And? && |p.xs| == 2 && ((p.f.FoldTree? && p.xs[0].Pass?) || (p.f.StrFold? && p.xs[0] == Lift(CtorStr)))
  }

  /** The element a merge rule splices in. */
  predicate MergesAt(p: Parser, i: nat) {
    && Lists(p) && i < |p.xs|
    && ((p.Or? && p.xs[i].Or?) || (IsTreeAnd(p) && IsTreeAnd(p.xs[i])) || (IsStrAnd(p) && IsStrAnd(p.xs[i])))
  }

  function WithList(p: Parser, xs: seq<Parser>): Parser
    requires Lists(p)
  {
    if p.Or? then Or(xs) else And(p.f, xs)
  }

  /** A rule either drops the first of two elements or splices in one end of the list. */
  lemma RuleCases(p: Parser) returns (i: nat)
    requires Rule(p).Some?
    ensures Lists(p) && i < |p.xs|
    ensures DropsFirst(p) ==> Rule(p).value == p.xs[1]
    ensures !DropsFirst(p) ==>
        (i == 0 || i == |p.xs| - 1) && MergesAt(p, i) && Rule(p).value == WithList(p, Splice(p.xs, i))
  {
    var n := |p.xs|;
    i := if DropsFirst(p) then 0
         else if p.Or? then (if p.xs[n - 1].Or? then n - 1 else 0)
         else if MergesAt(p, 0) then 0 else n - 1;
  }

  // ----- termination -----

  function Size(p: Parser): nat {
    if Wraps(p) then 1 + Size(p.x) else if Lists(p) then 1 + SizeAll(p.xs) else 1
  }

  function SizeAll(xs: seq<Parser>): nat {
    if xs == [] then 0 else Size(xs[0]) + SizeAll(xs[1..])
  }

  lemma {:induction false} SizeAppend(a: seq<Parser>, b: seq<Parser>)
    ensures SizeAll(a + b) == SizeAll(a) + SizeAll(b)
  {
    if a == [] {
      assert a + b == b;
    } else {
      assert (a + b)[1..] == a[1..] + b;
      SizeAppend(a[1..], b);
    }
  }

  lemma SpliceShrinks(xs: seq<Parser>, i: nat)
    requires i < |xs| && Lists(xs[i])
    ensures SizeAll(Splice(xs, i)) == SizeAll(xs) - 1
  {
    SizeAppend(xs[..i], xs[i..]);
    assert xs == xs[..i] + xs[i..];
    SizeAppend(xs[..i] + xs[i].xs, xs[i + 1..]);
    SizeAppend(xs[..i], xs[i].xs);
  }

  /** Every rule makes the tree smaller, so the rewriting loop ends. */
  lemma RuleShrinks(p: Parser)
    requires Rule(p).Some?
    ensures Size(Rule(p).value) < Size(p)
  {
    var i := RuleCases(p);
    if DropsFirst(p) {
      assert SizeAll(p.xs) == Size(p.xs[0]) + (Size(p.xs[1]) + SizeAll(p.xs[1..][1..]));
    } else {
      SpliceShrinks(p.xs, i);
    }
  }

  /** The rewriting loop at the root. */
  function Rewrite(p: Parser): Parser
    decreases Size(p)
  {
    match Rule(p)
    case None => p
    case Some(q) => RuleShrinks(p); Rewrite(q)
  }

  /** Optimises the children, then the root. */
  function Optimise(p: Parser): Parser
    decreases p, 1
  {
    Rewrite(Rebuild(p))
  }

  function Rebuild(p: Parser): Parser
    decreases p, 0
  {
    if Wraps(p) then p.(x := Optimise(p.x)) else if Lists(p) then WithList(p, OptimiseAll(p.xs)) else p
  }

  function OptimiseAll(xs: seq<Parser>): (ys: seq<Parser>)
    ensures |ys| == |xs|
    ensures forall i :: 0 <= i < |xs| ==> ys[i] == Optimise(xs[i])
    decreases xs, 0
  {
    if xs == [] then [] else [Optimise(xs[0])] + OptimiseAll(xs[1..])
  }

  lemma AllOfTwo(x: Parser, y: Parser)
    ensures OptimiseAll([x, y]) == [Optimise(x), Optimise(y)]
  {
    hide Optimise, OptimiseAll;
    var ys := OptimiseAll([x, y]);
    assert ys[0] == Optimise([x, y][0]) && ys[1] == Optimise([x, y][1]);
    TwoAre(ys, Optimise(x), Optimise(y));
  }

  lemma TwoAre<T>(ys: seq<T>, a: T, b: T)
    requires |ys| == 2 && ys[0] == a && ys[1] == b
    ensures ys == [a, b]
  {}

  lemma OptimiseUnfolds(p: Parser)
    ensures Optimise(p) == Rewrite(Rebuild(p))
  {}

  // ----- nothing is left to do -----

  /** No rule applies to any node that is not behind a name. */
  ghost predicate Normal(p: Parser)
    decreases p, 1
  {
    Rule(p).None? && ChildrenNormal(p)
  }

  ghost predicate ChildrenNormal(p: Parser)
    decreases p, 0
  {
    && (Wraps(p) ==> Normal(p.x))
    && (Lists(p) ==> forall i | 0 <= i < |p.xs| :: Normal(p.xs[i]))
  }

  lemma RuleKeepsChildrenNormal(p: Parser)
    requires ChildrenNormal(p) && Rule(p).Some?
    ensures ChildrenNormal(Rule(p).value)
  {
    var i := RuleCases(p);
    if !DropsFirst(p) {
      assert ChildrenNormal(p.xs[i]);
      SpliceNormal(p.xs, i);
      hide Normal, Splice, Rule;
    }
  }

  lemma SpliceNormal(xs: seq<Parser>, i: nat)
    requires i < |xs| && Lists(xs[i]) && ChildrenNormal(xs[i]) && forall j | 0 <= j < |xs| :: Normal(xs[j])
    ensures forall k | 0 <= k < |Splice(xs, i)| :: Normal(Splice(xs, i)[k])
  {
    var ys := Splice(xs, i);
    forall k | 0 <= k < |ys| ensures Normal(ys[k]) { SpliceElement(xs, i, k); }
  }

  /** The elements of a spliced list come from the list or from the element spliced in. */
  lemma SpliceElement(xs: seq<Parser>, i: nat, k: nat)
    requires i < |xs| && Lists(xs[i]) && k < |Splice(xs, i)|
    ensures Splice(xs, i)[k] ==
        if k < i then xs[k] else if k < i + |xs[i].xs| then xs[i].xs[k - i] else xs[k - |xs[i].xs| + 1]
  {}

  lemma {:induction false} RewriteIsNormal(p: Parser)
    requires ChildrenNormal(p)
    ensures Normal(Rewrite(p))
    decreases Size(p)
  {
    if Rule(p).Some? {
      RuleKeepsChildrenNormal(p);
      RuleShrinks(p);
      RewriteIsNormal(Rule(p).value);
    }
  }

  /** The optimiser leaves no node behind on which a rule still applies. */
  lemma {:induction false} OptimiseIsNormal(p: Parser)
    ensures Normal(Optimise(p)) && ChildrenNormal(Rebuild(p))
    decreases p
  {
    if Wraps(p) {
      OptimiseIsNormal(p.x);
    } else if Lists(p) {
      forall i | 0 <= i < |p.xs| ensures Normal(Optimise(p.xs[i])) { OptimiseIsNormal(p.xs[i]); }
    }
    RewriteIsNormal(Rebuild(p));
  }

  /** No alternatives stand at an end of alternatives, no sequence at an end of one with its fold, and no
      pass or empty lift before a single other element; so it is all the way down. */
  predicate Flat(p: Parser)
    decreases p
  {
    && (Lists(p) && p.xs != [] ==>
          var first, last := p.xs[0], p.xs[|p.xs| - 1];
          && (p.Or? ==> !first.Or? && !last.Or?)
          && (p.And? && p.f.FoldTree? ==>
                && !(first.And? && first.f.FoldTree?) && !(last.And? && last.f.FoldTree?)
                && !(|p.xs| == 2 && first == Pass))
          && (p.And? && p.f.StrFold? ==>
                && !(first.And? && first.f.StrFold?) && !(last.And? && last.f.StrFold?)
                && !(|p.xs| == 2 && first == Lift(CtorStr))))
    && (Wraps(p) ==> Flat(p.x))
    && (Lists(p) ==> forall i | 0 <= i < |p.xs| :: Flat(p.xs[i]))
  }

  /** So nothing is left to do just for flat parsers. */
  lemma {:induction false} NormalIsFlat(p: Parser)
    ensures Normal(p) <==> Flat(p)
    decreases p
  {
    if Wraps(p) {
      NormalIsFlat(p.x);
    } else if Lists(p) {
      forall i | 0 <= i < |p.xs| ensures Normal(p.xs[i]) <==> Flat(p.xs[i]) { NormalIsFlat(p.xs[i]); }
    }
  }

  /** What the optimiser leaves is flat. */
  lemma OptimiseIsFlat(p: Parser)
    ensures Flat(Optimise(p))
  {
    OptimiseIsNormal(p);
    NormalIsFlat(Optimise(p));
  }

  lemma {:induction false} NormalIsFixed(p: Parser)
    requires Normal(p)
    ensures Optimise(p) == p
    decreases p
  {
    if Wraps(p) {
      NormalIsFixed(p.x);
    } else if Lists(p) {
      forall i | 0 <= i < |p.xs| ensures Optimise(p.xs[i]) == p.xs[i] { NormalIsFixed(p.xs[i]); }
      assert OptimiseAll(p.xs) == p.xs;
    }
  }

  /** Optimising a second time changes nothing. */
  lemma OptimiseTwice(p: Parser)
    ensures Optimise(Optimise(p)) == Optimise(p)
  {
    OptimiseIsNormal(p);
    NormalIsFixed(Optimise(p));
  }

  // ----- the statistics -----

  /** Counts the nodes that are not behind a name; sequences and alternatives weigh nothing. */
  function NodeCount(p: Parser): nat {
    if Wraps(p) then 1 + NodeCount(p.x) else if Lists(p) then NodeCountAll(p.xs) else if p.Ref? then 0 else 1
  }

  function NodeCountAll(xs: seq<Parser>): nat {
    if xs == [] then 0 else NodeCount(xs[0]) + NodeCountAll(xs[1..])
  }

  lemma {:induction false} NodeCountAppend(a: seq<Parser>, b: seq<Parser>)
    ensures NodeCountAll(a + b) == NodeCountAll(a) + NodeCountAll(b)
  {
    if a == [] {
      assert a + b == b;
    } else {
      assert (a + b)[1..] == a[1..] + b;
      NodeCountAppend(a[1..], b);
    }
  }

  lemma SpliceCounts(xs: seq<Parser>, i: nat)
    requires i < |xs| && Lists(xs[i])
    ensures NodeCountAll(Splice(xs, i)) == NodeCountAll(xs)
  {
    NodeCountAppend(xs[..i], xs[i..]);
    assert xs == xs[..i] + xs[i..];
    NodeCountAppend(xs[..i] + xs[i].xs, xs[i + 1..]);
    NodeCountAppend(xs[..i], xs[i].xs);
  }

  /** Merges keep the node count; dropping a pass or a lift lowers it by exactly one. */
  lemma RuleCounts(p: Parser)
    requires Rule(p).Some?
    ensures NodeCount(Rule(p).value) == if DropsFirst(p) then NodeCount(p) - 1 else NodeCount(p)
  {
    var i := RuleCases(p);
    if DropsFirst(p) {
      assert NodeCountAll(p.xs) == NodeCount(p.xs[0]) + (NodeCount(p.xs[1]) + NodeCountAll(p.xs[1..][1..]));
    } else {
      SpliceCounts(p.xs, i);
    }
  }
}
