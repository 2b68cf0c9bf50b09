/** The single rules of the optimiser: what each one does to the runs of a parser. */
module MpcRules {
  import opened Options
  import opened MpcAst
  import opened MpcParser
  import opened MpcBacktrack
  import opened MpcOptimise

  /** b may replace a: undefined behaviour allows anything, all else must be the same. */
  predicate Refines(a: Outcome, b: Outcome) {
    a.Wild? || a == b
  }

  // ----- which parsers never yield NULL -----

  ghost predicate KeepsNonNull(f: Val -> Option<Val>) {
    forall v: Val :: v != Null ==> f(v) != Some(Null)
  }

  /** p never succeeds with NULL, provided the names in nn never do. */
  ghost predicate NonNull(nn: set<nat>, p: Parser)
    decreases p
  {
    match p
    case Pass => false
    case Lift(lf) => lf.Make() != Null
    case LiftVal(v) => v != Null
    case Expect(x) => NonNull(nn, x)
    case Anchor(_) => false
    case Apply(x, f) => NonNull(nn, x) && KeepsNonNull(f)
    case ApplyTo(x, f, d) => NonNull(nn, x) && KeepsNonNull(v => f(v, d))
    case Predict(x) => NonNull(nn, x)
    case Not(_, lf) => lf.Make() != Null
    case Maybe(x, lf) => NonNull(nn, x) && lf.Make() != Null
    case Many(f, _) => f.StrFold?
    case Many1(f, x) => f.StrFold? || (f.FoldTree? && NonNull(nn, x))
    case Count(n, f, x) => f.StrFold? || (f.FoldTree? && n >= 1 && NonNull(nn, x))
    case Or(xs) => xs != [] && forall i | 0 <= i < |xs| :: NonNull(nn, xs[i])
    case And(f, xs) =>
      && xs != []
      && match f {
           case StrFold => forall i | 0 <= i < |xs| :: NonNull(nn, xs[i])
           case FoldTree => |xs| >= 3 || exists i | 0 <= i < |xs| :: NonNull(nn, xs[i])
           case Nth(k) => k < |xs| && NonNull(nn, xs[k])
           case StateTree => |xs| >= 2 && NonNull(nn, xs[1])
           case _ => false
         }
    case Ref(id) => id in nn
    case _ => true
  }

  ghost predicate NonNullGrammar(nn: set<nat>, g: Grammar) {
    forall id | id in nn && id < |g| :: NonNull(nn, g[id])
  }

  /** How many elements of a list are sure to yield something. */
  ghost function SureCount(nn: set<nat>, xs: seq<Parser>): nat {
    if xs == [] then 0 else (if NonNull(nn, xs[0]) then 1 else 0) + SureCount(nn, xs[1..])
  }

  // ----- running a sequence, collected -----

  datatype Gathered = All(vs: seq<Val>, to: Cursor) | Stopped(o: Outcome)

  /** The results of the elements of a sequence, or the outcome of the first that is not Ok. */
  function Gather(g: Grammar, input: string, xs: seq<Parser>, c: Cursor, backtrack: int, fuel: nat): (s: Gathered)
    ensures s.Stopped? ==> !s.o.Ok?
  {
    if xs == [] then All([], c)
    else
      match Run(g, input, xs[0], c, backtrack, fuel)
      case Ok(v, to) =>
        (match Gather(g, input, xs[1..], to, backtrack, fuel)
         case All(vs, end) => All([v] + vs, end)
         case s => s)
      case o => Stopped(o)
  }

  function Finish(f: Fold, from: Cursor, backtrack: int, vs: seq<Val>, s: Gathered): Outcome {
    match s
    case All(ws, to) => Folded(f, vs + ws, to)
    case Stopped(Bad(to)) => Bad(Rewound(from, to, backtrack))
    case Stopped(o) => o
  }

  lemma {:induction false} AndGathers(g: Grammar, input: string, f: Fold, xs: seq<Parser>, from: Cursor, c: Cursor,
      backtrack: int, vs: seq<Val>, fuel: nat)
    ensures RunAnd(g, input, f, xs, from, c, backtrack, vs, fuel)
         == Finish(f, from, backtrack, vs, Gather(g, input, xs, c, backtrack, fuel))
    decreases xs
  {
    hide Run, Folded;
    if xs == [] {
      assert vs + [] == vs;
    } else {
      var o := Run(g, input, xs[0], c, backtrack, fuel);
      if o.Ok? {
        AndGathers(g, input, f, xs[1..], from, o.to, backtrack, vs + [o.v], fuel);
        var s := Gather(g, input, xs[1..], o.to, backtrack, fuel);
        if s.All? { assert vs + [o.v] + s.vs == vs + ([o.v] + s.vs); }
      }
    }
  }

  function Then(s: Gathered, g: Grammar, input: string, xs: seq<Parser>, backtrack: int, fuel: nat): Gathered {
    match s
    case All(vs, to) =>
      (match Gather(g, input, xs, to, backtrack, fuel)
       case All(ws, end) => All(vs + ws, end)
       case t => t)
    case _ => s
  }

  lemma {:induction false} GatherAppend(g: Grammar, input: string, xs: seq<Parser>, ys: seq<Parser>, c: Cursor,
      backtrack: int, fuel: nat)
    ensures Gather(g, input, xs + ys, c, backtrack, fuel)
         == Then(Gather(g, input, xs, c, backtrack, fuel), g, input, ys, backtrack, fuel)
    decreases xs
  {
    hide Run;
    if xs == [] {
      assert xs + ys == ys;
      var s := Gather(g, input, ys, c, backtrack, fuel);
      if s.All? { assert [] + s.vs == s.vs; }
    } else {
      assert (xs + ys)[0] == xs[0] && (xs + ys)[1..] == xs[1..] + ys;
      var o := Run(g, input, xs[0], c, backtrack, fuel);
      if o.Ok? {
        GatherAppend(g, input, xs[1..], ys, o.to, backtrack, fuel);
        var s := Gather(g, input, xs[1..], o.to, backtrack, fuel);
        if s.All? {
          var t := Gather(g, input, ys, s.to, backtrack, fuel);
          if t.All? { assert [o.v] + (s.vs + t.vs) == [o.v] + s.vs + t.vs; }
        }
      }
    }
  }

  lemma {:induction false} GatherLength(g: Grammar, input: string, xs: seq<Parser>, c: Cursor, backtrack: int,
      fuel: nat)
    ensures var s := Gather(g, input, xs, c, backtrack, fuel); s.All? ==> |s.vs| == |xs|
    decreases xs
  {
    hide Run;
    if xs != [] {
      var o := Run(g, input, xs[0], c, backtrack, fuel);
      if o.Ok? { GatherLength(g, input, xs[1..], o.to, backtrack, fuel); }
    }
  }

  // ----- folding a group and folding its elements in place -----

  function NonNulls(vs: seq<Val>): nat {
    if vs == [] then 0 else (if vs[0].Null? then 0 else 1) + NonNulls(vs[1..])
  }

  function AsVal(part: Part): Val {
    if part.Absent? then Null else Tree(part.tree)
  }

  lemma FoldTreeOnParts(vs: seq<Val>)
    requires AllTreeOrNull(vs)
    ensures FoldTreeVals(vs) == Some(AsVal(FoldAst(AsParts(vs))))
  {}

  lemma {:induction false} PresentsAreNonNulls(vs: seq<Val>)
    requires AllTreeOrNull(vs)
    ensures Presents(AsParts(vs)) == NonNulls(vs)
  {
    if vs != [] {
      assert AsParts(vs)[1..] == AsParts(vs[1..]);
      PresentsAreNonNulls(vs[1..]);
    }
  }

  lemma {:induction false} ConcatAppend(a: seq<Val>, b: seq<Val>)
    requires AllStr(a) && AllStr(b)
    ensures AllStr(a + b) && Concat(a + b) == Concat(a) + Concat(b)
  {
    if a == [] {
      assert a + b == b;
    } else {
      assert (a + b)[1..] == a[1..] + b;
      ConcatAppend(a[1..], b);
    }
  }

  lemma ConcatNext(vs: seq<Val>, v: Val)
    requires AllStr(vs) && v.Str?
    ensures AllStr(vs + [v]) && Concat(vs + [v]) == Concat(vs) + v.s
  {
    ConcatAppend(vs, [v]);
    assert [v][1..] == [];
    assert Concat([v]) == v.s + Concat([v][1..]);
  }

  lemma StrRegroups(pre: seq<Val>, group: seq<Val>, post: seq<Val>)
    requires AllStr(group) && AllStr(pre + [Str(Concat(group))] + post)
    ensures AllStr(pre + group + post) && Concat(pre + [Str(Concat(group))] + post) == Concat(pre + group + post)
  {
    var v := Str(Concat(group));
    var nested := pre + [v] + post;
    assert forall i | 0 <= i < |pre| :: pre[i] == nested[i];
    assert forall i | 0 <= i < |post| :: post[i] == nested[|pre| + 1 + i];
    ConcatAppend(pre, group);
    ConcatAppend(pre + group, post);
    ConcatAppend(pre, [v]);
    ConcatAppend(pre + [v], post);
    assert Concat([v]) == v.s + Concat([]);
  }

  lemma PairOfNonNulls(a: Val, b: Val)
    ensures NonNulls([a, b]) == 2 <==> !a.Null? && !b.Null?
  {
    assert [a, b][1..] == [b];
    assert NonNulls([b]) == (if b.Null? then 0 else 1) + NonNulls([b][1..]);
  }

  lemma TreeRegroups(pre: seq<Val>, group: seq<Val>, post: seq<Val>, v: Val)
    requires group != [] && FoldTreeVals(group) == Some(v)
    requires Enough(|group|, NonNulls(group))
    ensures FoldTreeVals(pre + [v] + post) == None || FoldTreeVals(pre + [v] + post) == FoldTreeVals(pre + group + post)
  {
    if |group| == 1 {
      assert group == [v];
    } else {
      LongFold(group, v);
      hide FoldTreeVals, TreeOrNull;
      if AllTreeOrNull(pre) && AllTreeOrNull(post) {
        TreesRegroup(pre, group, post, v);
      } else {
        StrangerSpoilsFold(pre, v, post);
      }
    }
  }

  lemma {:induction false} NonNullsBound(vs: seq<Val>)
    ensures NonNulls(vs) <= |vs|
  {
    if vs != [] { NonNullsBound(vs[1..]); }
  }

  /** With enough values that are not NULL the fold does build a root. */
  lemma LongFold(vs: seq<Val>, v: Val)
    requires FoldTreeVals(vs) == Some(v) && |vs| > 1 && Enough(|vs|, NonNulls(vs))
    ensures AllTreeOrNull(vs) && v.Tree? && TreeOrNull(v)
  {
    NonNullsBound(vs);
    if |vs| == 2 {
      assert vs == [vs[0], vs[1]];
      PairOfNonNulls(vs[0], vs[1]);
    }
  }

  lemma TreesRegroup(pre: seq<Val>, group: seq<Val>, post: seq<Val>, v: Val)
    requires FoldTreeVals(group) == Some(v) && group != [] && Enough(|group|, NonNulls(group))
    requires AllTreeOrNull(group) && AllTreeOrNull(pre) && AllTreeOrNull(post) && TreeOrNull(v) && v.Tree?
    ensures FoldTreeVals(pre + [v] + post) == FoldTreeVals(pre + group + post)
  {
    hide FoldTreeVals, TreeOrNull, AsParts, AsPart, Enough;
    FoldTreeOnParts(group);
    SplitParts(pre, [v], post);
    SplitParts(pre, group, post);
    FoldTreeOnParts(pre + [v] + post);
    FoldTreeOnParts(pre + group + post);
    PresentsAreNonNulls(group);
    OnePart(v, FoldAst(AsParts(group)));
    hide FoldAst, Presents, NonNulls, AsVal;
    RegroupWithEnough(AsParts(pre), AsParts(group), AsParts(post));
  }

  lemma SplitParts(a: seq<Val>, b: seq<Val>, c: seq<Val>)
    requires AllTreeOrNull(a) && AllTreeOrNull(b) && AllTreeOrNull(c)
    ensures AllTreeOrNull(a + b + c) && AsParts(a + b + c) == AsParts(a) + AsParts(b) + AsParts(c)
    ensures |AsParts(b)| == |b|
  {
    hide TreeOrNull;
  }

  lemma OnePart(v: Val, part: Part)
    requires v == AsVal(part)
    ensures AsParts([v]) == [part]
  {}

  /** A value that is neither a tree nor NULL beside a tree leaves the fold without meaning. */
  lemma StrangerSpoilsFold(pre: seq<Val>, v: Val, post: seq<Val>)
    requires v.Tree? && !(AllTreeOrNull(pre) && AllTreeOrNull(post))
    ensures FoldTreeVals(pre + [v] + post) == None
  {
    var vs := pre + [v] + post;
    var i: nat;
    if AllTreeOrNull(pre) {
      var j :| 0 <= j < |post| && !TreeOrNull(post[j]);
      i := |pre| + 1 + j;
    } else {
      i :| 0 <= i < |pre| && !TreeOrNull(pre[i]);
    }
    assert !TreeOrNull(vs[i]) && vs[|pre|] == v;
  }

  lemma FoldRegroups(f: Fold, pre: seq<Val>, group: seq<Val>, post: seq<Val>, v: Val, to: Cursor)
    requires group != [] && ApplyFold(f, group) == Some(v)
    requires f.StrFold? || (f.FoldTree? && Enough(|group|, NonNulls(group)))
    ensures Refines(Folded(f, pre + [v] + post, to), Folded(f, pre + group + post, to))
  {
    if f.StrFold? {
      if AllStr(pre + [v] + post) { StrRegroups(pre, group, post); }
    } else {
      TreeRegroups(pre, group, post, v);
    }
  }

  // ----- merging alternatives -----

  lemma {:induction false} OrAppend(g: Grammar, input: string, xs: seq<Parser>, ys: seq<Parser>, c: Cursor,
      backtrack: int, fuel: nat)
    ensures var o := RunOr(g, input, xs, c, backtrack, fuel);
            RunOr(g, input, xs + ys, c, backtrack, fuel) ==
                if o.Bad? then RunOr(g, input, ys, o.to, backtrack, fuel) else o
    decreases xs
  {
    hide Run;
    if xs == [] {
      assert xs + ys == ys;
    } else {
      assert (xs + ys)[0] == xs[0] && (xs + ys)[1..] == xs[1..] + ys;
      var o := Run(g, input, xs[0], c, backtrack, fuel);
      if o.Bad? { OrAppend(g, input, xs[1..], ys, o.to, backtrack, fuel); }
    }
  }

  /** Splicing in non-empty alternatives changes no outcome. */
  lemma OrMergeKeeps(g: Grammar, input: string, xs: seq<Parser>, i: nat, c: Cursor, backtrack: int, fuel: nat)
    requires i < |xs| && xs[i].Or? && xs[i].xs != []
    ensures Run(g, input, Or(Splice(xs, i)), c, backtrack, fuel) == Run(g, input, Or(xs), c, backtrack, fuel)
  {
    var pre, ys, post := xs[..i], xs[i].xs, xs[i + 1..];
    assert xs == pre + ([xs[i]] + post);
    OrAppend(g, input, pre, [xs[i]] + post, c, backtrack, fuel);
    assert Splice(xs, i) == pre + (ys + post);
    OrAppend(g, input, pre, ys + post, c, backtrack, fuel);
    var o := RunOr(g, input, pre, c, backtrack, fuel);
    if o.Bad? {
      OrAppend(g, input, ys, post, o.to, backtrack, fuel);
      assert ([xs[i]] + post)[1..] == post;
    }
  }

  /** An empty alternative succeeds, so splicing one in loses a success. */
  lemma EmptyOrIsNotMergeable(c: Cursor, backtrack: int)
    ensures Run([], "", Or([Fail, Or([])]), c, backtrack, 0) == Ok(Null, c)
    ensures Run([], "", Or(Splice([Fail, Or([])], 1)), c, backtrack, 0) == Bad(c)
  {}

  /** What the left merge leaves in the slots of its array, if the pointer it writes behind them
      did no harm: the tail comes from the inner list, and beyond stands for whatever lies in
      memory behind that one. */
  function CodedLeftMerge(xs: seq<Parser>, beyond: seq<Parser>): seq<Parser>
    requires xs != [] && xs[0].Or? && xs[0].xs != [] && |xs| <= |xs[0].xs| + |beyond|
  {
    xs[0].xs + (xs[0].xs[1..] + beyond)[..|xs| - 1]
  }

  /** The merged parser means the inner alternatives and then whatever lay behind them, if there
      were fewer of them than of the outer ones: all alternatives after the first are lost. */
  lemma CodedLeftMergeMeans(rn: set<nat>, g: Grammar, input: string, xs: seq<Parser>, beyond: seq<Parser>, c: Cursor,
      fuel: nat, backtrack: int)
    requires xs != [] && xs[0].Or? && xs[0].xs != [] && |xs| <= |xs[0].xs| + |beyond|
    requires backtrack >= 1 && RestoringGrammar(rn, g) && Restoring(rn, xs[0])
    ensures var k := if |xs| <= |xs[0].xs| then 0 else |xs| - |xs[0].xs|;
      Run(g, input, Or(CodedLeftMerge(xs, beyond)), c, backtrack, fuel) ==
          Run(g, input, Or(xs[0].xs + beyond[..k]), c, backtrack, fuel)
  {
    var ys, n, m := xs[0].xs, |xs|, |xs[0].xs|;
    var k, j := if n <= m then 0 else n - m, if n <= m then n else m;
    var copy, rest := ys[1..j], beyond[..k];
    assert CodedLeftMerge(xs, beyond) == ys + (copy + rest) by { CopySplits(ys, beyond, n); }
    assert forall i | 0 <= i < |ys| :: Restoring(rn, ys[i]);
    hide Run, Restoring, CodedLeftMerge;
    AgainFails(rn, g, input, ys, j, c, backtrack, fuel);
    OrAppend(g, input, ys, copy + rest, c, backtrack, fuel);
    OrAppend(g, input, ys, rest, c, backtrack, fuel);
    OrAppend(g, input, copy, rest, c, backtrack, fuel);
    RunOfOr(g, input, ys + (copy + rest), c, backtrack, fuel);
    RunOfOr(g, input, ys + rest, c, backtrack, fuel);
  }

  lemma CopySplits<T>(ys: seq<T>, beyond: seq<T>, n: nat)
    requires ys != [] && 1 <= n <= |ys| + |beyond|
    ensures var m := |ys|;
      (ys[1..] + beyond)[..n - 1] == ys[1..if n <= m then n else m] + beyond[..if n <= m then 0 else n - m]
  {}

  lemma RunOfOr(g: Grammar, input: string, xs: seq<Parser>, c: Cursor, backtrack: int, fuel: nat)
    requires xs != []
    ensures Run(g, input, Or(xs), c, backtrack, fuel) == RunOr(g, input, xs, c, backtrack, fuel)
  {}

  lemma RunOfAnd(g: Grammar, input: string, f: Fold, xs: seq<Parser>, c: Cursor, backtrack: int, fuel: nat)
    requires xs != []
    ensures Run(g, input, And(f, xs), c, backtrack, fuel) == RunAnd(g, input, f, xs, c, c, backtrack, [], fuel)
  {}

  /** Alternatives that have all failed fail again where they began. */
  lemma AgainFails(rn: set<nat>, g: Grammar, input: string, ys: seq<Parser>, j: nat, c: Cursor, backtrack: int,
      fuel: nat)
    requires 1 <= j <= |ys| && backtrack >= 1 && RestoringGrammar(rn, g)
        && forall i | 0 <= i < |ys| :: Restoring(rn, ys[i])
    ensures RunOr(g, input, ys, c, backtrack, fuel).Bad? ==>
      RunOr(g, input, ys, c, backtrack, fuel) == Bad(c) && RunOr(g, input, ys[1..j], c, backtrack, fuel) == Bad(c)
  {
    hide Run, Restoring;
    var copy := ys[1..j];
    assert ys == ys[..1] + copy + ys[j..];
    OrAppend(g, input, ys[..1] + copy, ys[j..], c, backtrack, fuel);
    OrAppend(g, input, ys[..1], copy, c, backtrack, fuel);
    OrRestores(rn, g, input, ys, c, backtrack, fuel);
    OrRestores(rn, g, input, ys[..1], c, backtrack, fuel);
    OrRestores(rn, g, input, copy, c, backtrack, fuel);
  }

  /** The expression (a|b|d)|c after the merge as performed: c is refused. */
  lemma CodedLeftMergeLosesAlternative()
    ensures var inner := Or([Single('a'), Single('b'), Single('d')]);
            var xs := [inner, Single('c')];
            && Run([], "c", Or(xs), BEGIN, 1, 0).Ok?
            && Run([], "c", Or(CodedLeftMerge(xs, [])), BEGIN, 1, 0).Bad?
  {
    var ys := [Single('a'), Single('b'), Single('d')];
    var xs := [Or(ys), Single('c')];
    assert Restoring({}, xs[0]);
    SinglesAtC();
    RunOfOr([], "c", ys, BEGIN, 1, 0);
    RunOfOr([], "c", xs, BEGIN, 1, 0);
    CodedLeftMergeMeans({}, [], "c", xs, [], BEGIN, 0, 1);
    assert ys + [] == ys;
    hide Run, CodedLeftMerge;
    AllRefuse("c", ys);
    assert xs[1..] == [Single('c')];
    assert RunOr([], "c", xs, BEGIN, 1, 0) == RunOr([], "c", xs[1..], BEGIN, 1, 0);
  }

  lemma SinglesAtC()
    ensures forall ch: char ::
        Run([], "c", Single(ch), BEGIN, 1, 0) ==
        if ch == 'c' then Ok(Str("c"), MpcParser.Step(BEGIN, ch)) else Bad(BEGIN)
  {}

  lemma {:induction false} AllRefuse(input: string, xs: seq<Parser>)
    requires forall i | 0 <= i < |xs| :: Run([], input, xs[i], BEGIN, 1, 0) == Bad(BEGIN)
    ensures RunOr([], input, xs, BEGIN, 1, 0) == Bad(BEGIN)
  {
    hide Run;
    if xs != [] { AllRefuse(input, xs[1..]); }
  }

  // ----- merging sequences -----

  lemma {:induction false} GatherNonNull(nn: set<nat>, g: Grammar, input: string, xs: seq<Parser>, c: Cursor,
      backtrack: int, fuel: nat)
    requires forall x: Parser, d: Cursor :: x in xs && NonNull(nn, x) && Run(g, input, x, d, backtrack, fuel).Ok?
               ==> Run(g, input, x, d, backtrack, fuel).v != Null
    ensures var s := Gather(g, input, xs, c, backtrack, fuel);
            s.All? ==> && |s.vs| == |xs|
                       && (forall i :: 0 <= i < |xs| && NonNull(nn, xs[i]) ==> s.vs[i] != Null)
                       && NonNulls(s.vs) >= SureCount(nn, xs)
    decreases xs
  {
    hide Run, NonNull;
    if xs != [] {
      var o := Run(g, input, xs[0], c, backtrack, fuel);
      if o.Ok? {
        GatherNonNull(nn, g, input, xs[1..], o.to, backtrack, fuel);
        var s := Gather(g, input, xs, c, backtrack, fuel);
        if s.All? { assert s.vs[1..] == Gather(g, input, xs[1..], o.to, backtrack, fuel).vs; }
      }
    }
  }

  /** Splicing in a sequence with the same fold. */
  lemma AndMergeKeeps(g: Grammar, input: string, f: Fold, xs: seq<Parser>, i: nat, c: Cursor, backtrack: int, fuel: nat)
    requires i < |xs| && xs[i].And? && xs[i].f == f && xs[i].xs != []
    requires f.StrFold? || (f.FoldTree? && forall d: Cursor ::
               var s := Gather(g, input, xs[i].xs, d, backtrack, fuel); s.All? ==> Enough(|s.vs|, NonNulls(s.vs)))
    ensures Refines(Run(g, input, And(f, xs), c, backtrack, fuel),
        Run(g, input, And(f, Splice(xs, i)), c, backtrack, fuel))
  {
    var pre, ys, post := xs[..i], xs[i].xs, xs[i + 1..];
    assert xs == pre + ([xs[i]] + post);
    assert Splice(xs, i) == pre + (ys + post);
    AndGathers(g, input, f, xs, c, c, backtrack, [], fuel);
    AndGathers(g, input, f, Splice(xs, i), c, c, backtrack, [], fuel);
    GatherAppend(g, input, pre, [xs[i]] + post, c, backtrack, fuel);
    GatherAppend(g, input, pre, ys + post, c, backtrack, fuel);
    var s := Gather(g, input, pre, c, backtrack, fuel);
    if s.All? {
      AndGathers(g, input, f, ys, s.to, s.to, backtrack, [], fuel);
      GatherAppend(g, input, ys, post, s.to, backtrack, fuel);
      GatherLength(g, input, ys, s.to, backtrack, fuel);
      MergedTail(g, input, f, xs[i], post, c, s, backtrack, fuel);
    }
  }

  lemma MergedTail(g: Grammar, input: string, f: Fold, x: Parser, post: seq<Parser>, from: Cursor, s: Gathered,
      backtrack: int, fuel: nat)
    requires s.All? && x.And? && x.f == f && x.xs != []
    requires var t := Gather(g, input, x.xs, s.to, backtrack, fuel);
             && Run(g, input, x, s.to, backtrack, fuel) == Finish(f, s.to, backtrack, [], t)
             && (t.All? ==> |t.vs| == |x.xs|)
             && (f.StrFold? || (f.FoldTree? && (t.All? ==> Enough(|t.vs|, NonNulls(t.vs)))))
             && Gather(g, input, x.xs + post, s.to, backtrack, fuel) == Then(t, g, input, post, backtrack, fuel)
    ensures Refines(Finish(f, from, backtrack, [], Then(s, g, input, [x] + post, backtrack, fuel)),
                    Finish(f, from, backtrack, [], Then(s, g, input, x.xs + post, backtrack, fuel)))
  {
    hide Run, ApplyFold;
    var t := Gather(g, input, x.xs, s.to, backtrack, fuel);
    assert ([x] + post)[0] == x && ([x] + post)[1..] == post;
    if t.All? {
      assert [] + t.vs == t.vs;
      match ApplyFold(f, t.vs)
      case None =>
      case Some(v) =>
        var u := Gather(g, input, post, t.to, backtrack, fuel);
        if u.All? {
          FoldRegroups(f, s.vs, t.vs, u.vs, v, u.to);
          assert s.vs + ([v] + u.vs) == s.vs + [v] + u.vs && s.vs + (t.vs + u.vs) == s.vs + t.vs + u.vs;
          assert [] + (s.vs + ([v] + u.vs)) == s.vs + [v] + u.vs && [] + (s.vs + (t.vs + u.vs)) == s.vs + t.vs + u.vs;
        }
    }
  }

  lemma SameSplit(a: seq<Val>, b: seq<Val>, c: seq<Val>, d: seq<Val>)
    requires a + b == c + d && |a| == |c|
    ensures a == c && b == d
  {
    assert a == (a + b)[..|a|] && b == (a + b)[|a|..];
  }

  lemma TreeSequence(g: Grammar, input: string, xs: seq<Parser>, c: Cursor, backtrack: int, fuel: nat, vs: seq<Val>,
      to: Cursor)
    requires xs != [] && Gather(g, input, xs, c, backtrack, fuel) == All(vs, to) && AllTreeOrNull(vs)
    ensures Run(g, input, And(FoldTree, xs), c, backtrack, fuel) == Ok(AsVal(FoldAst(AsParts(vs))), to)
    ensures TreeOrNull(AsVal(FoldAst(AsParts(vs))))
  {
    RunOfAnd(g, input, FoldTree, xs, c, backtrack, fuel);
    FoldTreeOnParts(vs);
    FoldedIsTree(vs);
    hide Run, FoldTreeVals, FoldAst, TreeOrNull;
    AndGathers(g, input, FoldTree, xs, c, c, backtrack, [], fuel);
    assert [] + vs == vs;
  }

  /** What a fold of trees builds may be folded again. */
  lemma FoldedIsTree(vs: seq<Val>)
    requires AllTreeOrNull(vs)
    ensures TreeOrNull(AsVal(FoldAst(AsParts(vs))))
  {}

  /** For a sequence of trees whose elements all succeed, the merge is right exactly when the
      collected results meet the condition of RegroupExactly. */
  lemma TreeMergeExactly(g: Grammar, input: string, pre: seq<Parser>, group: seq<Parser>, post: seq<Parser>,
      c: Cursor, backtrack: int, fuel: nat, us: seq<Val>, vs: seq<Val>, ws: seq<Val>, to: Cursor)
    requires group != [] && |us| == |pre| && |vs| == |group|
    requires Gather(g, input, pre + (group + post), c, backtrack, fuel) == All(us + (vs + ws), to)
    requires AllTreeOrNull(us) && AllTreeOrNull(vs) && AllTreeOrNull(ws)
    ensures Run(g, input, And(FoldTree, pre + ([And(FoldTree, group)] + post)), c, backtrack, fuel)
         == Run(g, input, And(FoldTree, pre + (group + post)), c, backtrack, fuel)
       <==> && !WrapsLoneTree(AsParts(us), AsParts(vs), AsParts(ws))
            && !LeavesEmptyRoot(AsParts(us), AsParts(vs), AsParts(ws))
  {
    hide Run, Foldable, FoldAst, FoldTreeVals;
    GroupedGathers(g, input, pre, group, post, c, backtrack, fuel, us, vs, ws, to);
    var v := AsVal(FoldAst(AsParts(vs)));
    TreeSequence(g, input, pre + (group + post), c, backtrack, fuel, us + (vs + ws), to);
    TreeSequence(g, input, pre + ([And(FoldTree, group)] + post), c, backtrack, fuel, us + ([v] + ws), to);
    assert AsParts(us + (vs + ws)) == AsParts(us) + AsParts(vs) + AsParts(ws);
    assert AsParts(us + ([v] + ws)) == AsParts(us) + [FoldAst(AsParts(vs))] + AsParts(ws);
    RegroupExactly(AsParts(us), AsParts(vs), AsParts(ws));
  }

  /** Running the nested sequence collects the folded value of the group in its place. */
  lemma GroupedGathers(g: Grammar, input: string, pre: seq<Parser>, group: seq<Parser>, post: seq<Parser>, c: Cursor,
      backtrack: int, fuel: nat, us: seq<Val>, vs: seq<Val>, ws: seq<Val>, to: Cursor)
    requires group != [] && |us| == |pre| && |vs| == |group| && AllTreeOrNull(vs)
    requires Gather(g, input, pre + (group + post), c, backtrack, fuel) == All(us + (vs + ws), to)
    ensures var v := AsVal(FoldAst(AsParts(vs)));
            && TreeOrNull(v)
            && Gather(g, input, pre + ([And(FoldTree, group)] + post), c, backtrack, fuel) == All(us + ([v] + ws), to)
  {
    hide Run, Foldable, FoldAst, FoldTreeVals;
    var x := And(FoldTree, group);
    GatherAppend(g, input, pre, group + post, c, backtrack, fuel);
    GatherAppend(g, input, pre, [x] + post, c, backtrack, fuel);
    GatherLength(g, input, pre, c, backtrack, fuel);
    var s := Gather(g, input, pre, c, backtrack, fuel);
    GatherAppend(g, input, group, post, s.to, backtrack, fuel);
    GatherLength(g, input, group, s.to, backtrack, fuel);
    var t := Gather(g, input, group, s.to, backtrack, fuel);
    var u := Gather(g, input, post, t.to, backtrack, fuel);
    SameSplit(s.vs, t.vs + u.vs, us, vs + ws);
    SameSplit(t.vs, u.vs, vs, ws);
    TreeSequence(g, input, group, s.to, backtrack, fuel, vs, t.to);
    assert ([x] + post)[1..] == post;
  }

  const A_LEAF: Ast := Ast("", "a", START, [])

  function OptionalA(): Parser {
    Maybe(Apply(Single('a'), v => Some(Tree(A_LEAF))), CtorNull)
  }

  function OptionalB(): Parser {
    Maybe(Single('b'), CtorNull)
  }

  lemma OptionalResults()
    ensures var (x, y, end) := (OptionalA(), OptionalB(), MpcParser.Step(BEGIN, 'a'));
            && Run([], "a", y, end, 1, 0) == Ok(Null, end)
            && Gather([], "a", [x, y], BEGIN, 1, 0) == All([Tree(A_LEAF), Null], end)
            && Gather([], "a", [x, y, y], BEGIN, 1, 0) == All([Tree(A_LEAF), Null, Null], end)
  {
    var x, y, end := OptionalA(), OptionalB(), MpcParser.Step(BEGIN, 'a');
    assert Run([], "a", x, BEGIN, 1, 0) == Ok(Tree(A_LEAF), end);
    assert Run([], "a", y, end, 1, 0) == Ok(Null, end);
    hide Run;
    assert [y][1..] == [] && [x, y][1..] == [y] && [x, y, y][1..] == [y, y] && [y, y][1..] == [y];
    assert Gather([], "a", [y], end, 1, 0) == All([Null] + [], end);
    assert Gather([], "a", [y, y], end, 1, 0) == All([Null] + [Null], end);
  }

  /** Three optional parts, the first two given as a nested pair: on the input a the original
      yields the leaf itself, the merged parser a root around it. */
  lemma OptionalPartsAreRegrouped()
    ensures var (x, y, end) := (OptionalA(), OptionalB(), MpcParser.Step(BEGIN, 'a'));
            && Rule(And(FoldTree, [And(FoldTree, [x, y]), y])) == Some(And(FoldTree, [x, y, y]))
            && Run([], "a", And(FoldTree, [And(FoldTree, [x, y]), y]), BEGIN, 1, 0) == Ok(Tree(A_LEAF), end)
            && Run([], "a", And(FoldTree, [x, y, y]), BEGIN, 1, 0) == Ok(Tree(Root([A_LEAF])), end)
  {
    OptionalResults();
    NestedOptional();
    TreeSequence([], "a", [OptionalA(), OptionalB(), OptionalB()], BEGIN, 1, 0, [Tree(A_LEAF), Null, Null],
        MpcParser.Step(BEGIN, 'a'));
    hide Run;
    assert AsParts([Tree(A_LEAF), Null, Null]) == [Present(A_LEAF), Absent, Absent];
    FlattenThree(Present(A_LEAF), Absent, Absent);
    var x, y := OptionalA(), OptionalB();
    assert Splice([And(FoldTree, [x, y]), y], 0) == [x, y, y];
  }

  lemma NestedOptional()
    ensures var (x, y) := (OptionalA(), OptionalB());
            Run([], "a", And(FoldTree, [And(FoldTree, [x, y]), y]), BEGIN, 1, 0) ==
                Ok(Tree(A_LEAF), MpcParser.Step(BEGIN, 'a'))
  {
    var x, y, end := OptionalA(), OptionalB(), MpcParser.Step(BEGIN, 'a');
    OptionalResults();
    TreeSequence([], "a", [x, y], BEGIN, 1, 0, [Tree(A_LEAF), Null], end);
    assert AsParts([Tree(A_LEAF), Null]) == [Present(A_LEAF), Absent];
    RunOfAnd([], "a", FoldTree, [And(FoldTree, [x, y]), y], BEGIN, 1, 0);
    hide Run;
    RunAndPair([], "a", FoldTree, And(FoldTree, [x, y]), y, BEGIN, 1, 0);
  }

  // ----- dropping a useless first element -----

  /** The outcome of a pair whose first element yielded u and whose second had outcome o. */
  function Second(f: Fold, u: Val, o: Outcome, from: Cursor, backtrack: int): Outcome {
    match o
    case Ok(v, to) => Folded(f, [u, v], to)
    case Bad(to) => Bad(Rewound(from, to, backtrack))
    case _ => o
  }

  lemma RunAndPair(g: Grammar, input: string, f: Fold, a: Parser, x: Parser, c: Cursor, backtrack: int, fuel: nat)
    ensures var o := Run(g, input, a, c, backtrack, fuel);
            o.Ok? ==> RunAnd(g, input, f, [a, x], c, c, backtrack, [], fuel)
                      == Second(f, o.v, Run(g, input, x, o.to, backtrack, fuel), c, backtrack)
  {
    hide Run, Folded;
    assert [a, x][1..] == [x] && [x][1..] == [];
    var o := Run(g, input, a, c, backtrack, fuel);
    if o.Ok? {
      var p := Run(g, input, x, o.to, backtrack, fuel);
      assert [] + [o.v] == [o.v];
      if p.Ok? { assert [o.v] + [p.v] == [o.v, p.v]; }
      assert RunAnd(g, input, f, [x], c, o.to, backtrack, [o.v], fuel) == Second(f, o.v, p, c, backtrack);
    }
  }

  /** Dropping a pass is right exactly when the other parser does not fail elsewhere than it
      began while backtracking is on. */
  lemma DropPassExactly(g: Grammar, input: string, x: Parser, c: Cursor, backtrack: int, fuel: nat)
    ensures var o := Run(g, input, x, c, backtrack, fuel);
            Run(g, input, And(FoldTree, [Pass, x]), c, backtrack, fuel) == o
            <==> !(backtrack >= 1 && o.Bad? && o.to != c)
  {
    RunAndPair(g, input, FoldTree, Pass, x, c, backtrack, fuel);
  }

  /** The same for the lift of an empty string, except that the sequence has no meaning when
      the other parser yields anything but a string. */
  lemma DropLiftExactly(g: Grammar, input: string, x: Parser, c: Cursor, backtrack: int, fuel: nat)
    ensures var o := Run(g, input, x, c, backtrack, fuel);
            Refines(Run(g, input, And(StrFold, [Lift(CtorStr), x]), c, backtrack, fuel), o)
            <==> !(backtrack >= 1 && o.Bad? && o.to != c)
  {
    RunAndPair(g, input, StrFold, Lift(CtorStr), x, c, backtrack, fuel);
    var o := Run(g, input, x, c, backtrack, fuel);
    if o.Ok? && o.v.Str? {
      assert [Str(""), o.v][1..] == [o.v];
      assert Concat([o.v]) == o.v.s + Concat([o.v][1..]);
    } else if o.Ok? {
      assert !AllStr([Str(""), o.v]) by { assert ![Str(""), o.v][1].Str?; }
    }
  }
}
