/** Which grammars come to an end on every input: recursion and repeats have to read something. */
module MpcTermination {
  import opened Options
  import opened MpcAst
  import opened MpcParser
  import opened MpcOptimise
  import opened MpcLeaves

  // ----- parsers that read something -----

  /** Every success reads at least one character, provided those of the names an do. */
  predicate Advances(an: set<nat>, p: Parser)
    decreases p
  {
    match p
    case Undefined => true
    case Fail => true
    case Any => true
    case Single(_) => true
    case OneOf(_) => true
    case NoneOf(_) => true
    case Range(_, _) => true
    case Satisfy(_) => true
    case Literal(s) => s != ""
    case Expect(x) => Advances(an, x)
    case Apply(x, _) => Advances(an, x)
    case ApplyTo(x, _, _) => Advances(an, x)
    case Predict(x) => Advances(an, x)
    case Many1(_, x) => Advances(an, x)
    case Count(n, _, x) => n >= 1 && Advances(an, x)
    case Or(xs) => xs != [] && forall i | 0 <= i < |xs| :: Advances(an, xs[i])
    case And(_, xs) => SomeAdvances(an, xs)
    case Ref(id) => id in an
    case _ => false
  }

  predicate SomeAdvances(an: set<nat>, xs: seq<Parser>)
    decreases xs
  {
    exists i | 0 <= i < |xs| :: Advances(an, xs[i])
  }

  predicate AdvancingNames(an: set<nat>, g: Grammar) {
    forall id | id in an && id < |g| :: Advances(an, g[id])
  }

  /** An outcome that began at c: forward, not past the end, and further on where something was read. */
  predicate Forward(input: string, c: Cursor, o: Outcome, eats: bool) {
    && (o.Ok? || o.Bad? ==> c.state.pos <= o.to.state.pos <= |input|)
    && (o.Ok? && eats ==> c.state.pos < o.to.state.pos)
  }

  lemma {:induction false} SpellMoves(input: string, c: Cursor, s: string)
    requires c.state.pos <= |input|
    ensures var (to, done) := Spell(input, c, s);
      c.state.pos <= to.state.pos <= |input| && (done ==> to.state.pos == c.state.pos + |s|)
    decreases |s|
  {
    if s != "" && c.state.pos < |input| && input[c.state.pos] == s[0] {
      SpellMoves(input, MpcParser.Step(c, s[0]), s[1..]);
    }
  }

  /** No run goes back before its beginning. */
  lemma {:induction false} RunMoves(an: set<nat>, g: Grammar, input: string, p: Parser, c: Cursor, backtrack: int,
      fuel: nat)
    requires AdvancingNames(an, g) && c.state.pos <= |input|
    ensures Forward(input, c, Run(g, input, p, c, backtrack, fuel), Advances(an, p))
    decreases fuel, p, 1
  {
    hide AdvancingNames;
    if RunsOnce(p) {
      hide Run, Advances;
      RunMoves(an, g, input, p.x, c, if p.Predict? then backtrack - 1 else backtrack, fuel);
      WrapMoves(an, g, input, p, c, backtrack, fuel);
    } else if p.Many? {
      ManyMoves(an, g, input, p.f, p.x, false, c, backtrack, [], fuel);
    } else if p.Many1? {
      ManyMoves(an, g, input, p.f, p.x, true, c, backtrack, [], fuel);
    } else if p.Count? {
      CountMoves(an, g, input, p.n, p.f, p.x, c, backtrack, [], fuel);
    } else if p.Or? {
      if p.xs != [] { OrMoves(an, g, input, p.xs, c, backtrack, fuel); }
    } else if p.And? {
      if p.xs != [] { AndMoves(an, g, input, p.f, p.xs, c, c, backtrack, [], fuel); }
    } else if p.Ref? {
      if p.id < |g| && fuel > 0 {
        RunMoves(an, g, input, g[p.id], c, backtrack, fuel - 1);
        NameAdvances(an, g, p.id);
      }
    } else {
      hide Run, Advances;
      LeafMoves(an, g, input, p, c, backtrack, fuel);
    }
  }

  /** A parser around another that runs it once. */
  predicate RunsOnce(p: Parser) {
    Wraps(p) && !p.Many? && !p.Many1? && !p.Count?
  }

  lemma WrapMoves(an: set<nat>, g: Grammar, input: string, p: Parser, c: Cursor, backtrack: int, fuel: nat)
    requires RunsOnce(p) && c.state.pos <= |input|
    requires Forward(input, c, Run(g, input, p.x, c, if p.Predict? then backtrack - 1 else backtrack, fuel),
        Advances(an, p.x))
    ensures Forward(input, c, Run(g, input, p, c, backtrack, fuel), Advances(an, p))
  {}

  lemma LeafMoves(an: set<nat>, g: Grammar, input: string, p: Parser, c: Cursor, backtrack: int, fuel: nat)
    requires !Wraps(p) && !Lists(p) && !p.Ref? && c.state.pos <= |input|
    ensures Forward(input, c, Run(g, input, p, c, backtrack, fuel), Advances(an, p))
  {
    if p.Literal? { SpellMoves(input, c, p.s); }
  }

  lemma NameAdvances(an: set<nat>, g: Grammar, id: nat)
    requires AdvancingNames(an, g) && id < |g|
    ensures id in an ==> Advances(an, g[id])
  {}

  lemma {:induction false} ManyMoves(an: set<nat>, g: Grammar, input: string, f: Fold, x: Parser, once: bool, c: Cursor,
      backtrack: int, vs: seq<Val>, fuel: nat)
    requires AdvancingNames(an, g) && c.state.pos <= |input|
    ensures Forward(input, c, RunMany(g, input, f, x, once, c, backtrack, vs, fuel), once && vs == []
        && Advances(an, x))
    decreases fuel, x, 2
  {
    RunMoves(an, g, input, x, c, backtrack, fuel);
    ManyUnfolds(g, input, f, x, once, c, backtrack, vs, fuel);
    hide Run, RunMany, Advances, AdvancingNames, ApplyFold;
    var o := Run(g, input, x, c, backtrack, fuel);
    if o.Ok? && fuel > 0 {
      ManyMoves(an, g, input, f, x, once, o.to, backtrack, vs + [o.v], fuel - 1);
    }
  }

  lemma {:induction false} CountMoves(an: set<nat>, g: Grammar, input: string, n: int, f: Fold, x: Parser, c: Cursor,
      backtrack: int, vs: seq<Val>, fuel: nat)
    requires AdvancingNames(an, g) && c.state.pos <= |input|
    ensures Forward(input, c, RunCount(g, input, n, f, x, c, backtrack, vs, fuel), n > |vs| && Advances(an, x))
    decreases fuel, x, 2, 4 - |vs| + (if n > 4 then n else 4)
  {
    if !(n <= |vs| && 4 <= |vs|) {
      RunMoves(an, g, input, x, c, backtrack, fuel);
      CountUnfolds(g, input, n, f, x, c, backtrack, vs, fuel);
      hide Run, RunCount, Advances, AdvancingNames, ApplyFold;
      var o := Run(g, input, x, c, backtrack, fuel);
      if o.Ok? && |vs| + 1 != n {
        CountMoves(an, g, input, n, f, x, o.to, backtrack, vs + [o.v], fuel);
      }
    }
  }

  lemma {:induction false} OrMoves(an: set<nat>, g: Grammar, input: string, xs: seq<Parser>, c: Cursor, backtrack: int,
      fuel: nat)
    requires AdvancingNames(an, g) && c.state.pos <= |input|
    ensures Forward(input, c, RunOr(g, input, xs, c, backtrack, fuel), forall i | 0 <= i < |xs| :: Advances(an, xs[i]))
    decreases fuel, xs, 0
  {
    hide Run, Advances, AdvancingNames;
    if xs != [] {
      RunMoves(an, g, input, xs[0], c, backtrack, fuel);
      var o := Run(g, input, xs[0], c, backtrack, fuel);
      if o.Bad? { OrMoves(an, g, input, xs[1..], o.to, backtrack, fuel); }
    }
  }

  lemma {:induction false} AndMoves(an: set<nat>, g: Grammar, input: string, f: Fold, xs: seq<Parser>, from: Cursor,
      c: Cursor, backtrack: int, vs: seq<Val>, fuel: nat)
    requires AdvancingNames(an, g) && from.state.pos <= c.state.pos <= |input|
    ensures var o := RunAnd(g, input, f, xs, from, c, backtrack, vs, fuel);
      Forward(input, from, o, false) && (o.Ok? ==> Forward(input, c, o, SomeAdvances(an, xs)))
    decreases fuel, xs, 0
  {
    hide Run, Advances, AdvancingNames, ApplyFold;
    if xs != [] {
      RunMoves(an, g, input, xs[0], c, backtrack, fuel);
      var o := Run(g, input, xs[0], c, backtrack, fuel);
      if o.Ok? {
        AndMoves(an, g, input, f, xs[1..], from, o.to, backtrack, vs + [o.v], fuel);
        FirstOrRest(an, xs);
      }
    }
  }

  lemma FirstOrRest(an: set<nat>, xs: seq<Parser>)
    requires xs != []
    ensures SomeAdvances(an, xs) <==> Advances(an, xs[0]) || SomeAdvances(an, xs[1..])
  {
    hide Advances;
    if SomeAdvances(an, xs[1..]) {
      var i :| 0 <= i < |xs[1..]| && Advances(an, xs[1..][i]);
      assert xs[i + 1] == xs[1..][i];
    }
    if SomeAdvances(an, xs) {
      var i :| 0 <= i < |xs| && Advances(an, xs[i]);
      assert i > 0 ==> xs[1..][i - 1] == xs[i];
    }
  }

  // ----- grammars that come to an end -----

  /** Before anything is read only names of a rank below r are entered, and what is repeated reads.
      Once something was read, names of any rank up to top may be. */
  predicate Early(an: set<nat>, ranks: seq<nat>, top: nat, r: nat, p: Parser)
    decreases p, 1
  {
    && (p.Ref? && p.id < |ranks| ==> ranks[p.id] < r)
    && (Wraps(p) ==> Early(an, ranks, top, r, p.x))
    && (p.Many? || p.Many1? ==> Advances(an, p.x))
    && (p.Or? ==> forall i | 0 <= i < |p.xs| :: Early(an, ranks, top, r, p.xs[i]))
    && (p.And? ==> EarlyAll(an, ranks, top, r, p.xs))
  }

  predicate EarlyAll(an: set<nat>, ranks: seq<nat>, top: nat, r: nat, xs: seq<Parser>)
    decreases xs, 0
  {
    xs == [] ||
    (Early(an, ranks, top, r, xs[0]) && EarlyAll(an, ranks, top, if Advances(an, xs[0]) then top + 1 else r, xs[1..]))
  }

  /** Every name enters only names of lower rank before it reads. */
  predicate Ranked(an: set<nat>, ranks: seq<nat>, top: nat, g: Grammar) {
    && |ranks| == |g| && AdvancingNames(an, g)
    && forall id | 0 <= id < |g| :: ranks[id] <= top && Early(an, ranks, top, ranks[id], g[id])
  }

  /** Fuel for the rest of the input. */
  function Need(input: string, c: Cursor, top: nat, r: nat): nat
    requires c.state.pos <= |input|
  {
    (|input| - c.state.pos) * (top + 1) + r
  }

  lemma NeedFalls(input: string, c: Cursor, to: Cursor, top: nat, r: nat)
    requires c.state.pos <= to.state.pos <= |input|
    ensures Need(input, to, top, r) <= Need(input, c, top, r)
    ensures c.state.pos < to.state.pos ==> Need(input, to, top, r) + top + 1 <= Need(input, c, top, r)
    ensures c.state.pos < to.state.pos ==> Need(input, to, top, top + 1) <= Need(input, c, top, r)
  {
    var a, b := |input| - c.state.pos, |input| - to.state.pos;
    Rounds(b, top + 1);
    if a > b { MoreRounds(a, b, top + 1); }
  }

  lemma Rounds(b: nat, n: nat)
    ensures b * n >= 0
  {}

  lemma {:induction false} MoreRounds(a: nat, b: nat, n: nat)
    requires a > b
    ensures a * n >= b * n + n
    decreases a - b
  {
    assert a * n == (a - 1) * n + n;
    if a - 1 > b { MoreRounds(a - 1, b, n); }
  }

  lemma NeedOfLower(input: string, c: Cursor, top: nat, r: nat, s: nat)
    requires c.state.pos <= |input| && s < r
    ensures Need(input, c, top, s) < Need(input, c, top, r)
  {}

  /** With that much fuel no run is endless: every name and every repeat has read something before it
      comes back to where it was. */
  lemma {:induction false} RunEnds(an: set<nat>, ranks: seq<nat>, top: nat, r: nat, g: Grammar, input: string,
      p: Parser,
      c: Cursor, backtrack: int, fuel: nat)
    requires Ranked(an, ranks, top, g) && Early(an, ranks, top, r, p) && r <= top + 1
    requires c.state.pos <= |input| && Need(input, c, top, r) <= fuel
    ensures !Run(g, input, p, c, backtrack, fuel).Endless?
    decreases fuel, p, 1
  {
    hide Ranked, Need, Advances;
    if p.Many? {
      ManyEnds(an, ranks, top, r, g, input, p.f, p.x, false, c, backtrack, [], fuel);
    } else if p.Many1? {
      ManyEnds(an, ranks, top, r, g, input, p.f, p.x, true, c, backtrack, [], fuel);
    } else if p.Count? {
      CountEnds(an, ranks, top, r, g, input, p.n, p.f, p.x, c, backtrack, [], fuel);
    } else if Wraps(p) {
      RunEnds(an, ranks, top, r, g, input, p.x, c, if p.Predict? then backtrack - 1 else backtrack, fuel);
      hide Run, Early;
      WrapEnds(g, input, p, c, backtrack, fuel);
    } else if p.Or? {
      if p.xs != [] { OrEnds(an, ranks, top, r, g, input, p.xs, c, backtrack, fuel); }
    } else if p.And? {
      if p.xs != [] { AndEnds(an, ranks, top, r, g, input, p.f, p.xs, c, c, backtrack, [], fuel); }
    } else if p.Ref? && p.id < |g| {
      NameRanked(an, ranks, top, g, p.id);
      NeedOfLower(input, c, top, r, ranks[p.id]);
      RunEnds(an, ranks, top, ranks[p.id], g, input, g[p.id], c, backtrack, fuel - 1);
    }
  }

  lemma WrapEnds(g: Grammar, input: string, p: Parser, c: Cursor, backtrack: int, fuel: nat)
    requires RunsOnce(p)
    ensures Run(g, input, p, c, backtrack, fuel).Endless?
       <==> Run(g, input, p.x, c, if p.Predict? then backtrack - 1 else backtrack, fuel).Endless?
  {}

  lemma NameRanked(an: set<nat>, ranks: seq<nat>, top: nat, g: Grammar, id: nat)
    requires Ranked(an, ranks, top, g) && id < |g|
    ensures id < |ranks| && ranks[id] <= top && Early(an, ranks, top, ranks[id], g[id])
  {}

  lemma RankedMoves(an: set<nat>, ranks: seq<nat>, top: nat, g: Grammar, input: string, p: Parser, c: Cursor,
      backtrack: int, fuel: nat)
    requires Ranked(an, ranks, top, g) && c.state.pos <= |input|
    ensures Forward(input, c, Run(g, input, p, c, backtrack, fuel), Advances(an, p))
  {
    RunMoves(an, g, input, p, c, backtrack, fuel);
  }

  lemma {:induction false} ManyEnds(an: set<nat>, ranks: seq<nat>, top: nat, r: nat, g: Grammar, input: string, f: Fold,
      x: Parser, once: bool, c: Cursor, backtrack: int, vs: seq<Val>, fuel: nat)
    requires Ranked(an, ranks, top, g) && Early(an, ranks, top, r, x) && Advances(an, x) && r <= top + 1
    requires c.state.pos <= |input| && Need(input, c, top, r) <= fuel
    ensures !RunMany(g, input, f, x, once, c, backtrack, vs, fuel).Endless?
    decreases fuel, x, 2
  {
    RunEnds(an, ranks, top, r, g, input, x, c, backtrack, fuel);
    RankedMoves(an, ranks, top, g, input, x, c, backtrack, fuel);
    ManyUnfolds(g, input, f, x, once, c, backtrack, vs, fuel);
    hide Run, RunMany, Ranked, Need, Early, Advances, ApplyFold;
    var o := Run(g, input, x, c, backtrack, fuel);
    if o.Ok? {
      NeedFalls(input, c, o.to, top, r);
      ManyEnds(an, ranks, top, r, g, input, f, x, once, o.to, backtrack, vs + [o.v], fuel - 1);
    }
  }

  lemma {:induction false} CountEnds(an: set<nat>, ranks: seq<nat>, top: nat, r: nat, g: Grammar, input: string, n: int,
      f: Fold, x: Parser, c: Cursor, backtrack: int, vs: seq<Val>, fuel: nat)
    requires Ranked(an, ranks, top, g) && Early(an, ranks, top, r, x) && r <= top + 1
    requires c.state.pos <= |input| && Need(input, c, top, r) <= fuel
    ensures !RunCount(g, input, n, f, x, c, backtrack, vs, fuel).Endless?
    decreases fuel, x, 2, 4 - |vs| + (if n > 4 then n else 4)
  {
    if !(n <= |vs| && 4 <= |vs|) {
      RunEnds(an, ranks, top, r, g, input, x, c, backtrack, fuel);
      RankedMoves(an, ranks, top, g, input, x, c, backtrack, fuel);
      CountUnfolds(g, input, n, f, x, c, backtrack, vs, fuel);
      hide Run, RunCount, Ranked, Need, Early, Advances, ApplyFold;
      var o := Run(g, input, x, c, backtrack, fuel);
      if o.Ok? && |vs| + 1 != n {
        NeedFalls(input, c, o.to, top, r);
        CountEnds(an, ranks, top, r, g, input, n, f, x, o.to, backtrack, vs + [o.v], fuel);
      }
    }
  }

  lemma {:induction false} OrEnds(an: set<nat>, ranks: seq<nat>, top: nat, r: nat, g: Grammar, input: string,
      xs: seq<Parser>, c: Cursor, backtrack: int, fuel: nat)
    requires Ranked(an, ranks, top, g) && (forall i | 0 <= i < |xs| :: Early(an, ranks, top, r, xs[i])) && r <= top + 1
    requires c.state.pos <= |input| && Need(input, c, top, r) <= fuel
    ensures !RunOr(g, input, xs, c, backtrack, fuel).Endless?
    decreases fuel, xs, 0
  {
    hide Run, Ranked, Need, Early, Advances;
    if xs != [] {
      RunEnds(an, ranks, top, r, g, input, xs[0], c, backtrack, fuel);
      RankedMoves(an, ranks, top, g, input, xs[0], c, backtrack, fuel);
      var o := Run(g, input, xs[0], c, backtrack, fuel);
      if o.Bad? {
        NeedFalls(input, c, o.to, top, r);
        OrEnds(an, ranks, top, r, g, input, xs[1..], o.to, backtrack, fuel);
      }
    }
  }

  lemma {:induction false} AndEnds(an: set<nat>, ranks: seq<nat>, top: nat, r: nat, g: Grammar, input: string, f: Fold,
      xs: seq<Parser>, from: Cursor, c: Cursor, backtrack: int, vs: seq<Val>, fuel: nat)
    requires Ranked(an, ranks, top, g) && EarlyAll(an, ranks, top, r, xs) && r <= top + 1
    requires c.state.pos <= |input| && Need(input, c, top, r) <= fuel
    ensures !RunAnd(g, input, f, xs, from, c, backtrack, vs, fuel).Endless?
    decreases fuel, xs, 0
  {
    hide Run, Ranked, Need, Early, Advances, ApplyFold;
    if xs != [] {
      RunEnds(an, ranks, top, r, g, input, xs[0], c, backtrack, fuel);
      RankedMoves(an, ranks, top, g, input, xs[0], c, backtrack, fuel);
      var o := Run(g, input, xs[0], c, backtrack, fuel);
      if o.Ok? {
        var s := if Advances(an, xs[0]) then top + 1 else r;
        NeedFalls(input, c, o.to, top, r);
        AndEnds(an, ranks, top, s, g, input, f, xs[1..], from, o.to, backtrack, vs + [o.v], fuel);
      }
    }
  }

  /** A name that enters itself first never comes to an end. */
  lemma {:induction false} LeftRecursion(input: string, c: Cursor, backtrack: int, fuel: nat)
    ensures Run([Ref(0)], input, Ref(0), c, backtrack, fuel) == Endless
    decreases fuel
  {
    if fuel > 0 { LeftRecursion(input, c, backtrack, fuel - 1); }
  }

  // ----- optimising keeps all this -----

  lemma {:induction false} SomeInEither(an: set<nat>, xs: seq<Parser>, ys: seq<Parser>)
    ensures SomeAdvances(an, xs + ys) <==> SomeAdvances(an, xs) || SomeAdvances(an, ys)
  {
    if xs == [] {
      assert xs + ys == ys;
    } else {
      assert (xs + ys)[0] == xs[0] && (xs + ys)[1..] == xs[1..] + ys;
      FirstOrRest(an, xs + ys);
      FirstOrRest(an, xs);
      SomeInEither(an, xs[1..], ys);
    }
  }

  /** The rank up to which names may be entered after xs. */
  function After(an: set<nat>, top: nat, r: nat, xs: seq<Parser>): nat {
    if SomeAdvances(an, xs) then top + 1 else r
  }

  lemma {:induction false} EarlyAppend(an: set<nat>, ranks: seq<nat>, top: nat, r: nat, xs: seq<Parser>,
      ys: seq<Parser>)
    ensures EarlyAll(an, ranks, top, r, xs + ys)
       <==> EarlyAll(an, ranks, top, r, xs) && EarlyAll(an, ranks, top, After(an, top, r, xs), ys)
    decreases |xs|
  {
    hide Early, Advances;
    if xs == [] {
      assert xs + ys == ys;
    } else {
      assert (xs + ys)[0] == xs[0] && (xs + ys)[1..] == xs[1..] + ys;
      EarlyAppend(an, ranks, top, if Advances(an, xs[0]) then top + 1 else r, xs[1..], ys);
      FirstOrRest(an, xs);
    }
  }

  lemma OneOfThem(an: set<nat>, ranks: seq<nat>, top: nat, r: nat, x: Parser)
    ensures SomeAdvances(an, [x]) <==> Advances(an, x)
    ensures EarlyAll(an, ranks, top, r, [x]) <==> Early(an, ranks, top, r, x)
  {
    hide Early, Advances;
    FirstOrRest(an, [x]);
    assert [x][1..] == [];
  }

  /** A sequence spliced into another reads as much as before, and as early. */
  lemma AndSpliceKeeps(an: set<nat>, ranks: seq<nat>, top: nat, r: nat, xs: seq<Parser>, i: nat)
    requires i < |xs| && xs[i].And?
    ensures SomeAdvances(an, Splice(xs, i)) <==> SomeAdvances(an, xs)
    ensures EarlyAll(an, ranks, top, r, Splice(xs, i)) <==> EarlyAll(an, ranks, top, r, xs)
  {
    var pre, x, post := xs[..i], xs[i], xs[i + 1..];
    assert xs == pre + [x] + post && Splice(xs, i) == pre + x.xs + post;
    assert Advances(an, x) <==> SomeAdvances(an, x.xs);
    var s := After(an, top, r, pre);
    assert Early(an, ranks, top, s, x) <==> EarlyAll(an, ranks, top, s, x.xs);
    hide Advances, Early, SomeAdvances, EarlyAll, Splice;
    OneOfThem(an, ranks, top, s, x);
    SomeInEither(an, pre, [x]); SomeInEither(an, pre + [x], post);
    SomeInEither(an, pre, x.xs); SomeInEither(an, pre + x.xs, post);
    EarlyAppend(an, ranks, top, r, pre, [x]); EarlyAppend(an, ranks, top, r, pre + [x], post);
    EarlyAppend(an, ranks, top, r, pre, x.xs); EarlyAppend(an, ranks, top, r, pre + x.xs, post);
  }

  lemma OrSpliceAdvances(an: set<nat>, xs: seq<Parser>, i: nat)
    requires i < |xs| && xs[i].Or? && xs[i].xs != []
    ensures Advances(an, Or(Splice(xs, i))) <==> Advances(an, Or(xs))
  {
    var zs, moves := Splice(xs, i), x => Advances(an, x);
    OrAdvances(an, xs);
    OrAdvances(an, xs[i].xs);
    OrAdvances(an, zs);
    assert xs[i] == Or(xs[i].xs) && zs != [];
    hide *;
    AllSpliced(moves, xs, i);
    assert (forall k | 0 <= k < |zs| :: moves(zs[k])) <==> forall k | 0 <= k < |zs| :: Advances(an, zs[k]);
    assert (forall k | 0 <= k < |xs| :: moves(xs[k])) <==> forall k | 0 <= k < |xs| :: Advances(an, xs[k]);
  }

  lemma OrSpliceEarly(an: set<nat>, ranks: seq<nat>, top: nat, r: nat, xs: seq<Parser>, i: nat)
    requires i < |xs| && xs[i].Or? && xs[i].xs != []
    ensures Early(an, ranks, top, r, Or(Splice(xs, i))) <==> Early(an, ranks, top, r, Or(xs))
  {
    var zs, early := Splice(xs, i), x => Early(an, ranks, top, r, x);
    OrEarly(an, ranks, top, r, xs);
    OrEarly(an, ranks, top, r, xs[i].xs);
    OrEarly(an, ranks, top, r, zs);
    assert xs[i] == Or(xs[i].xs);
    hide *;
    AllSpliced(early, xs, i);
    assert (forall k | 0 <= k < |zs| :: early(zs[k])) <==> forall k | 0 <= k < |zs| :: Early(an, ranks, top, r, zs[k]);
    assert (forall k | 0 <= k < |xs| :: early(xs[k])) <==> forall k | 0 <= k < |xs| :: Early(an, ranks, top, r, xs[k]);
  }

  lemma OrAdvances(an: set<nat>, xs: seq<Parser>)
    ensures Advances(an, Or(xs)) <==> xs != [] && forall i | 0 <= i < |xs| :: Advances(an, xs[i])
  {}

  lemma OrEarly(an: set<nat>, ranks: seq<nat>, top: nat, r: nat, xs: seq<Parser>)
    ensures Early(an, ranks, top, r, Or(xs)) <==> forall i | 0 <= i < |xs| :: Early(an, ranks, top, r, xs[i])
  {}

  /** What holds of alternatives exactly when it holds of each holds of a spliced list or of neither. */
  lemma AllSpliced(holds: Parser -> bool, xs: seq<Parser>, i: nat)
    requires i < |xs| && Lists(xs[i])
    requires holds(xs[i]) <==> forall k | 0 <= k < |xs[i].xs| :: holds(xs[i].xs[k])
    ensures (forall k | 0 <= k < |Splice(xs, i)| :: holds(Splice(xs, i)[k])) <==>
        forall k | 0 <= k < |xs| :: holds(xs[k])
  {
    var ys, zs := xs[i].xs, Splice(xs, i);
    if forall k | 0 <= k < |zs| :: holds(zs[k]) {
      forall k | 0 <= k < |ys| ensures holds(ys[k]) { assert zs[i + k] == ys[k]; }
      forall k | 0 <= k < |xs| ensures holds(xs[k]) {
        if k != i { assert zs[if k < i then k else k + |ys| - 1] == xs[k]; }
      }
    }
    if forall k | 0 <= k < |xs| :: holds(xs[k]) {
      forall k | 0 <= k < |zs| ensures holds(zs[k]) { SpliceElement(xs, i, k); }
    }
  }

  lemma RuleKeepsEarly(an: set<nat>, ranks: seq<nat>, top: nat, r: nat, p: Parser)
    requires Filled(p) && Rule(p).Some?
    ensures Advances(an, Rule(p).value) <==> Advances(an, p)
    ensures Early(an, ranks, top, r, Rule(p).value) <==> Early(an, ranks, top, r, p)
  {
    var i := RuleCases(p);
    if DropsFirst(p) {
      DropKeepsEarly(an, ranks, top, r, p.f, p.xs[0], p.xs[1]);
      assert p.xs == [p.xs[0], p.xs[1]];
    } else {
      assert Filled(p.xs[i]);
      if p.Or? {
        OrSpliceAdvances(an, p.xs, i);
        OrSpliceEarly(an, ranks, top, r, p.xs, i);
      } else {
        AndIsAll(an, ranks, top, r, p.f, p.xs);
        AndIsAll(an, ranks, top, r, p.f, Splice(p.xs, i));
        hide Advances, Early, Splice;
        AndSpliceKeeps(an, ranks, top, r, p.xs, i);
      }
    }
  }

  lemma DropKeepsEarly(an: set<nat>, ranks: seq<nat>, top: nat, r: nat, f: Fold, u: Parser, x: Parser)
    requires u.Pass? || u.Lift?
    ensures Advances(an, x) <==> Advances(an, And(f, [u, x]))
    ensures Early(an, ranks, top, r, x) <==> Early(an, ranks, top, r, And(f, [u, x]))
  {
    assert !Advances(an, u) && Early(an, ranks, top, r, u);
    assert [u, x][1..] == [x];
    FirstOrRest(an, [u, x]);
    OneOfThem(an, ranks, top, r, x);
  }

  lemma {:induction false} RewriteKeepsEarly(an: set<nat>, ranks: seq<nat>, top: nat, r: nat, p: Parser)
    requires Filled(p)
    ensures Advances(an, Rewrite(p)) <==> Advances(an, p)
    ensures Early(an, ranks, top, r, Rewrite(p)) <==> Early(an, ranks, top, r, p)
    decreases Size(p)
  {
    hide Advances, Early, Rule, Filled;
    if Rule(p).Some? {
      RuleKeepsEarly(an, ranks, top, r, p);
      RuleKeepsFilled(p);
      RuleShrinks(p);
      RewriteKeepsEarly(an, ranks, top, r, Rule(p).value);
    }
  }

  /** The optimised parser reads whenever the parser did, and enters no other names before it reads. */
  lemma {:induction false} OptimiseKeepsEarly(an: set<nat>, ranks: seq<nat>, top: nat, r: nat, p: Parser)
    requires Filled(p)
    ensures Advances(an, Optimise(p)) <==> Advances(an, p)
    ensures Early(an, ranks, top, r, Optimise(p)) <==> Early(an, ranks, top, r, p)
    decreases p, 1
  {
    OptimiseKeepsFilled(p);
    OptimiseUnfolds(p);
    if Wraps(p) {
      OptimiseKeepsEarly(an, ranks, top, r, p.x);
      WrapKeepsEarly(an, ranks, top, r, p);
    } else if p.Or? {
      forall i | 0 <= i < |p.xs|
        ensures Advances(an, Optimise(p.xs[i])) <==> Advances(an, p.xs[i])
        ensures Early(an, ranks, top, r, Optimise(p.xs[i])) <==> Early(an, ranks, top, r, p.xs[i])
      {
        OptimiseKeepsEarly(an, ranks, top, r, p.xs[i]);
      }
      OrKeepsEarly(an, ranks, top, r, p.xs);
    } else if p.And? {
      AllKeepEarly(an, ranks, top, r, p.xs);
      AndIsAll(an, ranks, top, r, p.f, p.xs);
      AndIsAll(an, ranks, top, r, p.f, OptimiseAll(p.xs));
    }
    hide Advances, Early, Optimise, Rewrite, Filled, OptimiseAll;
    RewriteKeepsEarly(an, ranks, top, r, Rebuild(p));
  }

  lemma AndIsAll(an: set<nat>, ranks: seq<nat>, top: nat, r: nat, f: Fold, xs: seq<Parser>)
    ensures Advances(an, And(f, xs)) <==> SomeAdvances(an, xs)
    ensures Early(an, ranks, top, r, And(f, xs)) <==> EarlyAll(an, ranks, top, r, xs)
  {}

  lemma WrapKeepsEarly(an: set<nat>, ranks: seq<nat>, top: nat, r: nat, p: Parser)
    requires Wraps(p)
    requires Advances(an, Optimise(p.x)) <==> Advances(an, p.x)
    requires Early(an, ranks, top, r, Optimise(p.x)) <==> Early(an, ranks, top, r, p.x)
    ensures Advances(an, Rebuild(p)) <==> Advances(an, p)
    ensures Early(an, ranks, top, r, Rebuild(p)) <==> Early(an, ranks, top, r, p)
  {
    hide Optimise, Rebuild, Advances, Early;
    WrapRebuilt(p);
    AdvancesOfWrap(an, p);
    AdvancesOfWrap(an, Rebuild(p));
    EarlyOfWrap(an, ranks, top, r, p);
    EarlyOfWrap(an, ranks, top, r, Rebuild(p));
  }

  lemma WrapRebuilt(p: Parser)
    requires Wraps(p)
    ensures var q := Rebuild(p);
      && Wraps(q) && q.x == Optimise(p.x) && q.Not? == p.Not? && q.Maybe? == p.Maybe? && q.Many? == p.Many?
      && q.Many1? == p.Many1? && q.Count? == p.Count? && (p.Count? ==> q.n == p.n)
  {
    hide Optimise;
  }

  lemma AdvancesOfWrap(an: set<nat>, p: Parser)
    requires Wraps(p)
    ensures Advances(an, p) <==>
        Advances(an, p.x) && !p.Not? && !p.Maybe? && !p.Many? && (p.Count? ==> p.n >= 1)
  {}

  lemma EarlyOfWrap(an: set<nat>, ranks: seq<nat>, top: nat, r: nat, p: Parser)
    requires Wraps(p)
    ensures Early(an, ranks, top, r, p) <==>
        Early(an, ranks, top, r, p.x) && (p.Many? || p.Many1? ==> Advances(an, p.x))
  {
    hide Advances;
  }

  lemma OrKeepsEarly(an: set<nat>, ranks: seq<nat>, top: nat, r: nat, xs: seq<Parser>)
    requires forall i | 0 <= i < |xs| :: (Advances(an, Optimise(xs[i])) <==> Advances(an, xs[i]))
    requires forall i | 0 <= i < |xs| :: (Early(an, ranks, top, r, Optimise(xs[i])) <==>
        Early(an, ranks, top, r, xs[i]))
    ensures Advances(an, Or(OptimiseAll(xs))) <==> Advances(an, Or(xs))
    ensures Early(an, ranks, top, r, Or(OptimiseAll(xs))) <==> Early(an, ranks, top, r, Or(xs))
  {
    var ys := OptimiseAll(xs);
    OrAdvances(an, xs);
    OrEarly(an, ranks, top, r, xs);
    OrAdvances(an, ys);
    OrEarly(an, ranks, top, r, ys);
    hide Optimise, OptimiseAll, Advances, Early;
    assert forall i | 0 <= i < |xs| :: ys[i] == Optimise(xs[i]);
    if forall i | 0 <= i < |xs| ::
        Advances(an, ys[i]) { assert forall i | 0 <= i < |xs| :: Advances(an, Optimise(xs[i])); }
    if forall i | 0 <= i < |xs| :: Early(an, ranks, top, r, ys[i]) {
      assert forall i | 0 <= i < |xs| :: Early(an, ranks, top, r, Optimise(xs[i]));
    }
  }

  lemma {:induction false} AllKeepEarly(an: set<nat>, ranks: seq<nat>, top: nat, r: nat, xs: seq<Parser>)
    requires forall i | 0 <= i < |xs| :: Filled(xs[i])
    ensures SomeAdvances(an, OptimiseAll(xs)) <==> SomeAdvances(an, xs)
    ensures EarlyAll(an, ranks, top, r, OptimiseAll(xs)) <==> EarlyAll(an, ranks, top, r, xs)
    decreases xs, 0
  {
    hide Advances, Early, Optimise, Filled;
    if xs != [] {
      OptimiseKeepsEarly(an, ranks, top, r, xs[0]);
      AllKeepEarly(an, ranks, top, if Advances(an, xs[0]) then top + 1 else r, xs[1..]);
      var ys := OptimiseAll(xs);
      assert ys[0] == Optimise(xs[0]) && ys[1..] == OptimiseAll(xs[1..]);
      FirstOrRest(an, xs);
      FirstOrRest(an, ys);
    }
  }

  /** So with fuel for the rest of the input no run of a ranked grammar is endless, before and after all
      its names are optimised. */
  lemma GrammarEnds(an: set<nat>, ranks: seq<nat>, top: nat, g: Grammar, input: string, id: nat, c: Cursor,
      backtrack: int, fuel: nat)
    requires Ranked(an, ranks, top, g) && forall k | 0 <= k < |g| :: Filled(g[k])
    requires c.state.pos <= |input| && Need(input, c, top, top + 1) <= fuel
    ensures !Run(g, input, Ref(id), c, backtrack, fuel).Endless?
    ensures !Run(OptimiseAll(g), input, Ref(id), c, backtrack, fuel).Endless?
  {
    RankedAfter(an, ranks, top, g);
    AnyName(an, ranks, top, g, id);
    hide Run, Ranked, Early, Need, Filled;
    RunEnds(an, ranks, top, top + 1, g, input, Ref(id), c, backtrack, fuel);
    RunEnds(an, ranks, top, top + 1, OptimiseAll(g), input, Ref(id), c, backtrack, fuel);
  }

  lemma AnyName(an: set<nat>, ranks: seq<nat>, top: nat, g: Grammar, id: nat)
    requires Ranked(an, ranks, top, g)
    ensures Early(an, ranks, top, top + 1, Ref(id))
  {}

  lemma RankedAfter(an: set<nat>, ranks: seq<nat>, top: nat, g: Grammar)
    requires Ranked(an, ranks, top, g) && forall k | 0 <= k < |g| :: Filled(g[k])
    ensures Ranked(an, ranks, top, OptimiseAll(g))
  {
    hide Advances, Early, Optimise, Filled;
    var h := OptimiseAll(g);
    forall k | 0 <= k < |g| ensures Early(an, ranks, top, ranks[k], h[k]) && (k in an ==> Advances(an, h[k])) {
      assert Early(an, ranks, top, ranks[k], g[k]) && (k in an ==> Advances(an, g[k]));
      OptimiseKeepsEarly(an, ranks, top, ranks[k], g[k]);
    }
  }
}
