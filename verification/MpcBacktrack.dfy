/** What every run of a parser keeps: which failures leave the input alone, and that an
    outcome does not depend on how much fuel was given. */
module MpcBacktrack {
  import opened MpcAst
  import opened MpcParser

  /** Parsers whose failure shows no COUNT and no PREDICT: these two do not rewind. A sequence
      and a negation rewind for themselves, an option and a repeat never fail. The names in rn
      are known to rewind. */
  ghost predicate Restoring(rn: set<nat>, p: Parser) {
    match p
    case Expect(x) => Restoring(rn, x)
    case Apply(x, _) => Restoring(rn, x)
    case ApplyTo(x, _, _) => Restoring(rn, x)
    case Many1(_, x) => Restoring(rn, x)
    case Predict(_) => false
    case Count(_, _, _) => false
    case Or(xs) => forall i | 0 <= i < |xs| :: Restoring(rn, xs[i])
    case Ref(id) => id in rn
    case _ => true
  }

  ghost predicate RestoringGrammar(rn: set<nat>, g: Grammar) {
    forall id | id in rn && id < |g| :: Restoring(rn, g[id])
  }

  /** While backtracking is on, a failing run ends where it began. */
  lemma {:induction false} FailureRestores(rn: set<nat>, g: Grammar, input: string, p: Parser, c: Cursor,
      backtrack: int, fuel: nat)
    requires RestoringGrammar(rn, g) && Restoring(rn, p) && backtrack >= 1
    ensures var o := Run(g, input, p, c, backtrack, fuel); o.Bad? ==> o.to == c
    decreases fuel, p
  {
    match p
    case Expect(x) => FailureRestores(rn, g, input, x, c, backtrack, fuel);
    case Apply(x, _) => FailureRestores(rn, g, input, x, c, backtrack, fuel);
    case ApplyTo(x, _, _) => FailureRestores(rn, g, input, x, c, backtrack, fuel);
    case Many(f, x) => ManyFails(g, input, f, x, false, c, backtrack, [], fuel);
    case Many1(f, x) =>
      FailureRestores(rn, g, input, x, c, backtrack, fuel);
      ManyFails(g, input, f, x, true, c, backtrack, [], fuel);
    case Or(xs) => OrRestores(rn, g, input, xs, c, backtrack, fuel);
    case And(f, xs) => AndFails(g, input, f, xs, c, c, backtrack, [], fuel);
    case Ref(id) => if id < |g| && fuel > 0 { FailureRestores(rn, g, input, g[id], c, backtrack, fuel - 1); }
    case _ =>
  }

  lemma {:induction false} OrRestores(rn: set<nat>, g: Grammar, input: string, xs: seq<Parser>, c: Cursor,
      backtrack: int, fuel: nat)
    requires RestoringGrammar(rn, g) && (forall i | 0 <= i < |xs| :: Restoring(rn, xs[i])) && backtrack >= 1
    ensures var o := RunOr(g, input, xs, c, backtrack, fuel); o.Bad? ==> o.to == c
    decreases fuel, xs
  {
    if xs != [] {
      FailureRestores(rn, g, input, xs[0], c, backtrack, fuel);
      OrRestores(rn, g, input, xs[1..], c, backtrack, fuel);
    }
  }

  /** A repeat fails only in its first round, and as its body does. */
  lemma {:induction false} ManyFails(g: Grammar, input: string, f: Fold, x: Parser, once: bool, c: Cursor,
      backtrack: int, vs: seq<Val>, fuel: nat)
    ensures var o := RunMany(g, input, f, x, once, c, backtrack, vs, fuel);
            o.Bad? ==> once && vs == [] && Run(g, input, x, c, backtrack, fuel) == o
    decreases fuel
  {
    var o := Run(g, input, x, c, backtrack, fuel);
    if o.Ok? && fuel > 0 {
      ManyFails(g, input, f, x, once, o.to, backtrack, vs + [o.v], fuel - 1);
    }
  }

  /** A sequence that fails has rewound to its beginning. */
  lemma {:induction false} AndFails(g: Grammar, input: string, f: Fold, xs: seq<Parser>, from: Cursor, c: Cursor,
      backtrack: int, vs: seq<Val>, fuel: nat)
    requires backtrack >= 1
    ensures var o := RunAnd(g, input, f, xs, from, c, backtrack, vs, fuel); o.Bad? ==> o.to == from
    decreases xs
  {
    if xs != [] {
      var o := Run(g, input, xs[0], c, backtrack, fuel);
      if o.Ok? {
        AndFails(g, input, f, xs[1..], from, o.to, backtrack, vs + [o.v], fuel);
      }
    }
  }

  /** COUNT is a real exception: two digits wanted, one digit there, and the failure has eaten it. */
  lemma CountDoesNotRestore()
    ensures var twoDigits := Count(2, StrFold, OneOf("0123456789"));
            var o := Run([], "1a", twoDigits, BEGIN, 1, 0);
            o.Bad? && o.to != BEGIN
  {}

  // ----- fuel -----

  /** Fuel only decides whether an outcome is reached, never which one. */
  lemma {:induction false} MoreFuel(g: Grammar, input: string, p: Parser, c: Cursor, backtrack: int, fuel: nat,
      more: nat)
    requires fuel <= more && Run(g, input, p, c, backtrack, fuel) != Endless
    ensures Run(g, input, p, c, backtrack, more) == Run(g, input, p, c, backtrack, fuel)
    decreases fuel, p, 1
  {
    match p
    case Expect(x) => MoreFuel(g, input, x, c, backtrack, fuel, more);
    case Apply(x, _) => MoreFuel(g, input, x, c, backtrack, fuel, more);
    case ApplyTo(x, _, _) => MoreFuel(g, input, x, c, backtrack, fuel, more);
    case Predict(x) => MoreFuel(g, input, x, c, backtrack - 1, fuel, more);
    case Not(x, _) => MoreFuel(g, input, x, c, backtrack, fuel, more);
    case Maybe(x, _) => MoreFuel(g, input, x, c, backtrack, fuel, more);
    case Many(f, x) => MoreFuelMany(g, input, f, x, false, c, backtrack, [], fuel, more);
    case Many1(f, x) => MoreFuelMany(g, input, f, x, true, c, backtrack, [], fuel, more);
    case Count(n, f, x) => MoreFuelCount(g, input, n, f, x, c, backtrack, [], fuel, more);
    case Or(xs) => if xs != [] { MoreFuelOr(g, input, xs, c, backtrack, fuel, more); }
    case And(f, xs) => if xs != [] { MoreFuelAnd(g, input, f, xs, c, c, backtrack, [], fuel, more); }
    case Ref(id) => if id < |g| { MoreFuel(g, input, g[id], c, backtrack, fuel - 1, more - 1); }
    case _ =>
  }

  lemma {:induction false} MoreFuelMany(g: Grammar, input: string, f: Fold, x: Parser, once: bool, c: Cursor,
      backtrack: int, vs: seq<Val>, fuel: nat, more: nat)
    requires fuel <= more && RunMany(g, input, f, x, once, c, backtrack, vs, fuel) != Endless
    ensures RunMany(g, input, f, x, once, c, backtrack, vs, more) ==
        RunMany(g, input, f, x, once, c, backtrack, vs, fuel)
    decreases fuel, x, 2
  {
    hide *;
    ManyUnfolds(g, input, f, x, once, c, backtrack, vs, fuel);
    ManyUnfolds(g, input, f, x, once, c, backtrack, vs, more);
    MoreFuel(g, input, x, c, backtrack, fuel, more);
    var o := Run(g, input, x, c, backtrack, fuel);
    if o.Ok? {
      MoreFuelMany(g, input, f, x, once, o.to, backtrack, vs + [o.v], fuel - 1, more - 1);
    }
  }

  lemma {:induction false} MoreFuelCount(g: Grammar, input: string, n: int, f: Fold, x: Parser, c: Cursor,
      backtrack: int, vs: seq<Val>, fuel: nat, more: nat)
    requires fuel <= more && RunCount(g, input, n, f, x, c, backtrack, vs, fuel) != Endless
    ensures RunCount(g, input, n, f, x, c, backtrack, vs, more) == RunCount(g, input, n, f, x, c, backtrack, vs, fuel)
    decreases fuel, x, 2, 4 - |vs| + (if n > 4 then n else 4)
  {
    hide Run, Folded;
    if !(n <= |vs| && 4 <= |vs|) {
      hide *;
      CountUnfolds(g, input, n, f, x, c, backtrack, vs, fuel);
      CountUnfolds(g, input, n, f, x, c, backtrack, vs, more);
      MoreFuel(g, input, x, c, backtrack, fuel, more);
      var o := Run(g, input, x, c, backtrack, fuel);
      if o.Ok? && |vs| + 1 != n {
        MoreFuelCount(g, input, n, f, x, o.to, backtrack, vs + [o.v], fuel, more);
      }
    }
  }

  lemma {:induction false} MoreFuelOr(g: Grammar, input: string, xs: seq<Parser>, c: Cursor, backtrack: int,
      fuel: nat, more: nat)
    requires fuel <= more && RunOr(g, input, xs, c, backtrack, fuel) != Endless
    ensures RunOr(g, input, xs, c, backtrack, more) == RunOr(g, input, xs, c, backtrack, fuel)
    decreases fuel, xs, 0
  {
    if xs != [] {
      MoreFuel(g, input, xs[0], c, backtrack, fuel, more);
      var o := Run(g, input, xs[0], c, backtrack, fuel);
      if o.Bad? { MoreFuelOr(g, input, xs[1..], o.to, backtrack, fuel, more); }
    }
  }

  lemma {:induction false} MoreFuelAnd(g: Grammar, input: string, f: Fold, xs: seq<Parser>, from: Cursor, c: Cursor,
      backtrack: int, vs: seq<Val>, fuel: nat, more: nat)
    requires fuel <= more && RunAnd(g, input, f, xs, from, c, backtrack, vs, fuel) != Endless
    ensures RunAnd(g, input, f, xs, from, c, backtrack, vs, more) ==
        RunAnd(g, input, f, xs, from, c, backtrack, vs, fuel)
    decreases fuel, xs, 0
  {
    if xs != [] {
      MoreFuel(g, input, xs[0], c, backtrack, fuel, more);
      var o := Run(g, input, xs[0], c, backtrack, fuel);
      if o.Ok? { MoreFuelAnd(g, input, f, xs[1..], from, o.to, backtrack, vs + [o.v], fuel, more); }
    }
  }
}
