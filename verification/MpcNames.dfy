/** Named parsers that are optimised where they stand, one after the other. Each optimises the body of
    its name; one whose root is copied over loses its mark, and others then look through it. */
module MpcNames {
  import opened Options
  import opened MpcAst
  import opened MpcParser
  import opened MpcBacktrack
  import opened MpcOptimise
  import opened MpcLeaves
  import opened MpcRules
  import opened MpcOptimisable
  import opened MpcCoded
  import opened MpcSoundness

  /** The bodies of the names, and the names that are no longer marked as such. */
  datatype Names = Names(bodies: Grammar, lost: set<nat>)

  /** p refers to none of these names. */
  predicate Avoids(p: Parser, lost: set<nat>)
    decreases p
  {
    && (p.Ref? ==> p.id !in lost)
    && (Wraps(p) ==> Avoids(p.x, lost))
    && (Lists(p) ==> forall i | 0 <= i < |p.xs| :: Avoids(p.xs[i], lost))
  }

  /** Optimises the name id in place. None when that has no meaning, or when it would enter a parser
      that others hold and that is no longer marked as a name. */
  function OptimiseName(names: Names, id: nat): Option<Names>
    requires id < |names.bodies|
  {
    var p := names.bodies[id];
    if !Avoids(p, names.lost) then None
    else
      match CodedOptimise(p)
      case None => None
      case Some(q) => Some(Names(names.bodies[id := q], if KeepsName(p) then names.lost else names.lost + {id}))
  }

  function OptimiseNames(names: Names, ids: seq<nat>): (r: Option<Names>)
    requires forall i | 0 <= i < |ids| :: ids[i] < |names.bodies|
    ensures r.Some? ==> |r.value.bodies| == |names.bodies| && names.lost <= r.value.lost
    decreases |ids|
  {
    if ids == [] then Some(names)
    else
      match OptimiseName(names, ids[0])
      case None => None
      case Some(next) => OptimiseNames(next, ids[1..])
  }

  /** The bodies with those of the names ids optimised. */
  function Bound(g: Grammar, ids: seq<nat>): (h: Grammar)
    ensures |h| == |g|
  {
    seq(|g|, id requires 0 <= id < |g| => if id in ids then Optimise(g[id]) else g[id])
  }

  lemma {:induction false} AvoidsNone(p: Parser)
    ensures Avoids(p, {})
    decreases p
  {
    if Wraps(p) {
      AvoidsNone(p.x);
    } else if Lists(p) {
      forall i | 0 <= i < |p.xs| ensures Avoids(p.xs[i], {}) { AvoidsNone(p.xs[i]); }
    }
  }

  /** A body that may be optimised in place under its name. */
  predicate Stable(p: Parser) {
    Safe(p) && KeepsName(p)
  }

  lemma OptimiseStable(p: Parser)
    requires Safe(p)
    ensures CodedOptimise(p) == Some(Optimise(p)) && Stable(Optimise(p)) && Optimise(Optimise(p)) == Optimise(p)
  {
    CodedExactly(p);
    SafeIsFilled(p);
    OptimiseIsNormal(p);
    OptimiseKeepsFilled(p);
    hide Optimise, Safe, KeepsName, Normal, Filled, Rebuild;
    NormalIsSafe(Optimise(p));
    NormalKeepsName(Optimise(p));
    OptimiseTwice(p);
  }

  lemma OneName(g: Grammar, id: nat)
    requires id < |g|
    ensures Stable(g[id]) ==> OptimiseName(Names(g, {}), id) == Some(Names(g[id := Optimise(g[id])], {}))
    ensures !Stable(g[id]) ==> OptimiseName(Names(g, {}), id).None? || OptimiseName(Names(g, {}), id).value.lost != {}
  {
    AvoidsNone(g[id]);
    CodedExactly(g[id]);
    hide Avoids, CodedOptimise, Optimise, Safe, KeepsName;
    assert id in {} + {id};
  }

  /** In place, names can be optimised one after the other and all stay names exactly when the body of
      each is safe and does not come down to the second of two elements; then the bodies are those
      they are meant to become. */
  lemma {:induction false} InPlaceExactly(g: Grammar, ids: seq<nat>)
    requires forall i | 0 <= i < |ids| :: ids[i] < |g|
    ensures var r := OptimiseNames(Names(g, {}), ids);
      && (r.Some? && r.value.lost == {} <==> forall i | 0 <= i < |ids| :: Stable(g[ids[i]]))
      && (r.Some? && r.value.lost == {} ==> r.value.bodies == Bound(g, ids))
    decreases |ids|
  {
    hide OptimiseName, Optimise, Stable;
    if ids == [] {
      assert Bound(g, []) == g;
    } else {
      var id, rest := ids[0], ids[1..];
      var h := g[id := Optimise(g[id])];
      OneName(g, id);
      assert ids == [id] + rest;
      if Stable(g[id]) {
        InPlaceExactly(h, rest);
        StableAfter(g, id, rest);
      }
    }
  }

  /** Optimising one body first changes nothing for the others, nor for itself when it comes again. */
  lemma StableAfter(g: Grammar, id: nat, ids: seq<nat>)
    requires id < |g| && Stable(g[id]) && forall i | 0 <= i < |ids| :: ids[i] < |g|
    ensures var h := g[id := Optimise(g[id])];
      && (forall i | 0 <= i < |ids| :: Stable(h[ids[i]]) <==> Stable(g[ids[i]]))
      && Bound(h, ids) == Bound(g, [id] + ids)
  {
    OptimiseStable(g[id]);
    hide Optimise, Stable;
  }

  /** So optimising such names in place preserves every run of every name. */
  lemma InPlaceSound(nn: set<nat>, rn: set<nat>, g: Grammar, ids: seq<nat>, input: string, id: nat, c: Cursor,
      backtrack: int, fuel: nat)
    requires KnownNames(nn, rn, g)
    requires forall i | 0 <= i < |ids| :: ids[i] < |g| && Stable(g[ids[i]]) && Fit(nn, rn, g[ids[i]])
    ensures var r := OptimiseNames(Names(g, {}), ids);
      && r.Some?
      && Refines(Run(g, input, Ref(id), c, backtrack, fuel), Run(r.value.bodies, input, Ref(id), c, backtrack, fuel))
  {
    InPlaceExactly(g, ids);
    NameItself(nn, rn, id);
    hide Run, Optimise, Stable, Fit, OptimiseNames;
    var h := Bound(g, ids);
    forall k | 0 <= k < |g| ensures Kept(nn, rn, g[k], h[k]) {
      if k in ids {
        var i :| 0 <= i < |ids| && ids[i] == k;
        assert Fit(nn, rn, g[ids[i]]);
      }
    }
    OptimiseSound(nn, rn, g, h, input, Ref(id), c, backtrack, fuel);
  }

  lemma NameItself(nn: set<nat>, rn: set<nat>, id: nat)
    ensures Fit(nn, rn, Ref(id)) && Optimise(Ref(id)) == Ref(id)
  {}

  // ----- a name that is lost -----

  /** The name 0 is a pass before a and b, the name 1 is the name 0 before c. */
  function TwoNames(): Grammar {
    [And(FoldTree, [Pass, PairOfLetters()]), And(FoldTree, [Ref(0), Single('c')])]
  }

  function PairOfLetters(): Parser {
    And(FoldTree, [Single('a'), Single('b')])
  }

  lemma PairIsOptimal()
    ensures Normal(PairOfLetters()) && Filled(PairOfLetters()) && Safe(PairOfLetters())
    ensures !Remains(PairOfLetters()).Ref?
  {
    NormalIsSafe(PairOfLetters());
  }

  /** Optimised in place, the name 0 loses its mark. The name 1 would keep a reference to a name as it
      is, but merges what is no longer marked as one. */
  lemma NameIsLost()
    ensures var g := TwoNames();
      && OptimiseName(Names(g, {}), 0) == Some(Names(g[0 := PairOfLetters()], {0}))
      && OptimiseNames(Names(g, {}), [0, 1]) == None
      && CodedOptimise(g[1]) == Some(g[1])
      && CodedOptimise(And(FoldTree, [PairOfLetters(), Single('c')]))
         == Some(And(FoldTree, [Single('a'), Single('b'), Single('c')]))
  {
    hide CodedOptimise, Avoids, KeepsName, PairOfLetters;
    var g := TwoNames();
    var h := g[0 := PairOfLetters()];
    AvoidsNone(g[0]);
    PairIsOptimal();
    BehindPass(PairOfLetters());
    SecondName();
    MergedPair();
    SameSet();
    assert OptimiseName(Names(h, {0}), 1) == None;
    FirstThenSecond(Names(g, {}), Names(h, {0}), 0, 1);
  }

  lemma SameSet()
    ensures {} + {0} == {0}
  {}

  lemma FirstThenSecond(names: Names, next: Names, a: nat, b: nat)
    requires a < |names.bodies| && b < |names.bodies| == |next.bodies|
    requires OptimiseName(names, a) == Some(next) && OptimiseName(next, b) == None
    ensures OptimiseNames(names, [a, b]) == None
  {
    hide OptimiseName;
    assert [a, b][1..] == [b];
  }

  /** A pass before a parser is dropped, and the root with it. */
  lemma BehindPass(x: Parser)
    requires Normal(x) && Filled(x) && Safe(x) && !Remains(x).Ref?
    ensures var p := And(FoldTree, [Pass, x]); CodedOptimise(p) == Some(x) && !KeepsName(p)
  {
    var p := And(FoldTree, [Pass, x]);
    NormalIsFixed(x);
    KeepsKind(Pass);
    AllOfTwo(Pass, x);
    CodedExactly(p);
    PassPair(x);
    OptimiseEnds(p);
    hide *;
    PassDrops(x);
  }

  lemma PassDrops(x: Parser)
    ensures Drops(FoldTree, [Pass, x])
  {}

  lemma PassPair(x: Parser)
    requires Filled(x) && Safe(x) && !Remains(x).Ref?
    ensures var p := And(FoldTree, [Pass, x]);
        Filled(p) && Safe(p) && IsFoldAnd(p) && p.xs == [Pass, x] && !KeepsName(p)
  {
    hide Remains;
  }

  lemma SecondName()
    ensures CodedOptimise(TwoNames()[1]) == Some(TwoNames()[1]) && !Avoids(TwoNames()[1], {0})
  {
    var p := TwoNames()[1];
    assert !Avoids(p.xs[0], {0});
    assert Normal(p.xs[0]) && Normal(p.xs[1]);
    assert Normal(p) && Filled(p);
    NormalIsSafe(p);
    NormalIsFixed(p);
    CodedExactly(p);
  }

  lemma MergedPair()
    ensures CodedOptimise(And(FoldTree, [PairOfLetters(), Single('c')]))
         == Some(And(FoldTree, [Single('a'), Single('b'), Single('c')]))
  {
    var x, y := PairOfLetters(), Single('c');
    var p := And(FoldTree, [x, y]);
    PairIsOptimal();
    NormalIsFixed(x);
    KeepsKind(y);
    AllOfTwo(x, y);
    CodedExactly(p);
    PairBefore();
    hide Optimise, CodedOptimise, Safe, Filled;
    OptimiseEnds(p);
    EndsOfPair();
  }

  lemma PairBefore()
    ensures var p := And(FoldTree, [PairOfLetters(), Single('c')]); Safe(p) && Filled(p)
  {
    PairIsOptimal();
    assert !ToUnit(FoldTree, PairOfLetters());
    hide ToUnit, Remains, PairOfLetters;
  }

  lemma EndsOfPair()
    ensures var ys := [PairOfLetters(), Single('c')];
      !Drops(FoldTree, ys) && Ends(FoldTree, ys) == [Single('a'), Single('b'), Single('c')]
  {
    var ys := [PairOfLetters(), Single('c')];
    assert ys[1..1] == [];
    assert Leaves(FoldTree, ys[0]) == [Single('a'), Single('b')] && Leaves(FoldTree, ys[1]) == [Single('c')];
  }
}
