/** What a parser accepts, said of the text alone: from which character to which it succeeds, with which
    result, and where it fails. Each clause tells of successes and failures of the parsers inside. */
module MpcMeaning {
  import opened Options
  import opened Slices
  import opened MpcAst
  import opened MpcParser
  import opened MpcText
  import opened MpcBacktrack
  import opened MpcRules

  // ----- characters and words -----

  predicate ReadsOne(p: Parser) {
    p.Any? || p.Single? || p.OneOf? || p.NoneOf? || p.Range? || p.Satisfy?
  }

  predicate Accepts(p: Parser, ch: char)
    requires ReadsOne(p)
  {
    match p
    case Any => true
    case Single(c) => ch == c
    case OneOf(s) => exists k | 0 <= k < |s| :: s[k] == ch
    case NoneOf(s) => forall k | 0 <= k < |s| :: s[k] != ch
    case Range(lo, hi) => lo as int <= ch as int <= hi as int
    case Satisfy(test) => test(ch)
  }

  predicate AcceptsAt(p: Parser, text: string, i: nat)
    requires ReadsOne(p)
  {
    i < |text| && Accepts(p, text[i])
  }

  predicate WordAt(text: string, i: nat, s: string) {
    i + |s| <= |text| && forall k | 0 <= k < |s| :: text[i + k] == s[k]
  }

  /** The text agrees with s for just n characters. */
  predicate Agrees(text: string, i: nat, s: string, n: nat) {
    n < |s| && WordAt(text, i, s[..n]) && !WordAt(text, i, s[..n + 1])
  }

  predicate IsLeaf(p: Parser) {
    !Wraps(p) && !Lists(p) && !p.Ref?
  }

  predicate LeafSucceeds(text: string, p: Parser, i: nat, v: Val, j: nat)
    requires i <= |text|
  {
    if p.Pass? then v == Null && j == i
    else if p.Lift? then Makes(p.lf, v) && j == i
    else if p.LiftVal? then v == p.v && j == i
    else if p.State? then v == Place(Standing(text, i).state) && j == i
    else if p.Anchor? then p.holds(Before(text, i), After(text, i)) && v == Null && j == i
    else if ReadsOne(p) then AcceptsAt(p, text, i) && v == Str([text[i]]) && j == i + 1
    else p.Literal? && WordAt(text, i, p.s) && v == Str(p.s) && j == i + |p.s|
  }

  predicate Makes(lf: Ctor, v: Val) {
    match lf
    case CtorNull => v.Null?
    case CtorStr => v.Str? && |v.s| == 0
    case UserCtor(w) => v == w
  }

  /** A word that does not stand there is left as soon as that shows, and the input goes back to its
      beginning while marks are set. */
  predicate LeafFails(text: string, p: Parser, depth: int, i: nat, j: nat)
    requires i <= |text|
  {
    if p.Undefined? || p.Fail? then j == i
    else if p.Anchor? then !p.holds(Before(text, i), After(text, i)) && j == i
    else if ReadsOne(p) then !AcceptsAt(p, text, i) && j == i
    else p.Literal? && exists n | 0 <= n < |p.s| :: Agrees(text, i, p.s, n) && j == Left(depth, i, i + n)
  }

  /** Where a parser that has set a mark at i is left when it fails at j. */
  function Left(depth: int, i: nat, j: nat): nat {
    if depth >= 1 then i else j
  }

  // ----- folds -----

  /** How many characters the first n strings have. */
  function CharsBefore(vs: seq<Val>, n: nat): nat
    requires AllStr(vs) && n <= |vs|
  {
    if n == 0 then 0 else CharsBefore(vs, n - 1) + |vs[n - 1].s|
  }

  /** The strings one behind the other. */
  predicate IsGlued(vs: seq<Val>, s: string)
    requires AllStr(vs)
  {
    |s| == CharsBefore(vs, |vs|) && FirstWords(vs, s, |vs|)
  }

  predicate FirstWords(vs: seq<Val>, s: string, n: nat)
    requires AllStr(vs) && n <= |vs|
  {
    forall k | 0 <= k < n :: WordAt(s, CharsBefore(vs, k), vs[k].s)
  }

  predicate Folds(f: Fold, vs: seq<Val>, v: Val) {
    match f
    case StrFold => AllStr(vs) && v.Str? && IsGlued(vs, v.s)
    case FoldTree => FoldsTree(vs, v)
    case Nth(k) => k < |vs| && v == vs[k]
    case NullFold => v.Null?
    case StateTree =>
      && |vs| >= 2 && vs[0].Place?
      && ((vs[1].Null? && v.Null?)
          || (vs[1].Tree? && v.Tree? && v.a.state == vs[0].at && v.a.tag == vs[1].a.tag
              && v.a.contents == vs[1].a.contents && v.a.children == vs[1].a.children))
    case UserFold(h) => h(vs) == Some(v)
  }

  /** A result on its own, or the other one beside NULL, is handed through; more of them must be trees. */
  predicate FoldsTree(vs: seq<Val>, v: Val) {
    if |vs| == 0 then v.Null?
    else if |vs| == 1 || (|vs| == 2 && vs[1].Null?) then v == vs[0]
    else if |vs| == 2 && vs[0].Null? then v == vs[1]
    else AllTreeOrNull(vs) && v.Tree? && IsFold(AsParts(vs), Present(v.a))
  }

  // ----- success and failure -----

  /** The parser succeeds on the characters from i to j and yields v. Marks count while the depth is
      at least one. */
  least predicate Succeeds(g: Grammar, text: string, p: Parser, depth: int, i: nat, v: Val, j: nat)
  {
    match p
    case Expect(x) => Succeeds(g, text, x, depth, i, v, j)
    case Apply(x, f) => exists w :: Succeeds(g, text, x, depth, i, w, j) && f(w) == Some(v)
    case ApplyTo(x, f, d) => exists w :: Succeeds(g, text, x, depth, i, w, j) && f(w, d) == Some(v)
    case Predict(x) => Succeeds(g, text, x, depth - 1, i, v, j)
    case Not(x, lf) => Makes(lf, v) && Fails(g, text, x, depth, i, j)
    case Maybe(x, lf) => Succeeds(g, text, x, depth, i, v, j) || (Makes(lf, v) && Fails(g, text, x, depth, i, j))
    case Many(f, x) => exists vs :: Rounds(g, text, x, depth, i, vs, j) && Folds(f, vs, v)
    case Many1(f, x) => exists vs :: vs != [] && Rounds(g, text, x, depth, i, vs, j) && Folds(f, vs, v)
    case Count(n, f, x) =>
      if n == 0 then Fails(g, text, x, depth, i, j) && Folds(f, [], v)
      else n > 0 && exists vs :: InTurn(g, text, seq(n, _ => x), depth, i, vs, j) && Folds(f, vs, v)
    case Or(xs) => if xs == [] then v.Null? && j == i else FirstSucceeds(g, text, xs, depth, i, v, j)
    case And(f, xs) =>
      if xs == [] then v.Null? && j == i
      else exists vs :: InTurn(g, text, xs, depth, i, vs, j) && Folds(f, vs, v)
    case Ref(id) => id < |g| && Succeeds(g, text, g[id], depth, i, v, j)
    case _ => i <= |text| && LeafSucceeds(text, p, i, v, j)
  }

  /** The parser fails at the character i and leaves the input at j. */
  least predicate Fails(g: Grammar, text: string, p: Parser, depth: int, i: nat, j: nat)
  {
    match p
    case Expect(x) => Fails(g, text, x, depth, i, j)
    case Apply(x, _) => Fails(g, text, x, depth, i, j)
    case ApplyTo(x, _, _) => Fails(g, text, x, depth, i, j)
    case Predict(x) => Fails(g, text, x, depth - 1, i, j)
    case Not(x, _) => exists v, m: nat :: Succeeds(g, text, x, depth, i, v, m) && j == Left(depth, i, m)
    case Maybe(_, _) => false
    case Many(_, _) => false
    case Many1(_, x) => Fails(g, text, x, depth, i, j)
    case Count(n, _, x) => exists vs :: TooFew(n, |vs|) && Rounds(g, text, x, depth, i, vs, j)
    case Or(xs) => xs != [] && AllFail(g, text, xs, depth, i, j)
    case And(_, xs) => exists m: nat :: OneFails(g, text, xs, depth, i, m) && j == Left(depth, i, m)
    case Ref(id) => if id < |g| then Fails(g, text, g[id], depth, i, j) else j == i
    case _ => i <= |text| && LeafFails(text, p, depth, i, j)
  }

  /** A count of n has not come to n results, nor over its four slots. */
  predicate TooFew(n: int, found: nat) {
    if n >= 1 then found < n else found < 4 && found != n
  }

  /** All in a row, each from where the one before stopped. */
  least predicate InTurn(g: Grammar, text: string, xs: seq<Parser>, depth: int, i: nat, vs: seq<Val>, j: nat)
  {
    if xs == [] then vs == [] && j == i
    else
      && vs != []
      && exists m: nat :: Succeeds(g, text, xs[0], depth, i, vs[0], m) && InTurn(g, text, xs[1..], depth, m, vs[1..], j)
  }

  /** As often as x succeeds, up to its first failure. */
  least predicate Rounds(g: Grammar, text: string, x: Parser, depth: int, i: nat, vs: seq<Val>, j: nat)
  {
    if vs == [] then Fails(g, text, x, depth, i, j)
    else exists m: nat :: Succeeds(g, text, x, depth, i, vs[0], m) && Rounds(g, text, x, depth, m, vs[1..], j)
  }

  /** The first that succeeds, each tried from where the one before left the input. */
  least predicate FirstSucceeds(g: Grammar, text: string, xs: seq<Parser>, depth: int, i: nat, v: Val, j: nat)
  {
    && xs != []
    && (Succeeds(g, text, xs[0], depth, i, v, j)
        || exists m: nat :: Fails(g, text, xs[0], depth, i, m) && FirstSucceeds(g, text, xs[1..], depth, m, v, j))
  }

  least predicate AllFail(g: Grammar, text: string, xs: seq<Parser>, depth: int, i: nat, j: nat)
  {
    if xs == [] then j == i
    else exists m: nat :: Fails(g, text, xs[0], depth, i, m) && AllFail(g, text, xs[1..], depth, m, j)
  }

  /** Some succeed in a row and the next one fails. */
  least predicate OneFails(g: Grammar, text: string, xs: seq<Parser>, depth: int, i: nat, j: nat)
  {
    && xs != []
    && (Fails(g, text, xs[0], depth, i, j)
        || exists v, m: nat ::
             Succeeds(g, text, xs[0], depth, i, v, m) && OneFails(g, text, xs[1..], depth, m, j))
  }

  // ----- folds and leaves are as they are run -----

  lemma {:induction false} GluedUpTo(vs: seq<Val>, s: string, n: nat)
    requires AllStr(vs) && n <= |vs| && CharsBefore(vs, n) <= |s|
    ensures |Concat(vs[..n])| == CharsBefore(vs, n)
    ensures FirstWords(vs, s, n) <==> s[..CharsBefore(vs, n)] == Concat(vs[..n])
    decreases n
  {
    hide WordAt, FirstWords, Concat;
    if n == 0 {
      NothingGlued(vs, s);
    } else {
      var m := n - 1;
      GluedUpTo(vs, s, m);
      OneMoreWord(vs, s, n);
      ConcatMore(vs, m);
      WordIsSlice(s, CharsBefore(vs, m), vs[m].s);
      SameHalves(s, CharsBefore(vs, m), CharsBefore(vs, n), Concat(vs[..m]), vs[m].s);
    }
  }

  lemma NothingGlued(vs: seq<Val>, s: string)
    requires AllStr(vs)
    ensures Concat(vs[..0]) == "" && FirstWords(vs, s, 0)
  {}

  lemma ConcatMore(vs: seq<Val>, m: nat)
    requires AllStr(vs) && m < |vs|
    ensures Concat(vs[..m + 1]) == Concat(vs[..m]) + vs[m].s
  {
    hide Concat;
    assert vs[..m + 1] == vs[..m] + [vs[m]];
    ConcatNext(vs[..m], vs[m]);
  }

  lemma OneMoreWord(vs: seq<Val>, s: string, n: nat)
    requires AllStr(vs) && 0 < n <= |vs|
    ensures FirstWords(vs, s, n) <==> FirstWords(vs, s, n - 1) && WordAt(s, CharsBefore(vs, n - 1), vs[n - 1].s)
  {
    hide WordAt, CharsBefore;
  }

  lemma WordIsSlice(text: string, i: nat, s: string)
    requires i + |s| <= |text|
    ensures WordAt(text, i, s) <==> text[i..i + |s|] == s
  {
    var slice := text[i..i + |s|];
    if slice == s {
      forall k | 0 <= k < |s| ensures text[i + k] == s[k] { assert slice[k] == text[i + k]; }
    }
  }

  lemma GluedIsConcat(vs: seq<Val>, s: string)
    requires AllStr(vs)
    ensures IsGlued(vs, s) <==> s == Concat(vs)
  {
    var n := |vs|;
    assert vs[..n] == vs;
    GluedUpTo(vs, seq(CharsBefore(vs, n), _ => NUL), n);
    if |s| == CharsBefore(vs, n) {
      GluedUpTo(vs, s, n);
      assert s[..|s|] == s;
    }
    hide Concat, FirstWords, CharsBefore;
  }

  lemma FoldsExactly(f: Fold, vs: seq<Val>, v: Val)
    ensures Folds(f, vs, v) <==> ApplyFold(f, vs) == Some(v)
  {
    if f.StrFold? && AllStr(vs) {
      if v.Str? { GluedIsConcat(vs, v.s); }
    } else if f.FoldTree? {
      FoldsTreeExactly(vs, v);
    }
    hide IsGlued, Concat, FoldsTree, FoldTreeVals;
  }

  lemma FoldsTreeExactly(vs: seq<Val>, v: Val)
    ensures FoldsTree(vs, v) <==> FoldTreeVals(vs) == Some(v)
  {
    var parts := AsParts(vs);
    if AllTreeOrNull(vs) {
      forall part | part in parts ensures Foldable(part) {
        var k :| 0 <= k < |parts| && parts[k] == part;
        assert TreeOrNull(vs[k]);
      }
      if v.Tree? { FoldStands(parts, Present(v.a)); }
    }
    hide IsFold, FlattenAll, Foldable;
  }

  lemma OneRead(text: string, p: Parser, i: nat)
    requires i <= |text| && ReadsOne(p)
    ensures Run([], text, p, Standing(text, i), 0, 0) ==
        if AcceptsAt(p, text, i) then Ok(Str([text[i]]), Standing(text, i + 1)) else Bad(Standing(text, i))
  {
    StandPosition(text, i);
    if i < |text| { StandingSteps(text, i); }
    hide Standing;
  }

  lemma LeavesRunAlike(g: Grammar, text: string, p: Parser, c: Cursor, depth: int, fuel: nat)
    requires IsLeaf(p) && !p.Literal?
    ensures Run(g, text, p, c, depth, fuel) == Run([], text, p, c, 0, 0)
  {}

  lemma WordDiffers(text: string, i: nat, s: string, n: nat)
    requires n < |s| && i + n <= |text| && (i + n == |text| || text[i + n] != s[n])
    ensures !WordAt(text, i, s[..n + 1]) && !WordAt(text, i, s)
  {
    assert s[..n + 1][n] == s[n];
  }

  lemma WordRead(g: Grammar, text: string, p: Parser, depth: int, i: nat, fuel: nat) returns (j: nat)
    requires i <= |text| && p.Literal?
    ensures j <= |text|
    ensures Run(g, text, p, Standing(text, i), depth, fuel) ==
        if WordAt(text, i, p.s) then Ok(Str(p.s), Standing(text, j)) else Bad(Standing(text, j))
    ensures if WordAt(text, i, p.s) then j == i + |p.s| else LeafFails(text, p, depth, i, j)
  {
    var n := SpellStands(text, i, p.s);
    WordIsSlice(text, i, p.s[..n]);
    if n == |p.s| {
      assert p.s[..n] == p.s;
      j := i + n;
    } else {
      WordDiffers(text, i, p.s, n);
      assert Agrees(text, i, p.s, n);
      j := Left(depth, i, i + n);
    }
    hide Standing, Spell, WordAt;
  }

  /** A run of a leaf succeeds or fails as described. */
  lemma LeafRuns(g: Grammar, text: string, p: Parser, depth: int, i: nat, fuel: nat) returns (j: nat)
    requires i <= |text| && IsLeaf(p)
    ensures j <= |text|
    ensures var o := Run(g, text, p, Standing(text, i), depth, fuel);
      || (o.Ok? && o.to == Standing(text, j) && LeafSucceeds(text, p, i, o.v, j))
      || (o == Bad(Standing(text, j)) && LeafFails(text, p, depth, i, j))
  {
    StandPosition(text, i);
    if p.Literal? {
      j := WordRead(g, text, p, depth, i, fuel);
      hide Run, Standing, WordAt, Agrees;
    } else {
      LeavesRunAlike(g, text, p, Standing(text, i), depth, fuel);
      j := i;
      if ReadsOne(p) {
        OneRead(text, p, i);
        if AcceptsAt(p, text, i) { j := i + 1; }
        hide Run, Accepts;
      }
      hide Standing;
    }
  }

  // ----- what is run is described -----

  /** An outcome is a success or a failure of the parser, or there is none. */
  ghost predicate IsOutcome(g: Grammar, text: string, p: Parser, depth: int, i: nat, o: Outcome) {
    match o
    case Ok(v, to) => Stands(text, to) && Succeeds(g, text, p, depth, i, v, to.state.pos)
    case Bad(to) => Stands(text, to) && Fails(g, text, p, depth, i, to.state.pos)
    case _ => true
  }

  predicate Stands(text: string, to: Cursor) {
    to.state.pos <= |text| && to == Standing(text, to.state.pos)
  }

  lemma {:induction false} RunMeans(g: Grammar, text: string, p: Parser, depth: int, i: nat, fuel: nat)
    requires i <= |text|
    ensures IsOutcome(g, text, p, depth, i, Run(g, text, p, Standing(text, i), depth, fuel))
    decreases fuel, p, 1
  {
    if IsLeaf(p) {
      var j := LeafRuns(g, text, p, depth, i, fuel);
      StandPosition(text, j);
      hide Run, Standing, LeafSucceeds, LeafFails;
    } else if p.Ref? {
      if p.id < |g| && fuel > 0 { RunMeans(g, text, g[p.id], depth, i, fuel - 1); }
      NameMeans(g, text, p, depth, i, fuel);
    } else if p.Many? {
      ManyMeans(g, text, p, depth, i, fuel);
    } else if p.Many1? {
      ManyMeans(g, text, p, depth, i, fuel);
    } else if p.Count? {
      CountMeans(g, text, p, depth, i, fuel);
    } else if p.Or? {
      OrMeans(g, text, p, depth, i, fuel);
    } else if p.And? {
      AndMeans(g, text, p, depth, i, fuel);
    } else {
      RunMeans(g, text, p.x, if p.Predict? then depth - 1 else depth, i, fuel);
      WrapMeans(g, text, p, depth, i, fuel);
    }
  }

  lemma NameMeans(g: Grammar, text: string, p: Parser, depth: int, i: nat, fuel: nat)
    requires i <= |text| && p.Ref?
    requires p.id < |g| && fuel > 0 ==>
        IsOutcome(g, text, g[p.id], depth, i, Run(g, text, g[p.id], Standing(text, i), depth, fuel - 1))
    ensures IsOutcome(g, text, p, depth, i, Run(g, text, p, Standing(text, i), depth, fuel))
  {
    StandPosition(text, i);
    hide Standing;
  }

  /** A parser that runs another one once. */
  predicate RunsOnce(p: Parser) {
    p.Expect? || p.Apply? || p.ApplyTo? || p.Predict? || p.Not? || p.Maybe?
  }

  /** A run of a parser around another one, from the outcome of that one. */
  function Wrapped(p: Parser, c: Cursor, depth: int, o: Outcome): Outcome
    requires RunsOnce(p)
  {
    match p
    case Expect(_) => o
    case Apply(_, f) => Mapped(o, f)
    case ApplyTo(_, f, d) => Mapped(o, v => f(v, d))
    case Predict(_) => o
    case Not(_, lf) => Negated(o, lf, c, depth)
    case Maybe(_, lf) => Allowed(o, lf)
  }

  lemma WrapMeans(g: Grammar, text: string, p: Parser, depth: int, i: nat, fuel: nat)
    requires i <= |text| && RunsOnce(p)
    requires var inner := if p.Predict? then depth - 1 else depth;
      IsOutcome(g, text, p.x, inner, i, Run(g, text, p.x, Standing(text, i), inner, fuel))
    ensures IsOutcome(g, text, p, depth, i, Run(g, text, p, Standing(text, i), depth, fuel))
  {
    hide Standing;
    var c, inner := Standing(text, i), if p.Predict? then depth - 1 else depth;
    assert Run(g, text, p, c, depth, fuel) == Wrapped(p, c, depth, Run(g, text, p.x, c, inner, fuel));
    StandsThere(text, i);
    hide Run, Stands;
    OutcomeWrapped(g, text, p, depth, i, inner, Run(g, text, p.x, c, inner, fuel));
  }

  lemma StandsThere(text: string, i: nat)
    requires i <= |text|
    ensures Stands(text, Standing(text, i)) && Standing(text, i).state.pos == i
  {
    StandPosition(text, i);
  }

  lemma OutcomeWrapped(g: Grammar, text: string, p: Parser, depth: int, i: nat, inner: int, o: Outcome)
    requires i <= |text| && RunsOnce(p) && inner == (if p.Predict? then depth - 1 else depth)
    requires IsOutcome(g, text, p.x, inner, i, o) && Stands(text, Standing(text, i)) && Standing(text, i).state.pos == i
    ensures IsOutcome(g, text, p, depth, i, Wrapped(p, Standing(text, i), depth, o))
  {
    hide Stands, Standing;
  }

  lemma {:induction false} ManyMeans(g: Grammar, text: string, p: Parser, depth: int, i: nat, fuel: nat)
    requires i <= |text| && (p.Many? || p.Many1?)
    ensures IsOutcome(g, text, p, depth, i, Run(g, text, p, Standing(text, i), depth, fuel))
    decreases fuel, p.x, 3
  {
    var vs := RoundsMean(g, text, p.f, p.x, p.Many1?, depth, i, [], fuel);
    assert [] + vs == vs;
    FoldsAll(p.f);
    hide RunMany, Standing, Folds, ApplyFold;
  }

  lemma FoldsAll(f: Fold)
    ensures forall vs, v :: ApplyFold(f, vs) == Some(v) ==> Folds(f, vs, v)
  {
    forall vs, v ensures ApplyFold(f, vs) == Some(v) ==> Folds(f, vs, v) { FoldsExactly(f, vs, v); }
  }

  lemma NoRound(g: Grammar, text: string, x: Parser, depth: int, i: nat, j: nat)
    requires Fails(g, text, x, depth, i, j)
    ensures Rounds(g, text, x, depth, i, [], j)
  {}

  lemma OneRound(g: Grammar, text: string, x: Parser, depth: int, i: nat, v: Val, m: nat, vs: seq<Val>, j: nat)
    requires Succeeds(g, text, x, depth, i, v, m) && Rounds(g, text, x, depth, m, vs, j)
    ensures Rounds(g, text, x, depth, i, [v] + vs, j)
  {
    assert ([v] + vs)[0] == v && ([v] + vs)[1..] == vs;
  }

  /** The outcome of a repeat that has the results before: those of the coming rounds go behind them. */
  ghost predicate AreRounds(g: Grammar, text: string, f: Fold, x: Parser, once: bool, depth: int, i: nat,
      before: seq<Val>, vs: seq<Val>, o: Outcome)
  {
    match o
    case Ok(v, to) =>
      && Stands(text, to) && Rounds(g, text, x, depth, i, vs, to.state.pos)
      && ApplyFold(f, before + vs) == Some(v) && !(once && before + vs == [])
    case Bad(to) => once && before == [] && Stands(text, to) && Fails(g, text, x, depth, i, to.state.pos)
    case _ => true
  }

  lemma LastRound(g: Grammar, text: string, f: Fold, x: Parser, once: bool, depth: int, i: nat, before: seq<Val>,
      o: Outcome)
    requires o.Bad? && IsOutcome(g, text, x, depth, i, o)
    ensures AreRounds(g, text, f, x, once, depth, i, before, [], if once
        && before == [] then o else Folded(f, before, o.to))
  {
    assert before + [] == before;
    NoRound(g, text, x, depth, i, o.to.state.pos);
    hide Standing, ApplyFold;
  }

  lemma RoundBefore(g: Grammar, text: string, f: Fold, x: Parser, once: bool, depth: int, i: nat, before: seq<Val>,
      o: Outcome, rest: seq<Val>, r: Outcome)
    requires o.Ok? && IsOutcome(g, text, x, depth, i, o)
    requires AreRounds(g, text, f, x, once, depth, o.to.state.pos, before + [o.v], rest, r)
    ensures AreRounds(g, text, f, x, once, depth, i, before, [o.v] + rest, r)
  {
    hide Standing, ApplyFold, Succeeds, Fails, Rounds;
    assert before + ([o.v] + rest) == before + [o.v] + rest;
    if r.Ok? { OneRound(g, text, x, depth, i, o.v, o.to.state.pos, rest, r.to.state.pos); }
  }

  lemma {:induction false} RoundsMean(g: Grammar, text: string, f: Fold, x: Parser, once: bool, depth: int, i: nat,
      before: seq<Val>, fuel: nat) returns (vs: seq<Val>)
    requires i <= |text|
    ensures AreRounds(g, text, f, x, once, depth, i, before, vs,
        RunMany(g, text, f, x, once, Standing(text, i), depth, before, fuel))
    decreases fuel, x, 2
  {
    RunMeans(g, text, x, depth, i, fuel);
    ManyUnfolds(g, text, f, x, once, Standing(text, i), depth, before, fuel);
    hide Run, RunMany, Standing, Folded;
    var o := Run(g, text, x, Standing(text, i), depth, fuel);
    vs := [];
    if o.Ok? && fuel > 0 {
      vs := RoundsMean(g, text, f, x, once, depth, o.to.state.pos, before + [o.v], fuel - 1);
      RoundBefore(g, text, f, x, once, depth, i, before, o, vs,
        RunMany(g, text, f, x, once, o.to, depth, before + [o.v], fuel - 1));
      vs := [o.v] + vs;
    } else if o.Bad? {
      LastRound(g, text, f, x, once, depth, i, before, o);
    }
  }

  lemma {:induction false} OrMeans(g: Grammar, text: string, p: Parser, depth: int, i: nat, fuel: nat)
    requires i <= |text| && p.Or?
    ensures IsOutcome(g, text, p, depth, i, Run(g, text, p, Standing(text, i), depth, fuel))
    decreases fuel, p, 0
  {
    StandPosition(text, i);
    if p.xs != [] { ChoiceMeans(g, text, p.xs, depth, i, fuel); }
    hide RunOr, Standing;
  }

  ghost predicate IsChoice(g: Grammar, text: string, xs: seq<Parser>, depth: int, i: nat, o: Outcome) {
    match o
    case Ok(v, to) => Stands(text, to) && FirstSucceeds(g, text, xs, depth, i, v, to.state.pos)
    case Bad(to) => Stands(text, to) && AllFail(g, text, xs, depth, i, to.state.pos)
    case _ => true
  }

  lemma FirstChosen(g: Grammar, text: string, xs: seq<Parser>, depth: int, i: nat, o: Outcome)
    requires xs != [] && !o.Bad? && IsOutcome(g, text, xs[0], depth, i, o)
    ensures IsChoice(g, text, xs, depth, i, o)
  {
    hide Stands;
  }

  lemma LaterChosen(g: Grammar, text: string, xs: seq<Parser>, depth: int, i: nat, m: nat, o: Outcome)
    requires xs != [] && Fails(g, text, xs[0], depth, i, m) && IsChoice(g, text, xs[1..], depth, m, o)
    ensures IsChoice(g, text, xs, depth, i, o)
  {
    hide Stands;
  }

  lemma NoneChosen(g: Grammar, text: string, depth: int, i: nat)
    requires i <= |text|
    ensures IsChoice(g, text, [], depth, i, Bad(Standing(text, i)))
  {
    StandPosition(text, i);
    hide Standing;
  }

  lemma {:induction false} ChoiceMeans(g: Grammar, text: string, xs: seq<Parser>, depth: int, i: nat, fuel: nat)
    requires i <= |text|
    ensures IsChoice(g, text, xs, depth, i, RunOr(g, text, xs, Standing(text, i), depth, fuel))
    decreases fuel, xs, 0
  {
    hide Run, Standing, IsChoice;
    if xs == [] {
      NoneChosen(g, text, depth, i);
    } else {
      RunMeans(g, text, xs[0], depth, i, fuel);
      var o := Run(g, text, xs[0], Standing(text, i), depth, fuel);
      if o.Bad? {
        ChoiceMeans(g, text, xs[1..], depth, o.to.state.pos, fuel);
        LaterChosen(g, text, xs, depth, i, o.to.state.pos, RunOr(g, text, xs[1..], o.to, depth, fuel));
      } else {
        FirstChosen(g, text, xs, depth, i, o);
      }
    }
  }

  lemma {:induction false} AndMeans(g: Grammar, text: string, p: Parser, depth: int, i: nat, fuel: nat)
    requires i <= |text| && p.And?
    ensures IsOutcome(g, text, p, depth, i, Run(g, text, p, Standing(text, i), depth, fuel))
    decreases fuel, p, 0
  {
    StandPosition(text, i);
    if p.xs != [] {
      var vs, m := SequenceMeans(g, text, p.f, p.xs, depth, i, i, [], fuel);
      StandPosition(text, if m <= |text| then m else i);
      assert [] + vs == vs;
      FoldsAll(p.f);
    }
    hide RunAnd, Standing, Folds, ApplyFold;
  }

  /** The outcome of the rest of a sequence that began at from: with m, where one of the rest has failed. */
  ghost predicate IsSequence(g: Grammar, text: string, f: Fold, xs: seq<Parser>, depth: int, from: nat, i: nat,
      before: seq<Val>, vs: seq<Val>, m: nat, o: Outcome)
    requires from <= |text|
  {
    match o
    case Ok(v, to) =>
      && Stands(text, to) && InTurn(g, text, xs, depth, i, vs, to.state.pos)
      && ApplyFold(f, before + vs) == Some(v)
    case Bad(to) =>
      m <= |text| && to == Standing(text, Left(depth, from, m)) && OneFails(g, text, xs, depth, i, m)
    case _ => true
  }

  lemma NoneInTurn(g: Grammar, text: string, f: Fold, depth: int, from: nat, i: nat, before: seq<Val>)
    requires from <= |text| && i <= |text|
    ensures IsSequence(g, text, f, [], depth, from, i, before, [], 0, Folded(f, before, Standing(text, i)))
  {
    StandPosition(text, i);
    assert before + [] == before;
    hide Standing, ApplyFold;
  }

  lemma FirstFails(g: Grammar, text: string, f: Fold, xs: seq<Parser>, depth: int, from: nat, i: nat,
      before: seq<Val>, m: nat)
    requires xs != [] && from <= |text| && m <= |text| && Fails(g, text, xs[0], depth, i, m)
    ensures IsSequence(g, text, f, xs, depth, from, i, before, [], m,
        Bad(Rewound(Standing(text, from), Standing(text, m), depth)))
  {
    hide Standing;
  }

  lemma OneInTurn(g: Grammar, text: string, f: Fold, xs: seq<Parser>, depth: int, from: nat, i: nat,
      before: seq<Val>, v: Val, k: nat, vs: seq<Val>, m: nat, o: Outcome)
    requires xs != [] && from <= |text| && Succeeds(g, text, xs[0], depth, i, v, k)
    requires IsSequence(g, text, f, xs[1..], depth, from, k, before + [v], vs, m, o)
    ensures IsSequence(g, text, f, xs, depth, from, i, before, [v] + vs, m, o)
  {
    hide Standing, Stands, ApplyFold;
    assert before + ([v] + vs) == before + [v] + vs;
    assert ([v] + vs)[0] == v && ([v] + vs)[1..] == vs;
  }

  lemma {:induction false} SequenceMeans(g: Grammar, text: string, f: Fold, xs: seq<Parser>, depth: int, from: nat,
      i: nat, before: seq<Val>, fuel: nat) returns (vs: seq<Val>, m: nat)
    requires from <= |text| && i <= |text|
    ensures IsSequence(g, text, f, xs, depth, from, i, before, vs, m,
        RunAnd(g, text, f, xs, Standing(text, from), Standing(text, i), depth, before, fuel))
    decreases fuel, xs, 0
  {
    hide Run, Standing, IsSequence, Folded;
    vs, m := [], 0;
    if xs == [] {
      NoneInTurn(g, text, f, depth, from, i, before);
    } else {
      RunMeans(g, text, xs[0], depth, i, fuel);
      var o := Run(g, text, xs[0], Standing(text, i), depth, fuel);
      if o.Ok? {
        var k := o.to.state.pos;
        vs, m := SequenceMeans(g, text, f, xs[1..], depth, from, k, before + [o.v], fuel);
        OneInTurn(g, text, f, xs, depth, from, i, before, o.v, k, vs, m,
          RunAnd(g, text, f, xs[1..], Standing(text, from), o.to, depth, before + [o.v], fuel));
        vs := [o.v] + vs;
      } else if o.Bad? {
        m := o.to.state.pos;
        FirstFails(g, text, f, xs, depth, from, i, before, m);
      } else {
        NeitherOutcome(g, text, f, xs, depth, from, i, before, o);
      }
    }
  }

  lemma NeitherOutcome(g: Grammar, text: string, f: Fold, xs: seq<Parser>, depth: int, from: nat, i: nat,
      before: seq<Val>, o: Outcome)
    requires from <= |text| && !o.Ok? && !o.Bad?
    ensures IsSequence(g, text, f, xs, depth, from, i, before, [], 0, o)
  {}

  lemma {:induction false} CountMeans(g: Grammar, text: string, p: Parser, depth: int, i: nat, fuel: nat)
    requires i <= |text| && p.Count?
    ensures IsOutcome(g, text, p, depth, i, Run(g, text, p, Standing(text, i), depth, fuel))
    decreases fuel, p.x, 3
  {
    var vs := CountedMean(g, text, p.n, p.f, p.x, depth, i, [], fuel);
    assert [] + vs == vs;
    FoldsAll(p.f);
    hide RunCount, Standing, Folds, ApplyFold;
  }

  /** The outcome of a count of n that has the results before. */
  ghost predicate IsCounted(g: Grammar, text: string, n: int, f: Fold, x: Parser, depth: int, i: nat,
      before: seq<Val>, vs: seq<Val>, o: Outcome)
    requires n <= 0 || |before| < n
  {
    match o
    case Ok(v, to) =>
      && Stands(text, to) && ApplyFold(f, before + vs) == Some(v)
      && if n <= 0 then n == 0 && before + vs == [] && Fails(g, text, x, depth, i, to.state.pos)
         else InTurn(g, text, seq(n - |before|, _ => x), depth, i, vs, to.state.pos)
    case Bad(to) =>
      Stands(text, to) && TooFew(n, |before + vs|) && Rounds(g, text, x, depth, i, vs, to.state.pos)
    case _ => true
  }

  lemma CountEnds(g: Grammar, text: string, n: int, f: Fold, x: Parser, depth: int, i: nat, before: seq<Val>,
      o: Outcome)
    requires (n <= 0 || |before| < n) && !(n <= |before| && 4 <= |before|)
    requires o.Bad? && IsOutcome(g, text, x, depth, i, o)
    ensures IsCounted(g, text, n, f, x, depth, i, before, [], if |before| == n then Folded(f, before, o.to) else o)
  {
    hide Standing, ApplyFold;
    assert before + [] == before;
    NoRound(g, text, x, depth, i, o.to.state.pos);
  }

  lemma CountFull(g: Grammar, text: string, n: int, f: Fold, x: Parser, depth: int, i: nat, before: seq<Val>,
      o: Outcome)
    requires |before| + 1 == n && o.Ok? && IsOutcome(g, text, x, depth, i, o)
    ensures IsCounted(g, text, n, f, x, depth, i, before, [o.v], Folded(f, before + [o.v], o.to))
  {
    hide Standing, ApplyFold;
    var xs := seq(n - |before|, _ => x);
    assert xs[0] == x && xs[1..] == [] && [o.v][1..] == [];
    assert InTurn(g, text, [], depth, o.to.state.pos, [], o.to.state.pos);
  }

  lemma CountMore(g: Grammar, text: string, n: int, f: Fold, x: Parser, depth: int, i: nat, before: seq<Val>,
      o: Outcome, rest: seq<Val>, r: Outcome)
    requires (n <= 0 || |before| + 1 < n) && o.Ok? && IsOutcome(g, text, x, depth, i, o)
    requires IsCounted(g, text, n, f, x, depth, o.to.state.pos, before + [o.v], rest, r)
    ensures IsCounted(g, text, n, f, x, depth, i, before, [o.v] + rest, r)
  {
    hide Standing, ApplyFold;
    assert before + ([o.v] + rest) == before + [o.v] + rest;
    if r.Bad? {
      OneRound(g, text, x, depth, i, o.v, o.to.state.pos, rest, r.to.state.pos);
    } else if r.Ok? {
      var xs, vs := seq(n - |before|, _ => x), [o.v] + rest;
      assert xs[0] == x && xs[1..] == seq(n - |before + [o.v]|, _ => x) && vs[0] == o.v && vs[1..] == rest;
    }
  }

  lemma CountedNeither(g: Grammar, text: string, n: int, f: Fold, x: Parser, depth: int, i: nat, before: seq<Val>,
      o: Outcome)
    requires (n <= 0 || |before| < n) && !o.Ok? && !o.Bad?
    ensures IsCounted(g, text, n, f, x, depth, i, before, [], o)
  {}

  lemma CountOverflows(g: Grammar, text: string, n: int, f: Fold, x: Parser, c: Cursor, depth: int,
      before: seq<Val>, fuel: nat)
    requires n <= |before| && 4 <= |before|
    ensures RunCount(g, text, n, f, x, c, depth, before, fuel) == Wild
  {}

  lemma {:induction false} CountedMean(g: Grammar, text: string, n: int, f: Fold, x: Parser, depth: int, i: nat,
      before: seq<Val>, fuel: nat) returns (vs: seq<Val>)
    requires i <= |text| && (n <= 0 || |before| < n)
    ensures IsCounted(g, text, n, f, x, depth, i, before, vs,
        RunCount(g, text, n, f, x, Standing(text, i), depth, before, fuel))
    decreases fuel, x, 2, 4 - |before| + (if n > 4 then n else 4)
  {
    hide Run, RunCount, Standing, Folded, IsCounted, Succeeds, Fails;
    vs := [];
    var c := Standing(text, i);
    if n <= |before| && 4 <= |before| {
      CountOverflows(g, text, n, f, x, c, depth, before, fuel);
      CountedNeither(g, text, n, f, x, depth, i, before, Wild);
    } else {
      RunMeans(g, text, x, depth, i, fuel);
      CountUnfolds(g, text, n, f, x, c, depth, before, fuel);
      var o := Run(g, text, x, c, depth, fuel);
      if o.Bad? {
        CountEnds(g, text, n, f, x, depth, i, before, o);
      } else if o.Ok? && |before| + 1 == n {
        CountFull(g, text, n, f, x, depth, i, before, o);
        vs := [o.v];
      } else if o.Ok? {
        vs := CountedMean(g, text, n, f, x, depth, o.to.state.pos, before + [o.v], fuel);
        CountMore(g, text, n, f, x, depth, i, before, o, vs,
          RunCount(g, text, n, f, x, o.to, depth, before + [o.v], fuel));
        vs := [o.v] + vs;
      } else {
        CountedNeither(g, text, n, f, x, depth, i, before, o);
      }
    }
  }

  // ----- what is described is run, with enough fuel -----

  ghost predicate Reaches(g: Grammar, text: string, p: Parser, depth: int, i: nat, o: Outcome)
    requires i <= |text|
  {
    exists fuel: nat :: Run(g, text, p, Standing(text, i), depth, fuel) == o
  }

  /** For the rest of a sequence that began at from, of alternatives, of a repeat and of a count. */
  ghost predicate ReachesAnd(g: Grammar, text: string, f: Fold, xs: seq<Parser>, depth: int, from: nat, i: nat,
      before: seq<Val>, o: Outcome)
    requires from <= |text| && i <= |text|
  {
    exists fuel: nat :: RunAnd(g, text, f, xs, Standing(text, from), Standing(text, i), depth, before, fuel) == o
  }

  ghost predicate ReachesOr(g: Grammar, text: string, xs: seq<Parser>, depth: int, i: nat, o: Outcome)
    requires i <= |text|
  {
    exists fuel: nat :: RunOr(g, text, xs, Standing(text, i), depth, fuel) == o
  }

  ghost predicate ReachesMany(g: Grammar, text: string, f: Fold, x: Parser, once: bool, depth: int, i: nat,
      before: seq<Val>, o: Outcome)
    requires i <= |text|
  {
    exists fuel: nat :: RunMany(g, text, f, x, once, Standing(text, i), depth, before, fuel) == o
  }

  ghost predicate ReachesCount(g: Grammar, text: string, n: int, f: Fold, x: Parser, depth: int, i: nat,
      before: seq<Val>, o: Outcome)
    requires i <= |text|
  {
    exists fuel: nat :: RunCount(g, text, n, f, x, Standing(text, i), depth, before, fuel) == o
  }

  lemma AndStep(g: Grammar, text: string, f: Fold, xs: seq<Parser>, depth: int, from: nat, i: nat,
      before: seq<Val>, v: Val, m: nat, o: Outcome)
    requires xs != [] && from <= |text| && i <= |text| && m <= |text| && o != Endless
    requires Reaches(g, text, xs[0], depth, i, Ok(v, Standing(text, m)))
    requires ReachesAnd(g, text, f, xs[1..], depth, from, m, before + [v], o)
    ensures ReachesAnd(g, text, f, xs, depth, from, i, before, o)
  {
    var a, b, c := Standing(text, i), Standing(text, m), Standing(text, from);
    var k: nat :| Run(g, text, xs[0], a, depth, k) == Ok(v, b);
    var l: nat :| RunAnd(g, text, f, xs[1..], c, b, depth, before + [v], l) == o;
    var fuel := k + l;
    MoreFuel(g, text, xs[0], a, depth, k, fuel);
    MoreFuelAnd(g, text, f, xs[1..], c, b, depth, before + [v], l, fuel);
    hide Run, Standing;
    assert RunAnd(g, text, f, xs, c, a, depth, before, fuel) == o;
  }

  lemma AndStops(g: Grammar, text: string, f: Fold, xs: seq<Parser>, depth: int, from: nat, i: nat,
      before: seq<Val>, m: nat)
    requires xs != [] && from <= |text| && i <= |text| && m <= |text|
    requires Reaches(g, text, xs[0], depth, i, Bad(Standing(text, m)))
    ensures ReachesAnd(g, text, f, xs, depth, from, i, before, Bad(Standing(text, Left(depth, from, m))))
  {
    var a, c := Standing(text, i), Standing(text, from);
    var k: nat :| Run(g, text, xs[0], a, depth, k) == Bad(Standing(text, m));
    hide Run, Standing;
    assert RunAnd(g, text, f, xs, c, a, depth, before, k) == Bad(Standing(text, Left(depth, from, m)));
  }

  lemma AndDone(g: Grammar, text: string, f: Fold, depth: int, from: nat, i: nat, before: seq<Val>)
    requires from <= |text| && i <= |text|
    ensures ReachesAnd(g, text, f, [], depth, from, i, before, Folded(f, before, Standing(text, i)))
  {
    hide Standing, Folded;
    assert RunAnd(g, text, f, [], Standing(text, from), Standing(text, i), depth, before, 0)
        == Folded(f, before, Standing(text, i));
  }

  lemma OrStep(g: Grammar, text: string, xs: seq<Parser>, depth: int, i: nat, m: nat, o: Outcome)
    requires xs != [] && i <= |text| && m <= |text| && o != Endless
    requires Reaches(g, text, xs[0], depth, i, Bad(Standing(text, m))) && ReachesOr(g, text, xs[1..], depth, m, o)
    ensures ReachesOr(g, text, xs, depth, i, o)
  {
    var a, b := Standing(text, i), Standing(text, m);
    var k: nat :| Run(g, text, xs[0], a, depth, k) == Bad(b);
    var l: nat :| RunOr(g, text, xs[1..], b, depth, l) == o;
    var fuel := k + l;
    MoreFuel(g, text, xs[0], a, depth, k, fuel);
    MoreFuelOr(g, text, xs[1..], b, depth, l, fuel);
    hide Run, Standing;
    assert RunOr(g, text, xs, a, depth, fuel) == o;
  }

  lemma OrStops(g: Grammar, text: string, xs: seq<Parser>, depth: int, i: nat, o: Outcome)
    requires xs != [] && i <= |text| && !o.Bad? && Reaches(g, text, xs[0], depth, i, o)
    ensures ReachesOr(g, text, xs, depth, i, o)
  {
    var a := Standing(text, i);
    var k: nat :| Run(g, text, xs[0], a, depth, k) == o;
    hide Run, Standing;
    assert RunOr(g, text, xs, a, depth, k) == o;
  }

  lemma OrDone(g: Grammar, text: string, depth: int, i: nat)
    requires i <= |text|
    ensures ReachesOr(g, text, [], depth, i, Bad(Standing(text, i)))
  {
    hide Standing;
    assert RunOr(g, text, [], Standing(text, i), depth, 0) == Bad(Standing(text, i));
  }

  lemma ManyStep(g: Grammar, text: string, f: Fold, x: Parser, once: bool, depth: int, i: nat, before: seq<Val>,
      v: Val, m: nat, o: Outcome)
    requires i <= |text| && m <= |text| && o != Endless
    requires Reaches(g, text, x, depth, i, Ok(v, Standing(text, m)))
    requires ReachesMany(g, text, f, x, once, depth, m, before + [v], o)
    ensures ReachesMany(g, text, f, x, once, depth, i, before, o)
  {
    hide Run, RunMany, Standing;
    var a, b := Standing(text, i), Standing(text, m);
    var k: nat :| Run(g, text, x, a, depth, k) == Ok(v, b);
    var l: nat :| RunMany(g, text, f, x, once, b, depth, before + [v], l) == o;
    var fuel := k + l + 1;
    MoreFuel(g, text, x, a, depth, k, fuel);
    MoreFuelMany(g, text, f, x, once, b, depth, before + [v], l, fuel - 1);
    ManyUnfolds(g, text, f, x, once, a, depth, before, fuel);
    assert RunMany(g, text, f, x, once, a, depth, before, fuel) == o;
  }

  lemma ManyStops(g: Grammar, text: string, f: Fold, x: Parser, once: bool, depth: int, i: nat, before: seq<Val>,
      m: nat)
    requires i <= |text| && m <= |text| && Reaches(g, text, x, depth, i, Bad(Standing(text, m)))
    ensures once && before == [] ==> ReachesMany(g, text, f, x, once, depth, i, before, Bad(Standing(text, m)))
    ensures !(once && before == []) ==>
        ReachesMany(g, text, f, x, once, depth, i, before, Folded(f, before, Standing(text, m)))
  {
    hide Run, RunMany, Standing, Folded;
    var a, b := Standing(text, i), Standing(text, m);
    var k: nat :| Run(g, text, x, a, depth, k) == Bad(b);
    ManyUnfolds(g, text, f, x, once, a, depth, before, k);
    assert RunMany(g, text, f, x, once, a, depth, before, k) ==
        if once && before == [] then Bad(b) else Folded(f, before, b);
  }

  lemma CountStep(g: Grammar, text: string, n: int, f: Fold, x: Parser, depth: int, i: nat, before: seq<Val>,
      v: Val, m: nat, o: Outcome)
    requires i <= |text| && m <= |text| && o != Endless && !(n <= |before| && 4 <= |before|) && |before| + 1 != n
    requires Reaches(g, text, x, depth, i, Ok(v, Standing(text, m)))
    requires ReachesCount(g, text, n, f, x, depth, m, before + [v], o)
    ensures ReachesCount(g, text, n, f, x, depth, i, before, o)
  {
    hide Run, RunCount, Standing;
    var a, b := Standing(text, i), Standing(text, m);
    var k: nat :| Run(g, text, x, a, depth, k) == Ok(v, b);
    var l: nat :| RunCount(g, text, n, f, x, b, depth, before + [v], l) == o;
    var fuel := k + l;
    MoreFuel(g, text, x, a, depth, k, fuel);
    MoreFuelCount(g, text, n, f, x, b, depth, before + [v], l, fuel);
    CountUnfolds(g, text, n, f, x, a, depth, before, fuel);
    assert RunCount(g, text, n, f, x, a, depth, before, fuel) == o;
  }

  lemma CountStops(g: Grammar, text: string, n: int, f: Fold, x: Parser, depth: int, i: nat, before: seq<Val>,
      o: Outcome)
    requires i <= |text| && !(n <= |before| && 4 <= |before|) && Reaches(g, text, x, depth, i, o)
    requires o.Bad? || (o.Ok? && |before| + 1 == n)
    ensures ReachesCount(g, text, n, f, x, depth, i, before,
        if o.Ok? then Folded(f, before + [o.v], o.to) else if |before| == n then Folded(f, before, o.to) else o)
  {
    var a := Standing(text, i);
    var k: nat :| Run(g, text, x, a, depth, k) == o;
    CountUnfolds(g, text, n, f, x, a, depth, before, k);
    hide Run, RunCount, Standing, Folded;
    assert RunCount(g, text, n, f, x, a, depth, before, k) ==
        if o.Ok? then Folded(f, before + [o.v], o.to) else if |before| == n then Folded(f, before, o.to) else o;
  }

  lemma WrapReaches(g: Grammar, text: string, p: Parser, depth: int, i: nat, o: Outcome)
    requires i <= |text| && RunsOnce(p)
    requires Reaches(g, text, p.x, if p.Predict? then depth - 1 else depth, i, o)
    ensures Reaches(g, text, p, depth, i, Wrapped(p, Standing(text, i), depth, o))
  {
    var c, inner := Standing(text, i), if p.Predict? then depth - 1 else depth;
    var k: nat :| Run(g, text, p.x, c, inner, k) == o;
    hide Standing;
    assert Run(g, text, p, c, depth, k) == Wrapped(p, c, depth, o);
  }

  lemma NameReaches(g: Grammar, text: string, id: nat, depth: int, i: nat, o: Outcome)
    requires i <= |text| && id < |g| && Reaches(g, text, g[id], depth, i, o)
    ensures Reaches(g, text, Ref(id), depth, i, o)
  {
    var c := Standing(text, i);
    var k: nat :| Run(g, text, g[id], c, depth, k) == o;
    hide Standing;
    assert Run(g, text, Ref(id), c, depth, k + 1) == o;
  }

  lemma NoNameReaches(g: Grammar, text: string, id: nat, depth: int, i: nat)
    requires i <= |text| && id >= |g|
    ensures Reaches(g, text, Ref(id), depth, i, Bad(Standing(text, i)))
  {
    hide Standing;
    assert Run(g, text, Ref(id), Standing(text, i), depth, 0) == Bad(Standing(text, i));
  }

  /** Lists and repeats run as their loops do. */
  lemma LoopReaches(g: Grammar, text: string, p: Parser, depth: int, i: nat, o: Outcome)
    requires i <= |text|
    requires
      || (p.Many? && ReachesMany(g, text, p.f, p.x, false, depth, i, [], o))
      || (p.Many1? && ReachesMany(g, text, p.f, p.x, true, depth, i, [], o))
      || (p.Count? && ReachesCount(g, text, p.n, p.f, p.x, depth, i, [], o))
      || (p.Or? && p.xs != [] && ReachesOr(g, text, p.xs, depth, i, o))
      || (p.And? && p.xs != [] && ReachesAnd(g, text, p.f, p.xs, depth, i, i, [], o))
    ensures Reaches(g, text, p, depth, i, o)
  {
    var c := Standing(text, i);
    hide Standing, RunMany, RunCount, RunOr, RunAnd;
    if p.Many? || p.Many1? {
      var k: nat :| RunMany(g, text, p.f, p.x, p.Many1?, c, depth, [], k) == o;
      assert Run(g, text, p, c, depth, k) == o;
    } else if p.Count? {
      var k: nat :| RunCount(g, text, p.n, p.f, p.x, c, depth, [], k) == o;
      assert Run(g, text, p, c, depth, k) == o;
    } else if p.Or? {
      var k: nat :| RunOr(g, text, p.xs, c, depth, k) == o;
      assert Run(g, text, p, c, depth, k) == o;
    } else {
      var k: nat :| RunAnd(g, text, p.f, p.xs, c, c, depth, [], k) == o;
      assert Run(g, text, p, c, depth, k) == o;
    }
  }

  lemma EmptyReaches(g: Grammar, text: string, p: Parser, depth: int, i: nat)
    requires i <= |text| && Lists(p) && p.xs == []
    ensures Reaches(g, text, p, depth, i, Ok(Null, Standing(text, i)))
  {
    hide Standing;
    assert Run(g, text, p, Standing(text, i), depth, 0) == Ok(Null, Standing(text, i));
  }

  /** A leaf has one outcome. */
  lemma LeafReaches(g: Grammar, text: string, p: Parser, depth: int, i: nat)
    requires i <= |text| && IsLeaf(p)
    ensures forall v, j: nat :: LeafSucceeds(text, p, i, v, j) ==>
        j <= |text| && Reaches(g, text, p, depth, i, Ok(v, Standing(text, j)))
    ensures forall j: nat :: LeafFails(text, p, depth, i, j) ==>
        j <= |text| && Reaches(g, text, p, depth, i, Bad(Standing(text, j)))
  {
    var k := LeafRuns(g, text, p, depth, i, 0);
    var o := Run(g, text, p, Standing(text, i), depth, 0);
    forall v, j: nat | LeafSucceeds(text, p, i, v, j)
      ensures j <= |text| && Reaches(g, text, p, depth, i, Ok(v, Standing(text, j)))
    {
      OneLeafOutcome(text, p, depth, i, v, j, k);
      if o.Ok? { OneLeafSuccess(text, p, i, v, j, o.v, k); }
      hide Run, Standing, LeafSucceeds, LeafFails;
      assert Run(g, text, p, Standing(text, i), depth, 0) == Ok(v, Standing(text, j));
    }
    forall j: nat | LeafFails(text, p, depth, i, j)
      ensures j <= |text| && Reaches(g, text, p, depth, i, Bad(Standing(text, j)))
    {
      if o.Ok? { OneLeafOutcome(text, p, depth, i, o.v, k, j); }
      OneLeafFailure(text, p, depth, i, j, k);
      hide Run, Standing, LeafSucceeds, LeafFails;
      assert Run(g, text, p, Standing(text, i), depth, 0) == Bad(Standing(text, j));
    }
  }

  lemma OneLeafSuccess(text: string, p: Parser, i: nat, v: Val, j: nat, w: Val, k: nat)
    requires i <= |text| && LeafSucceeds(text, p, i, v, j) && LeafSucceeds(text, p, i, w, k)
    ensures v == w && j == k
  {
    hide Standing, WordAt, AcceptsAt;
  }

  lemma OneLeafOutcome(text: string, p: Parser, depth: int, i: nat, v: Val, j: nat, k: nat)
    requires i <= |text| && LeafSucceeds(text, p, i, v, j)
    ensures !LeafFails(text, p, depth, i, k)
  {
    hide Standing, AcceptsAt;
    if p.Literal? {
      assert p.s[..|p.s|] == p.s;
      forall n | 0 <= n < |p.s| ensures !Agrees(text, i, p.s, n) { WordShorter(text, i, p.s, |p.s|, n + 1); }
    }
  }

  lemma WordShorter(text: string, i: nat, s: string, m: nat, n: nat)
    requires n <= m <= |s| && WordAt(text, i, s[..m])
    ensures WordAt(text, i, s[..n])
  {}

  lemma OneLeafFailure(text: string, p: Parser, depth: int, i: nat, j: nat, k: nat)
    requires i <= |text| && LeafFails(text, p, depth, i, j) && LeafFails(text, p, depth, i, k)
    ensures j == k
  {
    hide Standing, AcceptsAt, WordAt, Agrees;
    if p.Literal? {
      var m :| 0 <= m < |p.s| && Agrees(text, i, p.s, m) && j == Left(depth, i, i + m);
      var n :| 0 <= n < |p.s| && Agrees(text, i, p.s, n) && k == Left(depth, i, i + n);
      AgreesOnce(text, i, p.s, m, n);
      AgreesOnce(text, i, p.s, n, m);
    }
  }

  lemma AgreesOnce(text: string, i: nat, s: string, m: nat, n: nat)
    requires Agrees(text, i, s, m) && Agrees(text, i, s, n)
    ensures m <= n
  {
    if n < m { WordShorter(text, i, s, m, n + 1); }
  }

  lemma FoldedIs(f: Fold, vs: seq<Val>, v: Val, text: string, j: nat)
    requires Folds(f, vs, v) && j <= |text|
    ensures [] + vs == vs && Folded(f, vs, Standing(text, j)) == Ok(v, Standing(text, j))
  {
    FoldsExactly(f, vs, v);
    hide Folds, ApplyFold, Standing;
  }

  lemma {:induction false} SuccessRuns(k: ORDINAL, g: Grammar, text: string, p: Parser, depth: int, i: nat, v: Val,
      j: nat)
    requires i <= |text| && Succeeds#[k](g, text, p, depth, i, v, j)
    ensures j <= |text| && Reaches(g, text, p, depth, i, Ok(v, Standing(text, j)))
    decreases k, 2
  {
    hide *;
    if k.IsLimit {
      var l := SuccessBelow(k, g, text, p, depth, i, v, j);
      SuccessRuns(l, g, text, p, depth, i, v, j);
    } else {
      SuccessSteps(k, g, text, p, depth, i, v, j);
    }
  }

  lemma SuccessBelow(k: ORDINAL, g: Grammar, text: string, p: Parser, depth: int, i: nat, v: Val, j: nat)
      returns (l: ORDINAL)
    requires k.IsLimit && Succeeds#[k](g, text, p, depth, i, v, j)
    ensures l < k && Succeeds#[l](g, text, p, depth, i, v, j)
  {
    l :| l < k && Succeeds#[l](g, text, p, depth, i, v, j);
  }

  lemma {:induction false} SuccessSteps(k: ORDINAL, g: Grammar, text: string, p: Parser, depth: int, i: nat, v: Val,
      j: nat)
    requires k.IsSucc && i <= |text| && Succeeds#[k](g, text, p, depth, i, v, j)
    ensures j <= |text| && Reaches(g, text, p, depth, i, Ok(v, Standing(text, j)))
    decreases k, 1
  {
    hide Reaches, Standing, Succeeds, Fails;
    if RunsOnce(p) {
      WrapSucceeds(k, g, text, p, depth, i, v, j);
    } else if p.Many? || p.Many1? || p.Count? {
      RepeatSucceeds(k, g, text, p, depth, i, v, j);
    } else if Lists(p) {
      ListSucceeds(k, g, text, p, depth, i, v, j);
    } else if p.Ref? {
      NameSucceeds(k, g, text, p, depth, i, v, j);
    } else {
      LeafIsReached(k, g, text, p, depth, i, v, j);
    }
  }

  lemma {:induction false} NameSucceeds(k: ORDINAL, g: Grammar, text: string, p: Parser, depth: int, i: nat,
      v: Val, j: nat)
    requires k.IsSucc && i <= |text| && p.Ref? && Succeeds#[k](g, text, p, depth, i, v, j)
    ensures j <= |text| && Reaches(g, text, p, depth, i, Ok(v, Standing(text, j)))
    decreases k, 0
  {
    hide Reaches, Standing;
    SuccessRuns(k - 1, g, text, g[p.id], depth, i, v, j);
    NameReaches(g, text, p.id, depth, i, Ok(v, Standing(text, j)));
  }

  lemma LeafIsReached(k: ORDINAL, g: Grammar, text: string, p: Parser, depth: int, i: nat, v: Val, j: nat)
    requires k.IsSucc && i <= |text| && IsLeaf(p) && Succeeds#[k](g, text, p, depth, i, v, j)
    ensures j <= |text| && Reaches(g, text, p, depth, i, Ok(v, Standing(text, j)))
  {
    hide Reaches, Standing, LeafSucceeds, LeafFails;
    LeafReaches(g, text, p, depth, i);
  }

  lemma {:induction false} WrapSucceeds(k: ORDINAL, g: Grammar, text: string, p: Parser, depth: int, i: nat,
      v: Val, j: nat)
    requires k.IsSucc && i <= |text| && RunsOnce(p) && Succeeds#[k](g, text, p, depth, i, v, j)
    ensures j <= |text| && Reaches(g, text, p, depth, i, Ok(v, Standing(text, j)))
    decreases k, 0
  {
    hide Reaches, Standing;
    var x, inner := p.x, if p.Predict? then depth - 1 else depth;
    if p.Not? || (p.Maybe? && !Succeeds#[k - 1](g, text, x, depth, i, v, j)) {
      FailureRuns(k - 1, g, text, x, depth, i, j);
      WrapReaches(g, text, p, depth, i, Bad(Standing(text, j)));
    } else {
      var w := v;
      if p.Apply? {
        w :| Succeeds#[k - 1](g, text, x, depth, i, w, j) && p.apply(w) == Some(v);
      } else if p.ApplyTo? {
        w :| Succeeds#[k - 1](g, text, x, depth, i, w, j) && p.applyTo(w, p.d) == Some(v);
      }
      SuccessRuns(k - 1, g, text, x, inner, i, w, j);
      WrapReaches(g, text, p, depth, i, Ok(w, Standing(text, j)));
    }
  }

  lemma {:induction false} RepeatSucceeds(k: ORDINAL, g: Grammar, text: string, p: Parser, depth: int, i: nat,
      v: Val, j: nat)
    requires k.IsSucc && i <= |text| && (p.Many? || p.Many1? || p.Count?)
    requires Succeeds#[k](g, text, p, depth, i, v, j)
    ensures j <= |text| && Reaches(g, text, p, depth, i, Ok(v, Standing(text, j)))
    decreases k, 0
  {
    hide Reaches, ReachesMany, ReachesCount, Standing, Folds, Folded;
    var f, x := p.f, p.x;
    if p.Count? && p.n == 0 {
      FailureRuns(k - 1, g, text, x, depth, i, j);
      CountStops(g, text, p.n, f, x, depth, i, [], Bad(Standing(text, j)));
      FoldedIs(f, [], v, text, j);
    } else if p.Count? {
      var xs := seq(p.n, _ => x);
      var vs :| InTurn#[k - 1](g, text, xs, depth, i, vs, j) && Folds(f, vs, v);
      CountRuns(k - 1, g, text, xs, depth, i, vs, j, p.n, f, x, []);
      FoldedIs(f, vs, v, text, j);
    } else {
      var vs :| (p.Many1? ==> vs != []) && Rounds#[k - 1](g, text, x, depth, i, vs, j) && Folds(f, vs, v);
      RoundsRun(k - 1, g, text, x, depth, i, vs, j, f, p.Many1?, []);
      FoldedIs(f, vs, v, text, j);
    }
    LoopReaches(g, text, p, depth, i, Ok(v, Standing(text, j)));
  }

  lemma {:induction false} ListSucceeds(k: ORDINAL, g: Grammar, text: string, p: Parser, depth: int, i: nat,
      v: Val, j: nat)
    requires k.IsSucc && i <= |text| && Lists(p) && Succeeds#[k](g, text, p, depth, i, v, j)
    ensures j <= |text| && Reaches(g, text, p, depth, i, Ok(v, Standing(text, j)))
    decreases k, 0
  {
    hide Reaches, ReachesOr, ReachesAnd, Standing, Folds, Folded;
    if p.xs == [] {
      EmptyReaches(g, text, p, depth, i);
    } else {
      if p.Or? {
        FirstRuns(k - 1, g, text, p.xs, depth, i, v, j);
      } else {
        var vs :| InTurn#[k - 1](g, text, p.xs, depth, i, vs, j) && Folds(p.f, vs, v);
        TurnRuns(k - 1, g, text, p.xs, depth, i, vs, j, p.f, i, []);
        FoldedIs(p.f, vs, v, text, j);
      }
      LoopReaches(g, text, p, depth, i, Ok(v, Standing(text, j)));
    }
  }

  lemma {:induction false} FailureRuns(k: ORDINAL, g: Grammar, text: string, p: Parser, depth: int, i: nat, j: nat)
    requires i <= |text| && Fails#[k](g, text, p, depth, i, j)
    ensures j <= |text| && Reaches(g, text, p, depth, i, Bad(Standing(text, j)))
    decreases k, 1
  {
    hide Reaches, Standing, LeafSucceeds, LeafFails;
    if k.IsLimit {
      var l :| l < k && Fails#[l](g, text, p, depth, i, j);
      FailureRuns(l, g, text, p, depth, i, j);
    } else if RunsOnce(p) {
      WrapFails(k, g, text, p, depth, i, j);
    } else if Wraps(p) || Lists(p) {
      LoopFails(k, g, text, p, depth, i, j);
    } else if p.Ref? {
      if p.id < |g| {
        FailureRuns(k - 1, g, text, g[p.id], depth, i, j);
        NameReaches(g, text, p.id, depth, i, Bad(Standing(text, j)));
      } else {
        NoNameReaches(g, text, p.id, depth, i);
      }
    } else {
      LeafReaches(g, text, p, depth, i);
    }
  }

  lemma {:induction false} WrapFails(k: ORDINAL, g: Grammar, text: string, p: Parser, depth: int, i: nat, j: nat)
    requires k.IsSucc && i <= |text| && RunsOnce(p) && Fails#[k](g, text, p, depth, i, j)
    ensures j <= |text| && Reaches(g, text, p, depth, i, Bad(Standing(text, j)))
    decreases k, 0
  {
    hide Reaches, Standing;
    var x, inner := p.x, if p.Predict? then depth - 1 else depth;
    if p.Not? {
      var v, m: nat :| Succeeds#[k - 1](g, text, x, depth, i, v, m) && j == Left(depth, i, m);
      SuccessRuns(k - 1, g, text, x, depth, i, v, m);
      WrapReaches(g, text, p, depth, i, Ok(v, Standing(text, m)));
    } else if !p.Maybe? {
      FailureRuns(k - 1, g, text, x, inner, i, j);
      WrapReaches(g, text, p, depth, i, Bad(Standing(text, j)));
    }
  }

  lemma {:induction false} LoopFails(k: ORDINAL, g: Grammar, text: string, p: Parser, depth: int, i: nat, j: nat)
    requires k.IsSucc && i <= |text| && !RunsOnce(p) && (Wraps(p) || Lists(p)) && Fails#[k](g, text, p, depth, i, j)
    ensures j <= |text| && Reaches(g, text, p, depth, i, Bad(Standing(text, j)))
    decreases k, 0
  {
    hide Reaches, ReachesMany, ReachesCount, ReachesOr, ReachesAnd, Standing;
    if p.Many1? {
      FailureRuns(k - 1, g, text, p.x, depth, i, j);
      ManyStops(g, text, p.f, p.x, true, depth, i, [], j);
      LoopReaches(g, text, p, depth, i, Bad(Standing(text, j)));
    } else if p.Count? {
      var vs :| TooFew(p.n, |vs|) && Rounds#[k - 1](g, text, p.x, depth, i, vs, j);
      FewRun(k - 1, g, text, p.x, depth, i, vs, j, p.n, p.f, []);
      LoopReaches(g, text, p, depth, i, Bad(Standing(text, j)));
    } else if p.Or? {
      AllFailRuns(k - 1, g, text, p.xs, depth, i, j);
      LoopReaches(g, text, p, depth, i, Bad(Standing(text, j)));
    } else if p.And? {
      var m: nat :| OneFails#[k - 1](g, text, p.xs, depth, i, m) && j == Left(depth, i, m);
      SomeFails(g, text, p.xs, depth, i, m);
      OneFailsRuns(k - 1, g, text, p.xs, depth, i, m, p.f, i, []);
      LoopReaches(g, text, p, depth, i, Bad(Standing(text, j)));
    }
  }

  lemma TurnSplit(k: ORDINAL, g: Grammar, text: string, xs: seq<Parser>, depth: int, i: nat, vs: seq<Val>, j: nat)
      returns (m: nat)
    requires k.IsSucc && xs != [] && InTurn#[k](g, text, xs, depth, i, vs, j)
    ensures vs != []
    ensures Succeeds#[k - 1](g, text, xs[0], depth, i, vs[0], m)
    ensures InTurn#[k - 1](g, text, xs[1..], depth, m, vs[1..], j)
  {
    hide Succeeds, Fails;
    m :| Succeeds#[k - 1](g, text, xs[0], depth, i, vs[0], m) && InTurn#[k - 1](g, text, xs[1..], depth, m, vs[1..], j);
  }

  lemma TurnBelow(k: ORDINAL, g: Grammar, text: string, xs: seq<Parser>, depth: int, i: nat, vs: seq<Val>, j: nat)
      returns (l: ORDINAL)
    requires k.IsLimit && InTurn#[k](g, text, xs, depth, i, vs, j)
    ensures l < k && InTurn#[l](g, text, xs, depth, i, vs, j)
  {
    l :| l < k && InTurn#[l](g, text, xs, depth, i, vs, j);
  }

  lemma {:induction false} TurnRuns(k: ORDINAL, g: Grammar, text: string, xs: seq<Parser>, depth: int, i: nat,
      vs: seq<Val>, j: nat, f: Fold, from: nat, before: seq<Val>)
    requires i <= |text| && from <= |text| && InTurn#[k](g, text, xs, depth, i, vs, j)
    ensures j <= |text|
    ensures ReachesAnd(g, text, f, xs, depth, from, i, before, Folded(f, before + vs, Standing(text, j)))
    decreases k
  {
    hide Succeeds, Fails, Reaches, ReachesAnd, Standing;
    if k.IsLimit {
      var l := TurnBelow(k, g, text, xs, depth, i, vs, j);
      TurnRuns(l, g, text, xs, depth, i, vs, j, f, from, before);
    } else if xs == [] {
      AndDone(g, text, f, depth, from, i, before);
      assert before + vs == before;
    } else {
      var m := TurnSplit(k, g, text, xs, depth, i, vs, j);
      SuccessRuns(k - 1, g, text, xs[0], depth, i, vs[0], m);
      TurnRuns(k - 1, g, text, xs[1..], depth, m, vs[1..], j, f, from, before + [vs[0]]);
      assert before + [vs[0]] + vs[1..] == before + vs;
      AndStep(g, text, f, xs, depth, from, i, before, vs[0], m, Folded(f, before + vs, Standing(text, j)));
    }
  }

  lemma SomeFails(g: Grammar, text: string, xs: seq<Parser>, depth: int, i: nat, j: nat)
    requires OneFails(g, text, xs, depth, i, j)
    ensures xs != []
  {}

  lemma {:induction false} OneFailsRuns(k: ORDINAL, g: Grammar, text: string, xs: seq<Parser>, depth: int, i: nat,
      j: nat, f: Fold, from: nat, before: seq<Val>)
    requires i <= |text| && from <= |text| && OneFails#[k](g, text, xs, depth, i, j)
    ensures j <= |text|
    ensures ReachesAnd(g, text, f, xs, depth, from, i, before, Bad(Standing(text, Left(depth, from, j))))
    decreases k
  {
    hide Succeeds, Fails, Reaches, ReachesAnd, Standing;
    if k.IsLimit {
      var l :| l < k && OneFails#[l](g, text, xs, depth, i, j);
      OneFailsRuns(l, g, text, xs, depth, i, j, f, from, before);
    } else if Fails#[k - 1](g, text, xs[0], depth, i, j) {
      FailureRuns(k - 1, g, text, xs[0], depth, i, j);
      AndStops(g, text, f, xs, depth, from, i, before, j);
    } else {
      var v, m: nat :|
        Succeeds#[k - 1](g, text, xs[0], depth, i, v, m) && OneFails#[k - 1](g, text, xs[1..], depth, m, j);
      SuccessRuns(k - 1, g, text, xs[0], depth, i, v, m);
      OneFailsRuns(k - 1, g, text, xs[1..], depth, m, j, f, from, before + [v]);
      AndStep(g, text, f, xs, depth, from, i, before, v, m, Bad(Standing(text, Left(depth, from, j))));
    }
  }

  lemma {:induction false} FirstRuns(k: ORDINAL, g: Grammar, text: string, xs: seq<Parser>, depth: int, i: nat,
      v: Val, j: nat)
    requires i <= |text| && FirstSucceeds#[k](g, text, xs, depth, i, v, j)
    ensures j <= |text| && ReachesOr(g, text, xs, depth, i, Ok(v, Standing(text, j)))
    decreases k
  {
    hide Succeeds, Fails, Reaches, ReachesOr, Standing;
    if k.IsLimit {
      var l :| l < k && FirstSucceeds#[l](g, text, xs, depth, i, v, j);
      FirstRuns(l, g, text, xs, depth, i, v, j);
    } else if Succeeds#[k - 1](g, text, xs[0], depth, i, v, j) {
      SuccessRuns(k - 1, g, text, xs[0], depth, i, v, j);
      OrStops(g, text, xs, depth, i, Ok(v, Standing(text, j)));
    } else {
      var m: nat :|
        Fails#[k - 1](g, text, xs[0], depth, i, m) && FirstSucceeds#[k - 1](g, text, xs[1..], depth, m, v, j);
      FailureRuns(k - 1, g, text, xs[0], depth, i, m);
      FirstRuns(k - 1, g, text, xs[1..], depth, m, v, j);
      OrStep(g, text, xs, depth, i, m, Ok(v, Standing(text, j)));
    }
  }

  lemma {:induction false} AllFailRuns(k: ORDINAL, g: Grammar, text: string, xs: seq<Parser>, depth: int, i: nat,
      j: nat)
    requires i <= |text| && AllFail#[k](g, text, xs, depth, i, j)
    ensures j <= |text| && ReachesOr(g, text, xs, depth, i, Bad(Standing(text, j)))
    decreases k
  {
    hide Succeeds, Fails, Reaches, ReachesOr, Standing;
    if k.IsLimit {
      var l :| l < k && AllFail#[l](g, text, xs, depth, i, j);
      AllFailRuns(l, g, text, xs, depth, i, j);
    } else if xs == [] {
      OrDone(g, text, depth, i);
    } else {
      var m: nat :| Fails#[k - 1](g, text, xs[0], depth, i, m) && AllFail#[k - 1](g, text, xs[1..], depth, m, j);
      FailureRuns(k - 1, g, text, xs[0], depth, i, m);
      AllFailRuns(k - 1, g, text, xs[1..], depth, m, j);
      OrStep(g, text, xs, depth, i, m, Bad(Standing(text, j)));
    }
  }

  lemma RoundsBelow(k: ORDINAL, g: Grammar, text: string, x: Parser, depth: int, i: nat, vs: seq<Val>, j: nat)
      returns (l: ORDINAL)
    requires k.IsLimit && Rounds#[k](g, text, x, depth, i, vs, j)
    ensures l < k && Rounds#[l](g, text, x, depth, i, vs, j)
  {
    l :| l < k && Rounds#[l](g, text, x, depth, i, vs, j);
  }

  lemma RoundsSplit(k: ORDINAL, g: Grammar, text: string, x: Parser, depth: int, i: nat, vs: seq<Val>, j: nat)
      returns (m: nat)
    requires k.IsSucc && Rounds#[k](g, text, x, depth, i, vs, j)
    ensures vs == [] ==> Fails#[k - 1](g, text, x, depth, i, j)
    ensures vs != [] ==>
        Succeeds#[k - 1](g, text, x, depth, i, vs[0], m) && Rounds#[k - 1](g, text, x, depth, m, vs[1..], j)
  {
    hide Succeeds, Fails;
    m := 0;
    if vs != [] {
      m :| Succeeds#[k - 1](g, text, x, depth, i, vs[0], m) && Rounds#[k - 1](g, text, x, depth, m, vs[1..], j);
    }
  }

  lemma {:induction false} RoundsRun(k: ORDINAL, g: Grammar, text: string, x: Parser, depth: int, i: nat,
      vs: seq<Val>, j: nat, f: Fold, once: bool, before: seq<Val>)
    requires i <= |text| && Rounds#[k](g, text, x, depth, i, vs, j) && !(once && before + vs == [])
    ensures j <= |text|
    ensures ReachesMany(g, text, f, x, once, depth, i, before, Folded(f, before + vs, Standing(text, j)))
    decreases k
  {
    hide Succeeds, Fails, Rounds, Reaches, ReachesMany, Standing;
    if k.IsLimit {
      var l := RoundsBelow(k, g, text, x, depth, i, vs, j);
      RoundsRun(l, g, text, x, depth, i, vs, j, f, once, before);
      return;
    }
    var m := RoundsSplit(k, g, text, x, depth, i, vs, j);
    if vs == [] {
      FailureRuns(k - 1, g, text, x, depth, i, j);
      assert before + vs == before;
      ManyStops(g, text, f, x, once, depth, i, before, j);
    } else {
      SuccessRuns(k - 1, g, text, x, depth, i, vs[0], m);
      assert before + [vs[0]] + vs[1..] == before + vs;
      RoundsRun(k - 1, g, text, x, depth, m, vs[1..], j, f, once, before + [vs[0]]);
      ManyStep(g, text, f, x, once, depth, i, before, vs[0], m, Folded(f, before + vs, Standing(text, j)));
    }
  }

  lemma {:induction false} FewRun(k: ORDINAL, g: Grammar, text: string, x: Parser, depth: int, i: nat,
      vs: seq<Val>, j: nat, n: int, f: Fold, before: seq<Val>)
    requires i <= |text| && Rounds#[k](g, text, x, depth, i, vs, j) && TooFew(n, |before| + |vs|)
    ensures j <= |text| && ReachesCount(g, text, n, f, x, depth, i, before, Bad(Standing(text, j)))
    decreases k
  {
    hide Succeeds, Fails, Rounds, Reaches, ReachesCount, Standing;
    if k.IsLimit {
      var l := RoundsBelow(k, g, text, x, depth, i, vs, j);
      FewRun(l, g, text, x, depth, i, vs, j, n, f, before);
      return;
    }
    var m := RoundsSplit(k, g, text, x, depth, i, vs, j);
    if vs == [] {
      FailureRuns(k - 1, g, text, x, depth, i, j);
      CountStops(g, text, n, f, x, depth, i, before, Bad(Standing(text, j)));
    } else {
      SuccessRuns(k - 1, g, text, x, depth, i, vs[0], m);
      FewRun(k - 1, g, text, x, depth, m, vs[1..], j, n, f, before + [vs[0]]);
      CountStep(g, text, n, f, x, depth, i, before, vs[0], m, Bad(Standing(text, j)));
    }
  }

  lemma LastCounts(g: Grammar, text: string, xs: seq<Parser>, depth: int, i: nat, vs: seq<Val>, m: nat, j: nat,
      n: int, f: Fold, x: Parser, before: seq<Val>)
    requires i <= |text| && m <= |text| && |before| + 1 == n && vs != [] && xs == []
    requires Reaches(g, text, x, depth, i, Ok(vs[0], Standing(text, m))) && InTurn(g, text, xs, depth, m, vs[1..], j)
    ensures j <= |text|
    ensures ReachesCount(g, text, n, f, x, depth, i, before, Folded(f, before + vs, Standing(text, j)))
  {
    TurnEnds(g, text, xs, depth, m, vs[1..], j);
    hide InTurn, Reaches, ReachesCount, Standing, Folded;
    assert vs == [vs[0]];
    CountStops(g, text, n, f, x, depth, i, before, Ok(vs[0], Standing(text, m)));
  }

  lemma FoldingEnds(f: Fold, vs: seq<Val>, text: string, j: nat)
    ensures j <= |text| ==> Folded(f, vs, Standing(text, j)) != Endless
  {}

  lemma {:induction false} CountRuns(k: ORDINAL, g: Grammar, text: string, xs: seq<Parser>, depth: int, i: nat,
      vs: seq<Val>, j: nat, n: int, f: Fold, x: Parser, before: seq<Val>)
    requires i <= |text| && InTurn#[k](g, text, xs, depth, i, vs, j)
    requires |before| < n && xs == seq(n - |before|, _ => x)
    ensures j <= |text|
    ensures ReachesCount(g, text, n, f, x, depth, i, before, Folded(f, before + vs, Standing(text, j)))
    decreases k
  {
    hide InTurn, Succeeds, Fails, Reaches, ReachesCount, Standing, Folded;
    FoldingEnds(f, before + vs, text, j);
    if k.IsLimit {
      var l := TurnBelow(k, g, text, xs, depth, i, vs, j);
      CountRuns(l, g, text, xs, depth, i, vs, j, n, f, x, before);
      return;
    }
    var m := TurnSplit(k, g, text, xs, depth, i, vs, j);
    SuccessRuns(k - 1, g, text, x, depth, i, vs[0], m);
    if |before| + 1 == n {
      LastCounts(g, text, xs[1..], depth, i, vs, m, j, n, f, x, before);
    } else {
      assert xs[1..] == seq(n - |before + [vs[0]]|, _ => x);
      assert before + [vs[0]] + vs[1..] == before + vs;
      CountRuns(k - 1, g, text, xs[1..], depth, m, vs[1..], j, n, f, x, before + [vs[0]]);
      CountStep(g, text, n, f, x, depth, i, before, vs[0], m, Folded(f, before + vs, Standing(text, j)));
    }
  }

  lemma TurnEnds(g: Grammar, text: string, xs: seq<Parser>, depth: int, i: nat, vs: seq<Val>, j: nat)
    requires InTurn(g, text, xs, depth, i, vs, j) && xs == []
    ensures vs == [] && j == i
  {}

  // ----- both together -----

  lemma RunIsMeant(g: Grammar, text: string, p: Parser, depth: int, i: nat, o: Outcome)
    requires i <= |text| && Reaches(g, text, p, depth, i, o)
    ensures IsOutcome(g, text, p, depth, i, o)
  {
    hide Standing, IsOutcome;
    var fuel: nat :| Run(g, text, p, Standing(text, i), depth, fuel) == o;
    hide Run;
    RunMeans(g, text, p, depth, i, fuel);
  }

  lemma SuccessIsReached(g: Grammar, text: string, p: Parser, depth: int, i: nat, v: Val, j: nat)
    requires i <= |text| && Succeeds(g, text, p, depth, i, v, j)
    ensures j <= |text| && Reaches(g, text, p, depth, i, Ok(v, Standing(text, j)))
  {
    hide Reaches, Standing;
    var k :| Succeeds#[k](g, text, p, depth, i, v, j);
    SuccessRuns(k, g, text, p, depth, i, v, j);
  }

  /** A parser yields v on the characters from i to j just where some fuel suffices for a run that does. */
  lemma SucceedsExactly(g: Grammar, text: string, p: Parser, depth: int, i: nat, v: Val, j: nat)
    requires i <= |text|
    ensures Succeeds(g, text, p, depth, i, v, j) <==>
        j <= |text| && Reaches(g, text, p, depth, i, Ok(v, Standing(text, j)))
  {
    hide Reaches, Standing;
    if Succeeds(g, text, p, depth, i, v, j) {
      SuccessIsReached(g, text, p, depth, i, v, j);
    } else if j <= |text| && Reaches(g, text, p, depth, i, Ok(v, Standing(text, j))) {
      StandPosition(text, j);
      RunIsMeant(g, text, p, depth, i, Ok(v, Standing(text, j)));
    }
  }

  /** And it fails, leaving the input at j, just where some fuel suffices for a run that does. */
  lemma FailsExactly(g: Grammar, text: string, p: Parser, depth: int, i: nat, j: nat)
    requires i <= |text|
    ensures Fails(g, text, p, depth, i, j) <==>
        j <= |text| && Reaches(g, text, p, depth, i, Bad(Standing(text, j)))
  {
    hide Reaches, Standing;
    if Fails(g, text, p, depth, i, j) {
      var k :| Fails#[k](g, text, p, depth, i, j);
      FailureRuns(k, g, text, p, depth, i, j);
    } else if j <= |text| && Reaches(g, text, p, depth, i, Bad(Standing(text, j))) {
      StandPosition(text, j);
      RunIsMeant(g, text, p, depth, i, Bad(Standing(text, j)));
    }
  }

  /** While marks are set and no COUNT or PREDICT shows, a failure leaves the input where it was. */
  lemma FailsInPlace(rn: set<nat>, g: Grammar, text: string, p: Parser, depth: int, i: nat, j: nat)
    requires RestoringGrammar(rn, g) && Restoring(rn, p) && depth >= 1 && i <= |text|
    requires Fails(g, text, p, depth, i, j)
    ensures j == i
  {
    FailsExactly(g, text, p, depth, i, j);
    hide Standing, Restoring, RestoringGrammar;
    var fuel: nat :| Run(g, text, p, Standing(text, i), depth, fuel) == Bad(Standing(text, j));
    FailureRestores(rn, g, text, p, Standing(text, i), depth, fuel);
    StandPosition(text, i);
    StandPosition(text, j);
  }

  /** At most one thing happens: one success, or one failure. */
  lemma OneOutcome(g: Grammar, text: string, p: Parser, depth: int, i: nat, o: Outcome, r: Outcome)
    requires i <= |text| && o != Endless && r != Endless
    requires Reaches(g, text, p, depth, i, o) && Reaches(g, text, p, depth, i, r)
    ensures o == r
  {
    hide Standing;
    var c := Standing(text, i);
    var k: nat :| Run(g, text, p, c, depth, k) == o;
    var l: nat :| Run(g, text, p, c, depth, l) == r;
    hide Run;
    MoreFuel(g, text, p, c, depth, k, k + l);
    MoreFuel(g, text, p, c, depth, l, k + l);
  }

  /** A success that is meant is what any run comes to that comes to an end. */
  lemma SuccessDecides(g: Grammar, text: string, p: Parser, depth: int, i: nat, v: Val, j: nat, fuel: nat)
    requires i <= |text| && Succeeds(g, text, p, depth, i, v, j)
    ensures j <= |text| && Standing(text, j).state.pos == j
    ensures var o := Run(g, text, p, Standing(text, i), depth, fuel); o.Endless? || o == Ok(v, Standing(text, j))
  {
    SuccessIsReached(g, text, p, depth, i, v, j);
    StandPosition(text, j);
    hide Run, Standing, Succeeds;
    var o := Run(g, text, p, Standing(text, i), depth, fuel);
    assert Reaches(g, text, p, depth, i, o);
    if !o.Endless? { OneOutcome(g, text, p, depth, i, o, Ok(v, Standing(text, j))); }
  }

  lemma FailureDecides(g: Grammar, text: string, p: Parser, depth: int, i: nat, j: nat, fuel: nat)
    requires i <= |text| && Fails(g, text, p, depth, i, j)
    ensures j <= |text| && Standing(text, j).state.pos == j
    ensures var o := Run(g, text, p, Standing(text, i), depth, fuel); o.Endless? || o == Bad(Standing(text, j))
  {
    FailsExactly(g, text, p, depth, i, j);
    StandPosition(text, j);
    hide Run, Standing, Fails;
    var o := Run(g, text, p, Standing(text, i), depth, fuel);
    assert Reaches(g, text, p, depth, i, o);
    if !o.Endless? { OneOutcome(g, text, p, depth, i, o, Bad(Standing(text, j))); }
  }

  /** A parser that succeeds somewhere succeeds in one way only, and does not fail. */
  lemma OneSuccess(g: Grammar, text: string, p: Parser, depth: int, i: nat, v: Val, j: nat, w: Val, k: nat)
    requires i <= |text| && Succeeds(g, text, p, depth, i, v, j)
    ensures Succeeds(g, text, p, depth, i, w, k) ==> w == v && k == j
    ensures !Fails(g, text, p, depth, i, k)
  {
    hide Reaches, Standing, Succeeds, Fails;
    SucceedsExactly(g, text, p, depth, i, v, j);
    SucceedsExactly(g, text, p, depth, i, w, k);
    FailsExactly(g, text, p, depth, i, k);
    StandPosition(text, j);
    if k <= |text| {
      StandPosition(text, k);
      var o := Ok(v, Standing(text, j));
      if Succeeds(g, text, p, depth, i, w, k) { OneOutcome(g, text, p, depth, i, o, Ok(w, Standing(text, k))); }
      if Fails(g, text, p, depth, i, k) { OneOutcome(g, text, p, depth, i, o, Bad(Standing(text, k))); }
    }
  }

  lemma OneFailure(g: Grammar, text: string, p: Parser, depth: int, i: nat, j: nat, k: nat)
    requires i <= |text| && Fails(g, text, p, depth, i, j) && Fails(g, text, p, depth, i, k)
    ensures k == j
  {
    hide Reaches, Standing, Fails;
    FailsExactly(g, text, p, depth, i, j);
    FailsExactly(g, text, p, depth, i, k);
    StandPosition(text, j);
    StandPosition(text, k);
    OneOutcome(g, text, p, depth, i, Bad(Standing(text, j)), Bad(Standing(text, k)));
  }
}
