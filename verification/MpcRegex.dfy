/** The parsers that mpc builds for regular expressions, and what they yield: exactly the
    stretch of input they have read. */
module MpcRegex {
  import opened MpcAst
  import opened MpcParser
  import opened MpcBacktrack
  import opened MpcOptimise
  import opened MpcRules
  import opened MpcLeaves
  import opened MpcOptimisable
  import opened MpcSoundness
  import opened MpcGrammars

  // ----- reading a stretch of input -----

  /** The cursor after reading s. */
  function Walk(c: Cursor, s: string): Cursor
    decreases |s|
  {
    if s == "" then c else Walk(MpcParser.Step(c, s[0]), s[1..])
  }

  lemma {:induction false} WalkAppend(c: Cursor, s: string, t: string)
    ensures Walk(c, s + t) == Walk(Walk(c, s), t)
    decreases |s|
  {
    if s == "" {
      assert s + t == t;
    } else {
      assert (s + t)[1..] == s[1..] + t;
      WalkAppend(MpcParser.Step(c, s[0]), s[1..], t);
    }
  }

  lemma {:induction false} WalkPosition(c: Cursor, s: string)
    ensures Walk(c, s).state.pos == c.state.pos + |s|
    decreases |s|
  {
    if s != "" { WalkPosition(MpcParser.Step(c, s[0]), s[1..]); }
  }

  /** Between from and to stands s, and nothing else was read. */
  predicate Reads(input: string, from: Cursor, s: string, to: Cursor) {
    && from.state.pos + |s| <= |input|
    && input[from.state.pos..from.state.pos + |s|] == s
    && to == Walk(from, s)
  }

  lemma ReadsAppend(input: string, a: Cursor, s: string, b: Cursor, t: string, c: Cursor)
    requires Reads(input, a, s, b) && Reads(input, b, t, c)
    ensures Reads(input, a, s + t, c)
  {
    WalkAppend(a, s, t);
    WalkPosition(a, s);
  }

  /** The only outcomes of a regular expression: its text, a failure that ate nothing, or a
      repeat that never ends. */
  predicate Sliced(input: string, c: Cursor, o: Outcome) {
    match o
    case Ok(v, to) => v.Str? && Reads(input, c, v.s, to)
    case Bad(to) => to == c
    case Endless => true
    case Wild => false
  }

  // ----- parsers that yield what they read -----

  /** An anchor, however often it is wrapped in an error message. */
  predicate IsAnchor(p: Parser) {
    p.Anchor? || (p.Expect? && IsAnchor(p.x))
  }

  predicate Slicing(p: Parser) {
    match p
    case Fail => true
    case Lift(lf) => lf.CtorStr?
    case Any => true
    case Single(_) => true
    case OneOf(_) => true
    case NoneOf(_) => true
    case Expect(x) => Slicing(x)
    case Not(x, lf) => lf.CtorStr? && (Slicing(x) || IsAnchor(x))
    case Maybe(x, lf) => lf.CtorStr? && Slicing(x)
    case Many(f, x) => f.StrFold? && Slicing(x)
    case Many1(f, x) => f.StrFold? && Slicing(x)
    case Or(xs) => xs != [] && forall i | 0 <= i < |xs| :: Slicing(xs[i])
    case And(f, xs) =>
      || (f.StrFold? && xs != [] && forall i | 0 <= i < |xs| :: Slicing(xs[i]))
      || (f == Nth(1) && |xs| == 2 && IsAnchor(xs[0]) && xs[1] == Lift(CtorStr))
    case _ => false
  }

  // ----- parsers that need not go back -----

  /** Parsers that succeed with the empty string whenever they succeed. */
  predicate ReadsNothing(p: Parser) {
    match p
    case Fail => true
    case Lift(lf) => lf.CtorStr?
    case Expect(x) => ReadsNothing(x)
    case Not(_, lf) => lf.CtorStr?
    case Maybe(x, lf) => lf.CtorStr? && ReadsNothing(x)
    case Or(xs) => forall i | 0 <= i < |xs| :: ReadsNothing(xs[i])
    case And(f, xs) => if f.StrFold? then forall i | 0 <= i < |xs| :: ReadsNothing(xs[i]) else true
    case _ => false
  }

  predicate NeverFails(p: Parser) {
    match p
    case Lift(_) => true
    case Expect(x) => NeverFails(x)
    case Maybe(_, _) => true
    case Many(_, _) => true
    case Or(xs) => exists i | 0 <= i < |xs| :: NeverFails(xs[i])
    case And(f, xs) => f.StrFold? && forall i | 0 <= i < |xs| :: NeverFails(xs[i])
    case _ => false
  }

  /** No sequence fails once it has read something, and nothing is negated that reads. */
  predicate Steady(p: Parser)
    decreases p
  {
    && (p.Not? ==> IsAnchor(p.x) || (Steady(p.x) && ReadsNothing(p.x)))
    && (Wraps(p) && !p.Not? ==> Steady(p.x))
    && (p.Or? ==> forall i | 0 <= i < |p.xs| :: Steady(p.xs[i]))
    && (p.And? && p.f.StrFold? ==> SteadyFrom(true, p.xs) && forall i | 0 <= i < |p.xs| :: Steady(p.xs[i]))
  }

  /** The rest of a sequence; still says that nothing was read so far. */
  predicate SteadyFrom(still: bool, xs: seq<Parser>) {
    xs == [] || ((still || NeverFails(xs[0])) && SteadyFrom(still && ReadsNothing(xs[0]), xs[1..]))
  }

  lemma {:induction false} NeverFailsRight(input: string, p: Parser, c: Cursor, backtrack: int, fuel: nat)
    requires NeverFails(p)
    ensures !Run([], input, p, c, backtrack, fuel).Bad?
    decreases p, 1
  {
    match p
    case Expect(x) => NeverFailsRight(input, x, c, backtrack, fuel);
    case Many(f, x) => ManyFails([], input, f, x, false, c, backtrack, [], fuel);
    case Or(xs) => OrNeverFails(input, xs, c, backtrack, fuel);
    case And(f, xs) => if xs != [] { AndNeverFails(input, f, xs, c, c, backtrack, [], fuel); }
    case _ =>
  }

  lemma {:induction false} OrNeverFails(input: string, xs: seq<Parser>, c: Cursor, backtrack: int, fuel: nat)
    requires exists i | 0 <= i < |xs| :: NeverFails(xs[i])
    ensures !RunOr([], input, xs, c, backtrack, fuel).Bad?
    decreases xs, 0
  {
    hide Run, NeverFails;
    var o := Run([], input, xs[0], c, backtrack, fuel);
    if NeverFails(xs[0]) {
      NeverFailsRight(input, xs[0], c, backtrack, fuel);
    } else if o.Bad? {
      var i :| 0 <= i < |xs| && NeverFails(xs[i]);
      assert xs[1..][i - 1] == xs[i];
      OrNeverFails(input, xs[1..], o.to, backtrack, fuel);
    }
  }

  lemma {:induction false} AndNeverFails(input: string, f: Fold, xs: seq<Parser>, from: Cursor, c: Cursor,
      backtrack: int,
      vs: seq<Val>, fuel: nat)
    requires forall i | 0 <= i < |xs| :: NeverFails(xs[i])
    ensures !RunAnd([], input, f, xs, from, c, backtrack, vs, fuel).Bad?
    decreases xs, 0
  {
    hide Run, NeverFails;
    if xs != [] {
      NeverFailsRight(input, xs[0], c, backtrack, fuel);
      var o := Run([], input, xs[0], c, backtrack, fuel);
      if o.Ok? { AndNeverFails(input, f, xs[1..], from, o.to, backtrack, vs + [o.v], fuel); }
    }
  }

  lemma {:induction false} AnchorStays(input: string, p: Parser, c: Cursor, backtrack: int, fuel: nat)
    requires IsAnchor(p)
    ensures var o := Run([], input, p, c, backtrack, fuel); o == Ok(Null, c) || o == Bad(c)
    decreases p
  {
    if p.Expect? { AnchorStays(input, p.x, c, backtrack, fuel); }
  }

  /** An outcome that is a slice, the empty one where the parser reads nothing. */
  predicate SlicedBy(p: Parser, input: string, c: Cursor, o: Outcome) {
    Sliced(input, c, o) && (ReadsNothing(p) && o.Ok? ==> o.v.s == "")
  }

  /** The slice theorem: with backtracking on, and for steady parsers also with it off, a slicing
      parser yields exactly the input between the cursor it began at and the one it ends at. */
  lemma {:induction false} SlicingSlices(input: string, p: Parser, c: Cursor, backtrack: int, fuel: nat)
    requires Slicing(p) && (backtrack >= 1 || Steady(p)) && c.state.pos <= |input|
    ensures SlicedBy(p, input, c, Run([], input, p, c, backtrack, fuel))
    decreases fuel, p, 1
  {
    match p
    case Any => TakeSlices(input, c, ch => true);
    case Single(x) => TakeSlices(input, c, ch => ch == x);
    case OneOf(s) => TakeSlices(input, c, ch => ch in s);
    case NoneOf(s) => TakeSlices(input, c, ch => ch !in s);
    case Expect(x) => SlicingSlices(input, x, c, backtrack, fuel);
    case Not(x, _) =>
      if IsAnchor(x) {
        AnchorStays(input, x, c, backtrack, fuel);
      } else {
        SlicingSlices(input, x, c, backtrack, fuel);
      }
    case Maybe(x, _) => SlicingSlices(input, x, c, backtrack, fuel);
    case Many(f, x) => ManySlices(input, x, false, c, c, backtrack, [], fuel);
    case Many1(f, x) => ManySlices(input, x, true, c, c, backtrack, [], fuel);
    case Or(xs) => OrSlices(input, xs, c, backtrack, fuel);
    case And(f, xs) =>
      if f.StrFold? {
        AndSlices(input, xs, true, c, c, backtrack, [], fuel);
      } else {
        AnchorStays(input, xs[0], c, backtrack, fuel);
        RunAndPair([], input, f, xs[0], xs[1], c, backtrack, fuel);
        assert xs == [xs[0], xs[1]];
      }
    case _ =>
  }

  lemma TakeSlices(input: string, c: Cursor, test: char -> bool)
    ensures Sliced(input, c, Take(input, c, test))
  {}

  lemma {:induction false} ManySlices(input: string, x: Parser, once: bool, from: Cursor, c: Cursor, backtrack: int,
      vs: seq<Val>, fuel: nat)
    requires Slicing(x) && (backtrack >= 1 || Steady(x)) && c.state.pos <= |input|
    requires AllStr(vs) && Reads(input, from, Concat(vs), c)
    ensures Sliced(input, from, RunMany([], input, StrFold, x, once, c, backtrack, vs, fuel))
    decreases fuel, x, 2
  {
    assert vs == [] ==> Concat(vs) == "" && c == from;
    hide Run, Slicing, Steady, Concat;
    SlicingSlices(input, x, c, backtrack, fuel);
    var o := Run([], input, x, c, backtrack, fuel);
    if o.Ok? && fuel > 0 {
      ConcatNext(vs, o.v);
      ReadsAppend(input, from, Concat(vs), c, o.v.s, o.to);
      WalkPosition(c, o.v.s);
      ManySlices(input, x, once, from, o.to, backtrack, vs + [o.v], fuel - 1);
    }
  }

  lemma {:induction false} OrSlices(input: string, xs: seq<Parser>, c: Cursor, backtrack: int, fuel: nat)
    requires (forall i | 0 <= i < |xs| :: Slicing(xs[i])) && c.state.pos <= |input|
    requires backtrack >= 1 || forall i | 0 <= i < |xs| :: Steady(xs[i])
    ensures var o := RunOr([], input, xs, c, backtrack, fuel);
      Sliced(input, c, o) && ((forall i | 0 <= i < |xs| :: ReadsNothing(xs[i])) && o.Ok? ==> o.v.s == "")
    decreases fuel, xs, 0
  {
    hide Run, Slicing, Steady, ReadsNothing;
    if xs != [] {
      SlicingSlices(input, xs[0], c, backtrack, fuel);
      OrSlices(input, xs[1..], c, backtrack, fuel);
    }
  }

  lemma {:induction false} AndSlices(input: string, xs: seq<Parser>, still: bool, from: Cursor, c: Cursor,
      backtrack: int,
      vs: seq<Val>, fuel: nat)
    requires (forall i | 0 <= i < |xs| :: Slicing(xs[i])) && c.state.pos <= |input|
    requires backtrack >= 1 || (SteadyFrom(still, xs) && forall i | 0 <= i < |xs| :: Steady(xs[i]))
    requires AllStr(vs) && Reads(input, from, Concat(vs), c) && (still ==> Concat(vs) == "")
    ensures var o := RunAnd([], input, StrFold, xs, from, c, backtrack, vs, fuel);
      && Sliced(input, from, o)
      && (Concat(vs) == "" && (forall i | 0 <= i < |xs| :: ReadsNothing(xs[i])) && o.Ok? ==> o.v.s == "")
    decreases fuel, xs, 0
  {
    hide Run, Slicing, Steady, ReadsNothing, NeverFails, Concat;
    if xs != [] {
      SlicingSlices(input, xs[0], c, backtrack, fuel);
      var o := Run([], input, xs[0], c, backtrack, fuel);
      if o.Ok? {
        ConcatNext(vs, o.v);
        ReadsAppend(input, from, Concat(vs), c, o.v.s, o.to);
        WalkPosition(c, o.v.s);
        var next := still && ReadsNothing(xs[0]);
        AndSlices(input, xs[1..], next, from, o.to, backtrack, vs + [o.v], fuel);
      } else if o.Bad? && backtrack < 1 {
        if NeverFails(xs[0]) { NeverFailsRight(input, xs[0], c, backtrack, fuel); }
      }
    }
  }

  // ----- termination -----

  /** Parsers whose every success reads at least one character. */
  predicate Consuming(p: Parser) {
    match p
    case Fail => true
    case Any => true
    case Single(_) => true
    case OneOf(_) => true
    case NoneOf(_) => true
    case Expect(x) => Consuming(x)
    case Many1(_, x) => Consuming(x)
    case Or(xs) => xs != [] && forall i | 0 <= i < |xs| :: Consuming(xs[i])
    case And(f, xs) => f.StrFold? && exists i | 0 <= i < |xs| :: Consuming(xs[i])
    case _ => false
  }

  /** Every repeat has a consuming body. */
  predicate Progressing(p: Parser) {
    && (Wraps(p) ==> Progressing(p.x))
    && (Lists(p) ==> forall i | 0 <= i < |p.xs| :: Progressing(p.xs[i]))
    && (p.Many? || p.Many1? ==> Consuming(p.x))
    && !p.Ref?
  }

  lemma {:induction false} ConcatContains(vs: seq<Val>, i: nat)
    requires AllStr(vs) && i < |vs|
    ensures |Concat(vs)| >= |vs[i].s|
  {
    if i > 0 { ConcatContains(vs[1..], i - 1); }
  }

  /** A consuming parser yields no empty string. */
  lemma {:induction false} ConsumingConsumes(input: string, p: Parser, c: Cursor, backtrack: int, fuel: nat)
    requires Slicing(p) && Consuming(p) && backtrack >= 1 && c.state.pos <= |input|
    ensures var o := Run([], input, p, c, backtrack, fuel); o.Ok? ==> o.v.Str? && o.v.s != ""
    decreases p, 1
  {
    match p
    case Expect(x) => ConsumingConsumes(input, x, c, backtrack, fuel);
    case Many1(f, x) => Many1Consumes(input, x, c, backtrack, fuel);
    case Or(xs) => OrConsumes(input, xs, c, backtrack, fuel);
    case And(f, xs) =>
      AndGathers([], input, f, xs, c, c, backtrack, [], fuel);
      AndConsumes(input, xs, c, backtrack, fuel);
      var s := Gather([], input, xs, c, backtrack, fuel);
      if s.All? {
        assert [] + s.vs == s.vs;
        var i :| 0 <= i < |xs| && Consuming(xs[i]);
        if AllStr(s.vs) { ConcatContains(s.vs, i); }
      }
    case _ =>
  }

  lemma {:induction false} ManyKeepsFirst(input: string, x: Parser, once: bool, c: Cursor, backtrack: int,
      vs: seq<Val>, fuel: nat)
    requires vs != [] && vs[0].Str?
    ensures var o := RunMany([], input, StrFold, x, once, c, backtrack, vs, fuel);
        o.Ok? ==> o.v.Str? && |o.v.s| >= |vs[0].s|
    decreases fuel
  {
    hide Run, Concat;
    var o := Run([], input, x, c, backtrack, fuel);
    if o.Ok? && fuel > 0 {
      ManyKeepsFirst(input, x, once, o.to, backtrack, vs + [o.v], fuel - 1);
    } else if AllStr(vs) {
      ConcatContains(vs, 0);
    }
  }

  lemma {:induction false} Many1Consumes(input: string, x: Parser, c: Cursor, backtrack: int, fuel: nat)
    requires Slicing(x) && Consuming(x) && backtrack >= 1 && c.state.pos <= |input|
    ensures var o := RunMany([], input, StrFold, x, true, c, backtrack, [], fuel); o.Ok? ==> o.v.Str? && o.v.s != ""
    decreases x, 2
  {
    hide Run, Slicing, Consuming;
    ConsumingConsumes(input, x, c, backtrack, fuel);
    var o := Run([], input, x, c, backtrack, fuel);
    if o.Ok? && fuel > 0 {
      ManyKeepsFirst(input, x, true, o.to, backtrack, [] + [o.v], fuel - 1);
    }
  }

  lemma {:induction false} OrConsumes(input: string, xs: seq<Parser>, c: Cursor, backtrack: int, fuel: nat)
    requires (forall i | 0 <= i < |xs| :: Slicing(xs[i]) && Consuming(xs[i])) && backtrack >= 1
        && c.state.pos <= |input|
    ensures var o := RunOr([], input, xs, c, backtrack, fuel); o.Ok? ==> o.v.Str? && o.v.s != ""
    decreases xs, 0
  {
    hide Run, Slicing, Consuming;
    if xs != [] {
      ConsumingConsumes(input, xs[0], c, backtrack, fuel);
      SlicingSlices(input, xs[0], c, backtrack, fuel);
      OrConsumes(input, xs[1..], c, backtrack, fuel);
    }
  }

  lemma {:induction false} AndConsumes(input: string, xs: seq<Parser>, c: Cursor, backtrack: int, fuel: nat)
    requires (forall i | 0 <= i < |xs| :: Slicing(xs[i])) && backtrack >= 1 && c.state.pos <= |input|
    ensures var s := Gather([], input, xs, c, backtrack, fuel);
            s.All? ==> |s.vs| == |xs| && forall i :: 0 <= i < |xs| && Consuming(xs[i]) ==>
                s.vs[i].Str? && s.vs[i].s != ""
    decreases xs, 0
  {
    hide Run, Slicing, Consuming;
    if xs != [] {
      if Consuming(xs[0]) { ConsumingConsumes(input, xs[0], c, backtrack, fuel); }
      SlicingSlices(input, xs[0], c, backtrack, fuel);
      var o := Run([], input, xs[0], c, backtrack, fuel);
      if o.Ok? {
        WalkPosition(c, o.v.s);
        AndConsumes(input, xs[1..], o.to, backtrack, fuel);
      }
    }
  }

  /** With fuel for every character left, no run of a progressing parser is endless. */
  lemma {:induction false} ProgressTerminates(input: string, p: Parser, c: Cursor, backtrack: int, fuel: nat)
    requires Slicing(p) && Progressing(p) && backtrack >= 1 && c.state.pos <= |input| <= c.state.pos + fuel
    ensures !Run([], input, p, c, backtrack, fuel).Endless?
    decreases fuel, p, 1
  {
    if p.Not? && IsAnchor(p.x) {
      AnchorStays(input, p.x, c, backtrack, fuel);
    } else if p.Expect? || p.Not? || p.Maybe? {
      ProgressTerminates(input, p.x, c, backtrack, fuel);
    } else if p.Many? {
      ManyTerminates(input, p.x, false, c, backtrack, [], fuel);
    } else if p.Many1? {
      ManyTerminates(input, p.x, true, c, backtrack, [], fuel);
    } else if p.Or? {
      OrTerminates(input, p.xs, c, backtrack, fuel);
    } else if p.And? && p.f.StrFold? {
      AndTerminates(input, p.xs, c, c, backtrack, [], fuel);
    } else if p.And? {
      AnchorStays(input, p.xs[0], c, backtrack, fuel);
      RunAndPair([], input, p.f, p.xs[0], p.xs[1], c, backtrack, fuel);
      assert p.xs == [p.xs[0], p.xs[1]];
      SlicingSlices(input, p, c, backtrack, fuel);
    }
  }

  lemma {:induction false} ManyTerminates(input: string, x: Parser, once: bool, c: Cursor, backtrack: int,
      vs: seq<Val>, fuel: nat)
    requires Slicing(x) && Progressing(x) && Consuming(x) && backtrack >= 1
        && c.state.pos <= |input| <= c.state.pos + fuel
    ensures !RunMany([], input, StrFold, x, once, c, backtrack, vs, fuel).Endless?
    decreases fuel, x, 2
  {
    hide Run, Slicing, Progressing, Consuming, Concat;
    ProgressTerminates(input, x, c, backtrack, fuel);
    ConsumingConsumes(input, x, c, backtrack, fuel);
    SlicingSlices(input, x, c, backtrack, fuel);
    var o := Run([], input, x, c, backtrack, fuel);
    if o.Ok? {
      WalkPosition(c, o.v.s);
      ManyTerminates(input, x, once, o.to, backtrack, vs + [o.v], fuel - 1);
    }
  }

  lemma {:induction false} OrTerminates(input: string, xs: seq<Parser>, c: Cursor, backtrack: int, fuel: nat)
    requires (forall i | 0 <= i < |xs| :: Slicing(xs[i]) && Progressing(xs[i])) && backtrack >= 1
        && c.state.pos <= |input| <= c.state.pos + fuel
    ensures !RunOr([], input, xs, c, backtrack, fuel).Endless?
    decreases fuel, xs, 0
  {
    hide Run, Slicing, Progressing;
    if xs != [] {
      ProgressTerminates(input, xs[0], c, backtrack, fuel);
      SlicingSlices(input, xs[0], c, backtrack, fuel);
      OrTerminates(input, xs[1..], c, backtrack, fuel);
    }
  }

  lemma {:induction false} AndTerminates(input: string, xs: seq<Parser>, from: Cursor, c: Cursor, backtrack: int,
      vs: seq<Val>, fuel: nat)
    requires (forall i | 0 <= i < |xs| :: Slicing(xs[i]) && Progressing(xs[i])) && backtrack >= 1
        && c.state.pos <= |input| <= c.state.pos + fuel
    ensures !RunAnd([], input, StrFold, xs, from, c, backtrack, vs, fuel).Endless?
    decreases fuel, xs, 0
  {
    hide Run, Slicing, Progressing, Concat;
    if xs != [] {
      ProgressTerminates(input, xs[0], c, backtrack, fuel);
      SlicingSlices(input, xs[0], c, backtrack, fuel);
      var o := Run([], input, xs[0], c, backtrack, fuel);
      if o.Ok? {
        WalkPosition(c, o.v.s);
        AndTerminates(input, xs[1..], from, o.to, backtrack, vs + [o.v], fuel);
      }
    }
  }

  // ----- the regular expressions -----

  /** The regular expressions of mpc, as its folds build them. A set is given by the characters
      its brackets expand to; a set without any is not a valid expression. */
  datatype Regex =
    | Dot
    | LineStart
    | LineEnd
    | Letter(c: char)
    | Escaped(c: char)
    | Set(complement: bool, chars: string)
    | NoSet
    | Star(x: Regex)
    | Plus(x: Regex)
    | Optional(x: Regex)
    | Times(n: int, x: Regex)
    | Sequence(xs: seq<Regex>)
    | Either(x: Regex, y: Regex)

  const DIGITS: string := "0123456789"
  const LETTERS: string := "abcdefghijklmnopqrstuvwxyzABCDEFGHIJKLMNOPQRSTUVWXYZ"
  const SPACES: string := [' ', 12 as char, '\n', '\r', '\t', 11 as char]
  const WORD: string := "abcdefghijklmnopqrstuvwxyzABCDEFGHIJKLMNOPQRSTUVWXYZ0123456789_"

  /** strchr also finds the terminator. */
  predicate InWord(ch: char) { ch in WORD || ch == NUL }

  predicate AtBoundary(prev: char, next: char) {
    || (InWord(next) && prev == NUL)
    || (InWord(prev) && next == NUL)
    || (InWord(next) && !InWord(prev))
    || (!InWord(next) && InWord(prev))
  }

  function Soi(): Parser { Expect(Expect(Anchor((prev, next) => prev == NUL))) }

  function Eoi(): Parser { Expect(Expect(Anchor((prev, next) => next == NUL))) }

  function Boundary(): Parser { Expect(Expect(Anchor(AtBoundary))) }

  function Digit(): Parser { Expect(Expect(OneOf(DIGITS))) }

  function Whitespace(): Parser { Expect(Expect(OneOf(SPACES))) }

  function Alphanum(): Parser {
    Expect(Or([Expect(Expect(OneOf(LETTERS))), Digit(), Expect(Expect(Single('_')))]))
  }

  /** Holds where the anchor holds, and yields the empty string. */
  function Anchored(anchor: Parser): Parser {
    And(Nth(1), [anchor, Lift(CtorStr)])
  }

  function Escape(c: char): Parser {
    match c
    case 'a' => Expect(Single(7 as char))
    case 'f' => Expect(Single(12 as char))
    case 'n' => Expect(Single('\n'))
    case 'r' => Expect(Single('\r'))
    case 't' => Expect(Single('\t'))
    case 'v' => Expect(Single(11 as char))
    case 'b' => Anchored(Boundary())
    case 'B' => Not(Boundary(), CtorStr)
    case 'A' => Anchored(Soi())
    case 'Z' => Anchored(Eoi())
    case 'd' => Digit()
    case 'D' => Not(Digit(), CtorStr)
    case 's' => Whitespace()
    case 'S' => Not(Whitespace(), CtorStr)
    case 'w' => Alphanum()
    case 'W' => Not(Alphanum(), CtorStr)
    case _ => Expect(Single(c))
  }

  function Compile(r: Regex): Parser {
    match r
    case Dot => Expect(Any)
    case LineStart => Anchored(Soi())
    case LineEnd => Anchored(Eoi())
    case Letter(c) => Expect(Single(c))
    case Escaped(c) => Escape(c)
    case Set(complement, chars) => if complement then Expect(NoneOf(chars)) else Expect(OneOf(chars))
    case NoSet => Fail
    case Star(x) => Many(StrFold, Compile(x))
    case Plus(x) => Many1(StrFold, Compile(x))
    case Optional(x) => Maybe(Compile(x), CtorStr)
    case Times(n, x) => Count(n, StrFold, Compile(x))
    case Sequence(xs) => CompileSequence(xs)
    case Either(x, y) => Or([Compile(x), Compile(y)])
  }

  /** A left-leaning chain of pairs behind the lift of an empty string. */
  function CompileSequence(xs: seq<Regex>): Parser {
    if xs == [] then Lift(CtorStr)
    else And(StrFold, [CompileSequence(xs[..|xs| - 1]), Compile(xs[|xs| - 1])])
  }

  lemma TermCompiled(x: Regex)
    ensures Compile(Sequence([x])) == And(StrFold, [Lift(CtorStr), Compile(x)])
  {
    assert [x][..0] == [] && CompileSequence([]) == Lift(CtorStr);
  }

  /** The fold that builds the chain, as its loop. */
  method BuildSequence(xs: seq<Regex>) returns (p: Parser)
    ensures p == Compile(Sequence(xs))
  {
    p := Lift(CtorStr);
    var i := 0;
    while i < |xs|
      invariant 0 <= i <= |xs|
      invariant p == CompileSequence(xs[..i])
    {
      assert xs[..i + 1][..i] == xs[..i];
      p := And(StrFold, [p, Compile(xs[i])]);
      i := i + 1;
    }
    assert xs[..i] == xs;
  }

  predicate NoTimes(r: Regex) {
    match r
    case Star(x) => NoTimes(x)
    case Plus(x) => NoTimes(x)
    case Optional(x) => NoTimes(x)
    case Times(_, _) => false
    case Sequence(xs) => forall i | 0 <= i < |xs| :: NoTimes(xs[i])
    case Either(x, y) => NoTimes(x) && NoTimes(y)
    case _ => true
  }

  /** What the slice theorem and the optimiser ask of a parser. */
  ghost predicate Fine(p: Parser) {
    Slicing(p) && Plain({}, p) && Filled(p)
  }

  lemma FineLeaf(p: Parser)
    requires p.Fail? || p.Any? || p.Single? || p.OneOf? || p.NoneOf? || p == Lift(CtorStr)
    ensures Fine(p) && Fine(Expect(p)) && Fine(Expect(Expect(p)))
  {}

  lemma FineWrap(x: Parser)
    requires Fine(x)
    ensures Fine(Expect(x)) && Fine(Not(x, CtorStr)) && Fine(Maybe(x, CtorStr))
  {}

  lemma FineRepeat(x: Parser)
    requires Fine(x)
    ensures Fine(Many(StrFold, x)) && Fine(Many1(StrFold, x))
  {}

  lemma FineList(xs: seq<Parser>)
    requires xs != [] && forall i | 0 <= i < |xs| :: Fine(xs[i])
    ensures Fine(Or(xs)) && Fine(And(StrFold, xs))
  {}

  lemma FinePair(x: Parser, y: Parser)
    requires Fine(x) && Fine(y)
    ensures Fine(Or([x, y])) && Fine(And(StrFold, [x, y]))
  {
    hide Fine;
    FineList([x, y]);
  }

  lemma FineAnchor(holds: (char, char) -> bool)
    ensures var a := Expect(Expect(Anchor(holds))); Fine(Anchored(a)) && Fine(Not(a, CtorStr))
  {
    var h := Anchor(holds);
    var a := Expect(h);
    assert !Lists(h) && !Wraps(h) && Plain({}, h) && Filled(h);
    assert IsAnchor(a) && Plain({}, a) && Filled(a);
    assert IsAnchor(Expect(a)) && Plain({}, Expect(a)) && Filled(Expect(a));
    assert Plain({}, Lift(CtorStr)) && Filled(Lift(CtorStr));
  }

  lemma EscapeIsFine(c: char)
    ensures Fine(Escape(c))
  {
    hide Fine;
    FineAnchor(AtBoundary);
    FineAnchor((prev, next) => prev == NUL);
    FineAnchor((prev, next) => next == NUL);
    FineLeaf(OneOf(DIGITS)); FineWrap(Digit());
    FineLeaf(OneOf(SPACES)); FineWrap(Whitespace());
    FineLeaf(OneOf(LETTERS)); FineLeaf(Single('_'));
    var xs := [Expect(Expect(OneOf(LETTERS))), Digit(), Expect(Expect(Single('_')))];
    FineList(xs); FineWrap(Or(xs)); FineWrap(Alphanum());
    FineLeaf(Single(7 as char)); FineLeaf(Single(12 as char)); FineLeaf(Single('\n'));
    FineLeaf(Single('\r')); FineLeaf(Single('\t')); FineLeaf(Single(11 as char)); FineLeaf(Single(c));
  }

  lemma {:induction false} CompiledIsFine(r: Regex)
    requires NoTimes(r)
    ensures Fine(Compile(r))
    decreases r, 1
  {
    hide Fine, Escape;
    match r
    case Dot => FineLeaf(Any);
    case LineStart => FineAnchor((prev, next) => prev == NUL);
    case LineEnd => FineAnchor((prev, next) => next == NUL);
    case Letter(c) => FineLeaf(Single(c));
    case Set(complement, chars) => FineLeaf(OneOf(chars)); FineLeaf(NoneOf(chars));
    case NoSet => FineLeaf(Fail);
    case Escaped(c) => EscapeIsFine(c);
    case Star(x) => CompiledIsFine(x); FineRepeat(Compile(x));
    case Plus(x) => CompiledIsFine(x); FineRepeat(Compile(x));
    case Optional(x) => CompiledIsFine(x); FineWrap(Compile(x));
    case Sequence(xs) => SequenceIsFine(xs);
    case Either(x, y) => CompiledIsFine(x); CompiledIsFine(y); FinePair(Compile(x), Compile(y));
    case Times(_, _) =>
  }

  lemma {:induction false} SequenceIsFine(xs: seq<Regex>)
    requires forall i | 0 <= i < |xs| :: NoTimes(xs[i])
    ensures Fine(CompileSequence(xs))
    decreases xs, 0
  {
    hide Fine, Compile;
    if xs == [] {
      FineLeaf(Lift(CtorStr));
    } else {
      SequenceIsFine(xs[..|xs| - 1]);
      CompiledIsFine(xs[|xs| - 1]);
      FinePair(CompileSequence(xs[..|xs| - 1]), Compile(xs[|xs| - 1]));
    }
  }

  // ----- without backtracking -----

  /** Expressions that match the empty string only. */
  predicate StillRegex(r: Regex) {
    match r
    case LineStart => true
    case LineEnd => true
    case NoSet => true
    case Escaped(c) => c in "bBAZDSW"
    case Optional(x) => StillRegex(x)
    case Sequence(xs) => forall i | 0 <= i < |xs| :: StillRegex(xs[i])
    case Either(x, y) => StillRegex(x) && StillRegex(y)
    case _ => false
  }

  predicate SureRegex(r: Regex) {
    match r
    case Star(_) => true
    case Optional(_) => true
    case Sequence(xs) => forall i | 0 <= i < |xs| :: SureRegex(xs[i])
    case Either(x, y) => SureRegex(x) || SureRegex(y)
    case _ => false
  }

  /** Every factor that may fail has only empty matches before it, and no class is negated that reads. */
  predicate SteadyRegex(r: Regex) {
    match r
    case Escaped(c) => c !in "DSW"
    case Star(x) => SteadyRegex(x)
    case Plus(x) => SteadyRegex(x)
    case Optional(x) => SteadyRegex(x)
    case Times(_, x) => SteadyRegex(x)
    case Sequence(xs) =>
      && (forall i | 0 <= i < |xs| :: SteadyRegex(xs[i]))
      && forall i | 0 <= i < |xs| :: SureRegex(xs[i]) || forall j | 0 <= j < i :: StillRegex(xs[j])
    case Either(x, y) => SteadyRegex(x) && SteadyRegex(y)
    case _ => true
  }

  lemma EscapeReadsNothing(c: char)
    requires c in "bBAZDSW"
    ensures ReadsNothing(Escape(c))
  {
    hide Boundary, Soi, Eoi, Digit, Whitespace, Alphanum;
  }

  lemma SteadyLeaf(p: Parser)
    requires !Wraps(p) && !Lists(p)
    ensures Steady(p) && Steady(Expect(p)) && Steady(Expect(Expect(p)))
  {}

  lemma ClassesAreSteady()
    ensures Steady(Digit()) && Steady(Whitespace()) && Steady(Alphanum())
  {
    var xs := [Expect(Expect(OneOf(LETTERS))), Digit(), Expect(Expect(Single('_')))];
    SteadyLeaf(OneOf(DIGITS)); SteadyLeaf(OneOf(SPACES)); SteadyLeaf(OneOf(LETTERS)); SteadyLeaf(Single('_'));
    assert Steady(Or(xs)) by { hide ReadsNothing, NeverFails; }
  }

  lemma AnchorsAreSteady(holds: (char, char) -> bool)
    ensures var a := Expect(Expect(Anchor(holds))); Steady(Anchored(a)) && Steady(Not(a, CtorStr))
  {
    assert IsAnchor(Expect(Anchor(holds)));
  }

  lemma EscapeIsSteady(c: char)
    requires c !in "DSW"
    ensures Steady(Escape(c))
  {
    hide Steady, Digit, Whitespace, Alphanum;
    ClassesAreSteady();
    AnchorsAreSteady(AtBoundary); AnchorsAreSteady((prev, next) => prev == NUL);
        AnchorsAreSteady((prev, next) => next == NUL);
    forall ch: char ensures Steady(Expect(Single(ch))) { SteadyLeaf(Single(ch)); }
  }

  lemma {:induction false} StillRight(r: Regex)
    requires StillRegex(r)
    ensures ReadsNothing(Compile(r))
    decreases r, 1
  {
    match r
    case Escaped(c) => EscapeReadsNothing(c);
    case Optional(x) => StillRight(x);
    case Sequence(xs) => StillsRight(xs);
    case Either(x, y) => StillRight(x); StillRight(y);
    case _ =>
  }

  lemma {:induction false} StillsRight(xs: seq<Regex>)
    requires forall i | 0 <= i < |xs| :: StillRegex(xs[i])
    ensures ReadsNothing(CompileSequence(xs))
    decreases xs, 0
  {
    hide Compile;
    if xs != [] {
      StillsRight(xs[..|xs| - 1]);
      StillRight(xs[|xs| - 1]);
    }
  }

  lemma {:induction false} SureRight(r: Regex)
    requires SureRegex(r)
    ensures NeverFails(Compile(r))
    decreases r, 1
  {
    match r
    case Sequence(xs) => SuresRight(xs);
    case Either(x, y) =>
      if SureRegex(x) { SureRight(x); } else { SureRight(y); }
      assert Compile(r).xs[0] == Compile(x) && Compile(r).xs[1] == Compile(y);
    case _ =>
  }

  lemma {:induction false} SuresRight(xs: seq<Regex>)
    requires forall i | 0 <= i < |xs| :: SureRegex(xs[i])
    ensures NeverFails(CompileSequence(xs))
    decreases xs, 0
  {
    hide Compile;
    if xs != [] {
      SuresRight(xs[..|xs| - 1]);
      SureRight(xs[|xs| - 1]);
    }
  }

  lemma {:induction false} SteadyRight(r: Regex)
    requires SteadyRegex(r)
    ensures Steady(Compile(r))
    decreases r, 1
  {
    match r
    case Escaped(c) => EscapeIsSteady(c);
    case Star(x) => SteadyRight(x);
    case Plus(x) => SteadyRight(x);
    case Optional(x) => SteadyRight(x);
    case Times(_, x) => SteadyRight(x);
    case Sequence(xs) => SteadiesRight(xs);
    case Either(x, y) => SteadyRight(x); SteadyRight(y);
    case _ =>
  }

  lemma {:induction false} SteadiesRight(xs: seq<Regex>)
    requires forall i | 0 <= i < |xs| :: SteadyRegex(xs[i])
    requires forall i | 0 <= i < |xs| :: SureRegex(xs[i]) || forall j | 0 <= j < i :: StillRegex(xs[j])
    ensures Steady(CompileSequence(xs))
    decreases xs, 0
  {
    hide Compile, SteadyRegex, SureRegex, StillRegex;
    if xs != [] {
      var init, last := xs[..|xs| - 1], xs[|xs| - 1];
      SteadiesRight(init);
      SteadyRight(last);
      if SureRegex(last) { SureRight(last); } else { StillsRight(init); }
      SteadyPair(CompileSequence(init), Compile(last));
    }
  }

  lemma SteadyPair(x: Parser, y: Parser)
    requires Steady(x) && Steady(y) && (ReadsNothing(x) || NeverFails(y))
    ensures Steady(And(StrFold, [x, y]))
  {
    hide ReadsNothing, NeverFails;
    assert [x, y][1..] == [y] && [y][1..] == [];
    assert SteadyFrom(ReadsNothing(x), [y]);
  }

  /** The expression (ab)?. */
  function OptionalPair(): Regex { Optional(Sequence([Letter('a'), Letter('b')])) }

  /** Backtracking is needed for others: in predictive mode this one yields the empty string on ac and
      has still moved past the a. */
  lemma SlicesNeedBacktracking()
    ensures !SteadyRegex(OptionalPair())
    ensures Run([], "ac", Compile(OptionalPair()), BEGIN, 0, 0) == Ok(Str(""), MpcParser.Step(BEGIN, 'a'))
  {
    LettersCompiled();
    PairRuns();
    assert !SteadyRegex(OptionalPair()) by {
      assert !SureRegex(Letter('b')) && !StillRegex([Letter('a'), Letter('b')][0]);
    }
    hide Compile;
  }

  lemma PairRuns()
    ensures var first := And(StrFold, [Lift(CtorStr), Expect(Single('a'))]);
      Run([], "ac", And(StrFold, [first, Expect(Single('b'))]), BEGIN, 0, 0) == Bad(MpcParser.Step(BEGIN, 'a'))
  {
    var a, b, mid := Expect(Single('a')), Expect(Single('b')), MpcParser.Step(BEGIN, 'a');
    var first := And(StrFold, [Lift(CtorStr), a]);
    assert Run([], "ac", Lift(CtorStr), BEGIN, 0, 0) == Ok(Str(""), BEGIN);
    assert Run([], "ac", a, BEGIN, 0, 0) == Ok(Str("a"), mid);
    assert Run([], "ac", b, mid, 0, 0) == Bad(mid);
    RunOfAnd([], "ac", StrFold, [Lift(CtorStr), a], BEGIN, 0, 0);
    RunOfAnd([], "ac", StrFold, [first, b], BEGIN, 0, 0);
    hide Run;
    RunAndPair([], "ac", StrFold, Lift(CtorStr), a, BEGIN, 0, 0);
    assert AllStr([Str(""), Str("a")]);
    RunAndPair([], "ac", StrFold, first, b, BEGIN, 0, 0);
  }

  lemma LettersCompiled()
    ensures Compile(OptionalPair()) ==
        Maybe(And(StrFold, [And(StrFold, [Lift(CtorStr), Expect(Single('a'))]), Expect(Single('b'))]), CtorStr)
  {
    var xs := [Letter('a'), Letter('b')];
    TermCompiled(Letter('a'));
    assert xs[..1] == [Letter('a')];
    assert Compile(Letter('a')) == Expect(Single('a')) && Compile(Letter('b')) == Expect(Single('b'));
    hide Compile;
    assert CompileSequence(xs) == And(StrFold, [CompileSequence(xs[..1]), Compile(xs[1])]);
  }

  /** Every expression without a counted repeat, compiled and optimised: a success yields
      exactly the input it has read, a failure has read nothing, and undefined behaviour never
      occurs. So it is with backtracking on, and for steady expressions also with it off. */
  lemma RegexSlices(r: Regex, input: string, c: Cursor, backtrack: int, fuel: nat)
    requires NoTimes(r) && (backtrack >= 1 || SteadyRegex(r)) && c.state.pos <= |input|
    ensures Sliced(input, c, Run([], input, Optimise(Compile(r)), c, backtrack, fuel))
    ensures Run([], input, Optimise(Compile(r)), c, backtrack, fuel) == Run([], input, Compile(r), c, backtrack, fuel)
  {
    hide Run, Slicing, Steady, SteadyRegex, Plain, Treed, Filled, Optimise, Compile;
    CompiledIsFine(r);
    if SteadyRegex(r) { SteadyRight(r); }
    SlicingSlices(input, Compile(r), c, backtrack, fuel);
    PlainIsTreed({}, {}, Compile(r));
    PlainOptimiseSound({}, {}, [], input, Compile(r), c, backtrack, fuel);
    assert OptimiseAll([]) == [];
  }

  /** It comes to an end when the bodies of its repeats consume input. */
  lemma RegexTerminates(r: Regex, input: string, c: Cursor, backtrack: int, fuel: nat)
    requires NoTimes(r) && Progressing(Compile(r)) && backtrack >= 1 && c.state.pos <= |input| <= c.state.pos + fuel
    ensures !Run([], input, Optimise(Compile(r)), c, backtrack, fuel).Endless?
  {
    hide Run, Slicing, Plain, Filled, Optimise, Compile;
    CompiledIsFine(r);
    ProgressTerminates(input, Compile(r), c, backtrack, fuel);
    RegexSlices(r, input, c, backtrack, fuel);
  }
}
