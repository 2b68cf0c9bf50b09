/** The string input of mpc with its stack of marks, and the interpreter that moves it. */
module MpcInput {
  import opened Options
  import opened MpcAst
  import opened MpcParser
  import opened MpcText
  import Meaning = MpcMeaning

  const MARKS_MIN: nat := 32

  datatype Result = Success(output: Val) | Failure | NoMeaning | OutOfFuel

  class Input {
    const text: string
    var state: Position
    var last: char
    var suppress: int
    var backtrack: int
    var marksSlots: nat
    var marksNum: nat
    var marks: seq<Position>
    var lasts: seq<char>
    ghost var marked: seq<Cursor>  // the marks that are set, oldest first

    ghost predicate Valid()
      reads this`marksSlots, this`marksNum, this`marks, this`lasts, this`marked
    {
      && MARKS_MIN <= marksSlots == |marks| == |lasts|
      && |marked| == marksNum <= marksSlots
      && forall i :: 0 <= i < marksNum ==> marked[i] == Cursor(marks[i], lasts[i])
    }

    function At(): Cursor
      reads this`state, this`last
    {
      Cursor(state, last)
    }

    constructor (text: string)
      ensures Valid() && fresh(this)
      ensures this.text == text && At() == BEGIN && marked == [] && backtrack == 1 && suppress == 0
    {
      this.text := text;
      state, last := START, NUL;
      suppress, backtrack := 0, 1;
      marksSlots, marksNum := MARKS_MIN, 0;
      marks := seq(MARKS_MIN, _ => START);
      lasts := seq(MARKS_MIN, _ => NUL);
      marked := [];
    }

    method Mark()
      requires Valid()
      modifies this`marksNum, this`marksSlots, this`marks, this`lasts, this`marked
      ensures Valid()
      ensures marked == if backtrack < 1 then old(marked) else old(marked) + [At()]
    {
      if backtrack < 1 { return; }
      marksNum := marksNum + 1;
      if marksNum > marksSlots {
        var grown := marksNum + marksNum / 2;
        marks := marks + seq(grown - marksSlots, _ => START);
        lasts := lasts + seq(grown - marksSlots, _ => NUL);
        marksSlots := grown;
      }
      marks := marks[marksNum - 1 := state];
      lasts := lasts[marksNum - 1 := last];
      marked := marked + [At()];
    }

    method Unmark()
      requires Valid() && (backtrack < 1 || marked != [])
      modifies this`marksNum, this`marksSlots, this`marks, this`lasts, this`marked
      ensures Valid()
      ensures marked == if backtrack < 1 then old(marked) else old(marked)[..|old(marked)| - 1]
    {
      if backtrack < 1 { return; }
      marksNum := marksNum - 1;
      marked := marked[..marksNum];
      if marksSlots > marksNum + marksNum / 2 && marksSlots > MARKS_MIN {
        marksSlots := if marksNum > MARKS_MIN then marksNum else MARKS_MIN;
        marks := marks[..marksSlots];
        lasts := lasts[..marksSlots];
      }
    }

    method Rewind()
      requires Valid() && (backtrack < 1 || marked != [])
      modifies this`state, this`last, this`marksNum, this`marksSlots, this`marks, this`lasts, this`marked
      ensures Valid()
      ensures marked == if backtrack < 1 then old(marked) else old(marked)[..|old(marked)| - 1]
      ensures At() == if backtrack < 1 then old(At()) else old(marked[|marked| - 1])
    {
      if backtrack < 1 { return; }
      state := marks[marksNum - 1];
      last := lasts[marksNum - 1];
      Unmark();
    }

    method Advance(ch: char)
      modifies this`state, this`last
      ensures At() == Step(old(At()), ch)
    {
      last := ch;
      state := state.(pos := state.pos + 1, col := state.col + 1);
      if ch == '\n' {
        state := state.(col := 0, row := state.row + 1);
      }
    }

    method TakeIf(test: char -> bool) returns (r: Result)
      modifies this`state, this`last
      ensures r == Report(Take(text, old(At()), test)) && At() == Reached(Take(text, old(At()), test), At())
    {
      if state.pos >= |text| { return Failure; }
      var ch := text[state.pos];
      if test(ch) {
        Advance(ch);
        r := Success(Str([ch]));
      } else {
        r := Failure;
      }
    }

    lemma SpellStep(c: Cursor, s: string, i: nat)
      requires i < |s|
      ensures Spell(text, c, s[i..]) ==
        if c.state.pos < |text| && text[c.state.pos] == s[i] then Spell(text, Step(c, s[i]), s[i + 1..]) else (c, false)
    {
      assert s[i..][1..] == s[i + 1..];
    }

    lemma SpelledAll(c: Cursor)
      ensures Spell(text, c, "") == (c, true)
    {}

    method ReadString(s: string) returns (r: Result)
      requires Valid()
      modifies this
      ensures Valid() && backtrack == old(backtrack) && suppress == old(suppress) && marked == old(marked)
      ensures var o := Spelled(s, Spell(text, old(At()), s), old(At()), backtrack);
              r == Report(o) && At() == Reached(o, At())
    {
      hide Spell, Valid;
      ghost var o := Spell(text, At(), s);
      Mark();
      var i := 0;
      while i < |s|
        invariant Valid() && backtrack == old(backtrack) && suppress == old(suppress)
        invariant 0 <= i <= |s|
        invariant marked == old(marked) + if backtrack < 1 then [] else [old(At())]
        invariant Spell(text, At(), s[i..]) == o
      {
        SpellStep(At(), s, i);
        if state.pos < |text| && text[state.pos] == s[i] {
          Advance(s[i]);
          i := i + 1;
        } else {
          Rewind();
          return Failure;
        }
      }
      assert s[i..] == "";
      SpelledAll(At());
      Unmark();
      return Success(Str(s));
    }

    /** The input stands where so many characters of its text have been read. */
    predicate InPlace()
      reads this`state, this`last
    {
      Meaning.Stands(text, At())
    }

    /** The parser has succeeded or failed from the character i to where the input stands. */
    ghost predicate Describes(g: Grammar, p: Parser, depth: int, i: nat, r: Result)
      reads this`state, this`last
    {
      && (r.Success? ==> InPlace() && Meaning.Succeeds(g, text, p, depth, i, r.output, state.pos))
      && (r.Failure? ==> InPlace() && Meaning.Fails(g, text, p, depth, i, state.pos))
    }

    /** The interpreter. Whatever the parser, a run that comes back has put back the counters
        and every mark below it, and has moved the input to where Run says, which is an outcome that the parser
        means. */
    method ParseRun(g: Grammar, p: Parser, fuel: nat) returns (r: Result)
      requires Valid()
      modifies this
      ensures var o := Run(g, text, p, old(At()), old(backtrack), fuel);
        && r == Report(o)
        && (r.Success? || r.Failure? ==> Balanced() && At() == Reached(o, At()))
      ensures old(InPlace()) ==> Meaning.IsOutcome(g, text, p, old(backtrack), old(state.pos),
          Run(g, text, p, old(At()), old(backtrack), fuel))
      decreases fuel, p, 1
    {
      hide InPlace, Meaning.IsOutcome;
      MeansWhatItRuns(g, p, fuel);
      if IsBasic(p) {
        r := ParseBasic(p);
        return;
      }
      if p.Expect? || p.Apply? || p.ApplyTo? || p.Predict? {
        r := ParseWrapped(g, p, fuel);
        return;
      }
      match p
      case Not(x, lf) =>
        r := ParseNot(g, x, lf, fuel);
      case Maybe(x, lf) =>
        r := ParseRun(g, x, fuel);
        if r.Failure? { return Success(lf.Make()); }
      case Many(f, x) => r := ParseMany(g, f, x, false, fuel);
      case Many1(f, x) => r := ParseMany(g, f, x, true, fuel);
      case Count(n, f, x) => r := ParseCount(g, n, f, x, fuel);
      case Or(xs) =>
        if |xs| == 0 { return Success(Null); }
        r := ParseOr(g, xs, fuel);
      case And(f, xs) =>
        if |xs| == 0 { return Success(Null); }
        r := ParseAnd(g, f, xs, fuel);
      case Ref(id) =>
        if |g| <= id { return Failure; }
        if fuel == 0 { return OutOfFuel; }
        r := ParseRun(g, g[id], fuel - 1);
    }

    /** A run on its own: the parser succeeds from where the input stands to where it is left, with the
        result reported, or fails; where the run has no meaning it neither succeeds nor fails. */
    method ParseInput(g: Grammar, p: Parser, fuel: nat) returns (r: Result)
      requires Valid() && InPlace()
      modifies this
      ensures r.Success? || r.Failure? ==> Balanced()
      ensures Describes(g, p, old(backtrack), old(state.pos), r)
      ensures forall v, j: nat | Meaning.Succeeds(g, text, p, old(backtrack), old(state.pos), v, j) ::
          r.OutOfFuel? || (r == Success(v) && state.pos == j)
      ensures forall j: nat | Meaning.Fails(g, text, p, old(backtrack), old(state.pos), j) ::
          r.OutOfFuel? || (r.Failure? && state.pos == j)
    {
      hide Run, Meaning.Succeeds, Meaning.Fails;
      OnlyOutcome(g, p, fuel);
      r := ParseRun(g, p, fuel);
    }

    /** What the parser means is what the run comes to, if the fuel does not run out. */
    lemma OnlyOutcome(g: Grammar, p: Parser, fuel: nat)
      requires InPlace()
      ensures var o := Run(g, text, p, At(), backtrack, fuel);
        && (forall v, j: nat | Meaning.Succeeds(g, text, p, backtrack, state.pos, v, j) ::
              o.Endless? || (o.Ok? && o.v == v && o.to.state.pos == j))
        && (forall j: nat | Meaning.Fails(g, text, p, backtrack, state.pos, j) ::
              o.Endless? || (o.Bad? && o.to.state.pos == j))
    {
      hide Run, Standing, Meaning.Succeeds, Meaning.Fails;
      var i, o := state.pos, Run(g, text, p, At(), backtrack, fuel);
      forall v, j: nat | Meaning.Succeeds(g, text, p, backtrack, i, v, j)
        ensures o.Endless? || (o.Ok? && o.v == v && o.to.state.pos == j)
      {
        Meaning.SuccessDecides(g, text, p, backtrack, i, v, j, fuel);
      }
      forall j: nat | Meaning.Fails(g, text, p, backtrack, i, j)
        ensures o.Endless? || (o.Bad? && o.to.state.pos == j)
      {
        Meaning.FailureDecides(g, text, p, backtrack, i, j, fuel);
      }
    }

    lemma MeansWhatItRuns(g: Grammar, p: Parser, fuel: nat)
      ensures InPlace() ==>
        Meaning.IsOutcome(g, text, p, backtrack, state.pos, Run(g, text, p, At(), backtrack, fuel))
    {
      if InPlace() { Meaning.RunMeans(g, text, p, backtrack, state.pos, fuel); }
    }

    method ParseWrapped(g: Grammar, p: Parser, fuel: nat) returns (r: Result)
      requires Valid() && (p.Expect? || p.Apply? || p.ApplyTo? || p.Predict?)
      modifies this
      ensures var o := Run(g, text, p, old(At()), old(backtrack), fuel);
        && r == Report(o)
        && (r.Success? || r.Failure? ==> Balanced() && At() == Reached(o, At()))
      decreases fuel, p, 0
    {
      hide InPlace, Describes, Meaning.IsOutcome;
      match p
      case Expect(x) =>
        suppress := suppress + 1;
        r := ParseRun(g, x, fuel);
        suppress := suppress - 1;
      case Apply(x, apply) =>
        r := ParseRun(g, x, fuel);
        r := MapResult(r, apply);
      case ApplyTo(x, applyTo, d) =>
        r := ParseRun(g, x, fuel);
        r := MapResult(r, v => applyTo(v, d));
      case Predict(x) =>
        backtrack := backtrack - 1;
        r := ParseRun(g, x, fuel);
        backtrack := backtrack + 1;
    }

    method ParseBasic(p: Parser) returns (r: Result)
      requires Valid() && IsBasic(p)
      modifies this
      ensures var o := Run([], text, p, old(At()), backtrack, 0);
        && r == Report(o) && Balanced() && At() == Reached(o, At())
    {
      match p
      case Undefined => return Failure;
      case Pass => return Success(Null);
      case Fail => return Failure;
      case Lift(lf) => return Success(lf.Make());
      case LiftVal(v) => return Success(v);
      case State => return Success(Place(state));
      case Any => r := TakeIf(ch => true);
      case Single(x) => r := TakeIf(ch => ch == x);
      case OneOf(s) => r := TakeIf(ch => ch in s);
      case NoneOf(s) => r := TakeIf(ch => ch !in s);
      case Range(lo, hi) => r := TakeIf(ch => lo <= ch <= hi);
      case Satisfy(test) => r := TakeIf(test);
      case Literal(s) => r := ReadString(s);
      case Anchor(holds) =>
        if holds(last, Peek(text, At())) { return Success(Null); } else { return Failure; }
    }

    method ParseNot(g: Grammar, x: Parser, lf: Ctor, fuel: nat) returns (r: Result)
      requires Valid()
      modifies this
      ensures var o := Negated(Run(g, text, x, old(At()), old(backtrack), fuel), lf, old(At()), old(backtrack));
        && r == Report(o)
        && (r.Success? || r.Failure? ==> Balanced() && At() == Reached(o, At()))
      decreases fuel, x, 2
    {
      hide Run, InPlace, Describes, Meaning.IsOutcome;
      ghost var below := marked;
      Mark();
      suppress := suppress + 1;
      r := ParseRun(g, x, fuel);
      if r.Success? {
        Rewind();
        suppress := suppress - 1;
        assert marked == below;
        return Failure;
      } else if r.Failure? {
        Unmark();
        suppress := suppress - 1;
        assert marked == below;
        return Success(lf.Make());
      }
    }

    method ParseMany(g: Grammar, f: Fold, x: Parser, once: bool, fuel: nat) returns (r: Result)
      requires Valid()
      modifies this
      ensures var o := RunMany(g, text, f, x, once, old(At()), old(backtrack), [], fuel);
        && r == Report(o)
        && (r.Success? || r.Failure? ==> Balanced() && At() == Reached(o, At()))
      decreases fuel, x, 2
    {
      hide Run, RunMany, Valid, InPlace, Describes, ApplyFold, Meaning.IsOutcome;
      ghost var o := RunMany(g, text, f, x, once, At(), backtrack, [], fuel);
      var results: seq<Val> := [];
      var left: nat := fuel;
      while true
        invariant Balanced()
        invariant left <= fuel
        invariant o == RunMany(g, text, f, x, once, At(), backtrack, results, left)
        decreases left
      {
        ManyUnfolds(g, text, f, x, once, At(), backtrack, results, left);
        r := ParseRun(g, x, left);
        if !r.Success? { break; }
        results := results + [r.output];
        if left == 0 { return OutOfFuel; }
        left := left - 1;
      }
      if r.Failure? && !(once && results == []) {
        r := FoldResult(f, results);
      }
    }

    method ParseCount(g: Grammar, n: int, f: Fold, x: Parser, fuel: nat) returns (r: Result)
      requires Valid()
      modifies this
      ensures var o := Run(g, text, Count(n, f, x), old(At()), old(backtrack), fuel);
        && r == Report(o)
        && (r.Success? || r.Failure? ==> Balanced() && At() == Reached(o, At()))
      decreases fuel, x, 3
    {
      hide InPlace, Describes, Meaning.IsOutcome;
      ghost var o := Run(g, text, Count(n, f, x), At(), backtrack, fuel);
      var slots := if n > 4 then n else 4;
      var results: seq<Val> := [];
      while true
        invariant Balanced()
        invariant |results| <= slots && (n > 0 ==> |results| < n)
        invariant RunCount(g, text, n, f, x, At(), backtrack, results, fuel) == o
        decreases slots - |results|
      {
        if |results| == slots { return NoMeaning; }
        r := ParseRun(g, x, fuel);
        if !r.Success? { break; }
        results := results + [r.output];
        if |results| == n { break; }
      }
      if r.Success? || (r.Failure? && |results| == n) {
        r := FoldResult(f, results);
      }
    }

    method ParseOr(g: Grammar, xs: seq<Parser>, fuel: nat) returns (r: Result)
      requires Valid() && xs != []
      modifies this
      ensures var o := RunOr(g, text, xs, old(At()), old(backtrack), fuel);
        && r == Report(o)
        && (r.Success? || r.Failure? ==> Balanced() && At() == Reached(o, At()))
      decreases fuel, xs, 2
    {
      hide InPlace, Describes, Meaning.IsOutcome;
      ghost var o := RunOr(g, text, xs, At(), backtrack, fuel);
      var j := 0;
      while j < |xs|
        invariant Balanced()
        invariant 0 <= j <= |xs|
        invariant RunOr(g, text, xs[j..], At(), backtrack, fuel) == o
      {
        assert xs[j..][1..] == xs[j + 1..];
        r := ParseRun(g, xs[j], fuel);
        if !r.Failure? { return; }
        j := j + 1;
      }
      return Failure;
    }

    method ParseAnd(g: Grammar, f: Fold, xs: seq<Parser>, fuel: nat) returns (r: Result)
      requires Valid() && xs != []
      modifies this
      ensures var o := RunAnd(g, text, f, xs, old(At()), old(At()), old(backtrack), [], fuel);
        && r == Report(o)
        && (r.Success? || r.Failure? ==> Balanced() && At() == Reached(o, At()))
      decreases fuel, xs, 2
    {
      hide Run, RunAnd, Valid, InPlace, Describes, Meaning.IsOutcome;
      ghost var from, below := At(), marked;
      ghost var o := RunAnd(g, text, f, xs, from, from, backtrack, [], fuel);
      var results: seq<Val> := [];
      Mark();
      var j := 0;
      while j < |xs|
        invariant Valid() && backtrack == old(backtrack) && suppress == old(suppress)
        invariant marked == if backtrack < 1 then below else below + [from]
        invariant 0 <= j <= |xs|
        invariant RunAnd(g, text, f, xs[j..], from, At(), backtrack, results, fuel) == o
      {
        AndStep(g, f, xs, j, from, At(), backtrack, results, fuel);
        r := ParseRun(g, xs[j], fuel);
        if r.Failure? {
          Rewind();
          assert marked == below;
          return;
        }
        if !r.Success? { return; }
        results := results + [r.output];
        j := j + 1;
      }
      AndEnd(g, f, xs, j, from, At(), backtrack, results, fuel);
      Unmark();
      assert marked == below;
      r := FoldResult(f, results);
    }

    lemma AndStep(g: Grammar, f: Fold, xs: seq<Parser>, j: nat, from: Cursor, c: Cursor, bt: int, vs: seq<Val>,
        fuel: nat)
      requires j < |xs|
      ensures var o := Run(g, text, xs[j], c, bt, fuel);
        RunAnd(g, text, f, xs[j..], from, c, bt, vs, fuel) ==
          if o.Ok? then RunAnd(g, text, f, xs[j + 1..], from, o.to, bt, vs + [o.v], fuel)
          else if o.Bad? then Bad(Rewound(from, o.to, bt))
          else o
    {
      hide Run;
      assert xs[j..][1..] == xs[j + 1..];
    }

    lemma AndEnd(g: Grammar, f: Fold, xs: seq<Parser>, j: nat, from: Cursor, c: Cursor, bt: int, vs: seq<Val>,
        fuel: nat)
      requires j == |xs|
      ensures RunAnd(g, text, f, xs[j..], from, c, bt, vs, fuel) == Folded(f, vs, c)
    {}

    /** Everything but the position is as it was on entry. */
    twostate predicate Balanced()
      reads this
    {
      && Valid() && old(Valid())
      && backtrack == old(backtrack) && suppress == old(suppress)
      && marked == old(marked)
    }
  }

  /** The parsers without a parser inside. */
  predicate IsBasic(p: Parser) {
    || p.Undefined? || p.Pass? || p.Fail? || p.Lift? || p.LiftVal? || p.State? || p.Any? || p.Single?
    || p.OneOf? || p.NoneOf? || p.Range? || p.Satisfy? || p.Literal? || p.Anchor?
  }

  function MapResult(r: Result, f: Val -> Option<Val>): Result {
    if r.Success? then FromOption(f(r.output)) else r
  }

  function FoldResult(f: Fold, vs: seq<Val>): Result {
    FromOption(ApplyFold(f, vs))
  }

  function FromOption(v: Option<Val>): Result {
    if v.Some? then Success(v.value) else NoMeaning
  }

  /** What the caller of the interpreter sees of an outcome. */
  function Report(o: Outcome): Result {
    match o
    case Ok(v, _) => Success(v)
    case Bad(_) => Failure
    case Wild => NoMeaning
    case Endless => OutOfFuel
  }

  /** Where the outcome leaves the input; nothing is said once the program has no meaning. */
  function Reached(o: Outcome, otherwise: Cursor): Cursor {
    match o
    case Ok(_, to) => to
    case Bad(to) => to
    case _ => otherwise
  }
}
