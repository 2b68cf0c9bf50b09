/** Which texts the regular expressions of mpc match: greedy, ordered, without going back into a repeat
    or an alternative that has matched. */
module MpcMatching {
  import opened Options
  import opened MpcAst
  import opened MpcParser
  import opened MpcText
  import opened MpcMeaning
  import opened MpcBacktrack
  import opened MpcRules
  import opened MpcCoded
  import opened MpcRegex
  import opened MpcCodedRegex

  // ----- matching -----

  /** A match ends before some character, or there is none, or a repeat of the empty text goes on for ever. */
  datatype Matching = Upto(end: nat) | NoMatch | NeverEnds

  predicate IsDigit(ch: char) { '0' <= ch <= '9' }

  predicate IsSpace(ch: char) { ch as int == 32 || 9 <= ch as int <= 13 }

  predicate IsLetter(ch: char) { 'a' <= ch <= 'z' || 'A' <= ch <= 'Z' }

  predicate IsWordly(ch: char) { IsLetter(ch) || IsDigit(ch) || ch == '_' }

  /** No character stands before i; a text of C has no terminator inside. */
  predicate AtStart(text: string, i: nat)
    requires i <= |text|
  {
    Before(text, i) == NUL
  }

  predicate AtEnd(text: string, i: nat) {
    After(text, i) == NUL
  }

  /** Both ends of the text count, whatever stands there. */
  predicate IsBoundary(text: string, i: nat)
    requires i <= |text|
  {
    AtStart(text, i) || AtEnd(text, i) || IsWordly(Before(text, i)) != IsWordly(After(text, i))
  }

  function One(text: string, i: nat, test: char -> bool): Matching {
    if i < |text| && test(text[i]) then Upto(i + 1) else NoMatch
  }

  function Nothing(holds: bool, i: nat): Matching {
    if holds then Upto(i) else NoMatch
  }

  /** The code of the character that a letter stands for behind a backslash, or the letter. */
  function Code(c: char): int {
    match c
    case 'a' => 7
    case 't' => 9
    case 'n' => 10
    case 'v' => 11
    case 'f' => 12
    case 'r' => 13
    case _ => c as int
  }

  /** A class with a capital letter matches the empty text where the small one does not match. */
  function MatchEscaped(c: char, text: string, i: nat): Matching
    requires i <= |text|
  {
    match c
    case 'd' => One(text, i, IsDigit)
    case 's' => One(text, i, IsSpace)
    case 'w' => One(text, i, IsWordly)
    case 'D' => Nothing(!(i < |text| && IsDigit(text[i])), i)
    case 'S' => Nothing(!(i < |text| && IsSpace(text[i])), i)
    case 'W' => Nothing(!(i < |text| && IsWordly(text[i])), i)
    case 'b' => Nothing(IsBoundary(text, i), i)
    case 'B' => Nothing(!IsBoundary(text, i), i)
    case 'A' => Nothing(AtStart(text, i), i)
    case 'Z' => Nothing(AtEnd(text, i), i)
    case _ => One(text, i, ch => ch as int == Code(c))
  }

  function Match(r: Regex, text: string, i: nat): (m: Matching)
    requires NoTimes(r) && i <= |text|
    ensures m.Upto? ==> i <= m.end <= |text|
    decreases r, 0, 0
  {
    match r
    case Dot => One(text, i, ch => true)
    case LineStart => Nothing(AtStart(text, i), i)
    case LineEnd => Nothing(AtEnd(text, i), i)
    case Letter(c) => One(text, i, ch => ch == c)
    case Escaped(c) => MatchEscaped(c, text, i)
    case Set(complement, chars) => One(text, i, ch => (exists k | 0 <= k < |chars| :: chars[k] == ch) != complement)
    case NoSet => NoMatch
    case Star(x) => MatchRepeat(x, text, i)
    case Plus(x) =>
      (match Match(x, text, i)
       case Upto(j) => if j == i then NeverEnds else MatchRepeat(x, text, j)
       case m => m)
    case Optional(x) => (match Match(x, text, i) case NoMatch => Upto(i) case m => m)
    case Sequence(xs) => MatchInTurn(xs, text, i)
    case Either(x, y) => (match Match(x, text, i) case NoMatch => Match(y, text, i) case m => m)
  }

  /** As often as there is a match. */
  function MatchRepeat(x: Regex, text: string, i: nat): (m: Matching)
    requires NoTimes(x) && i <= |text|
    ensures !m.NoMatch? && (m.Upto? ==> i <= m.end <= |text|)
    decreases x, 1, |text| - i
  {
    match Match(x, text, i)
    case NoMatch => Upto(i)
    case NeverEnds => NeverEnds
    case Upto(j) => if j == i then NeverEnds else MatchRepeat(x, text, j)
  }

  function MatchInTurn(xs: seq<Regex>, text: string, i: nat): (m: Matching)
    requires (forall k | 0 <= k < |xs| :: NoTimes(xs[k])) && i <= |text|
    ensures m.Upto? ==> i <= m.end <= |text|
    decreases xs, 0, 0
  {
    if xs == [] then Upto(i)
    else match Match(xs[0], text, i) case Upto(j) => MatchInTurn(xs[1..], text, j) case m => m
  }

  // ----- compiled expressions match just so -----

  /** The outcome of a run that begins at the character i and matches in this way: the text read. */
  function MatchOutcome(text: string, from: nat, i: nat, m: Matching): Outcome
    requires from <= i <= |text| && (m.Upto? ==> i <= m.end <= |text|)
  {
    match m
    case Upto(j) => Ok(Str(text[from..j]), Standing(text, j))
    case NoMatch => Bad(Standing(text, from))
    case NeverEnds => Endless
  }

  lemma TakesOne(text: string, i: nat, read: char -> bool, test: char -> bool)
    requires i <= |text| && (i < |text| ==> read(text[i]) == test(text[i]))
    ensures Take(text, Standing(text, i), read) == MatchOutcome(text, i, i, One(text, i, test))
  {
    StandPosition(text, i);
    if i < |text| {
      StandingSteps(text, i);
      assert text[i..i + 1] == [text[i]];
    }
    hide Standing;
  }

  lemma DigitIs(ch: char)
    ensures ch in DIGITS <==> IsDigit(ch)
  {}

  lemma SpaceIs(ch: char)
    ensures ch in SPACES <==> IsSpace(ch)
  {}

  const SMALL: string := "abcdefghijklmnopqrstuvwxyz"
  const CAPITAL: string := "ABCDEFGHIJKLMNOPQRSTUVWXYZ"

  lemma HalvesAre(ch: char)
    ensures ch in "abcdefghijklm" <==> 'a' <= ch <= 'm'
    ensures ch in "nopqrstuvwxyz" <==> 'n' <= ch <= 'z'
    ensures ch in "ABCDEFGHIJKLM" <==> 'A' <= ch <= 'M'
    ensures ch in "NOPQRSTUVWXYZ" <==> 'N' <= ch <= 'Z'
  {}

  lemma InEither(ch: char, s: string, t: string)
    ensures ch in s + t <==> ch in s || ch in t
  {}

  lemma SmallIs(ch: char)
    ensures ch in SMALL <==> 'a' <= ch <= 'z'
  {
    HalvesAre(ch);
    InEither(ch, "abcdefghijklm", "nopqrstuvwxyz");
    assert SMALL == "abcdefghijklm" + "nopqrstuvwxyz";
  }

  lemma CapitalIs(ch: char)
    ensures ch in CAPITAL <==> 'A' <= ch <= 'Z'
  {
    HalvesAre(ch);
    InEither(ch, "ABCDEFGHIJKLM", "NOPQRSTUVWXYZ");
    assert CAPITAL == "ABCDEFGHIJKLM" + "NOPQRSTUVWXYZ";
  }

  lemma LettersAre()
    ensures LETTERS == SMALL + CAPITAL
  {}

  lemma LetterIs(ch: char)
    ensures ch in LETTERS <==> IsLetter(ch)
  {
    LettersAre();
    InEither(ch, SMALL, CAPITAL);
    SmallIs(ch);
    CapitalIs(ch);
  }

  lemma WordIs(ch: char)
    ensures ch in WORD <==> IsWordly(ch)
  {
    LetterIs(ch);
    DigitIs(ch);
    assert WORD == LETTERS + DIGITS + "_";
  }

  /** A run of p from the character i on. */
  function RunAt(p: Parser, text: string, i: nat, backtrack: int, fuel: nat): Outcome
    requires i <= |text|
  {
    Run([], text, p, Standing(text, i), backtrack, fuel)
  }

  predicate Passes(p: Parser, ch: char) {
    p.Any? || (p.Single? && ch == p.c) || (p.OneOf? && ch in p.s) || (p.NoneOf? && ch !in p.s)
  }

  lemma OneRuns(p: Parser, test: char -> bool, text: string, i: nat, backtrack: int, fuel: nat)
    requires i <= |text| && (p.Any? || p.Single? || p.OneOf? || p.NoneOf?)
    requires i < |text| ==> (test(text[i]) <==> Passes(p, text[i]))
    ensures var o := MatchOutcome(text, i, i, One(text, i, test));
      RunAt(p, text, i, backtrack, fuel) == o && RunAt(Expect(p), text, i, backtrack, fuel) == o
        && RunAt(Expect(Expect(p)), text, i, backtrack, fuel) == o
  {
    match p
    case Any => TakesOne(text, i, ch => true, test);
    case Single(c) => TakesOne(text, i, ch => ch == c, test);
    case OneOf(s) => TakesOne(text, i, ch => ch in s, test);
    case NoneOf(s) => TakesOne(text, i, ch => ch !in s, test);
  }

  lemma ClassesRun(text: string, i: nat, backtrack: int, fuel: nat)
    requires i <= |text|
    ensures RunAt(Digit(), text, i, backtrack, fuel) == MatchOutcome(text, i, i, One(text, i, IsDigit))
    ensures RunAt(Whitespace(), text, i, backtrack, fuel) == MatchOutcome(text, i, i, One(text, i, IsSpace))
    ensures RunAt(Alphanum(), text, i, backtrack, fuel) == MatchOutcome(text, i, i, One(text, i, IsWordly))
  {
    if i < |text| {
      DigitIs(text[i]);
      SpaceIs(text[i]);
      LetterIs(text[i]);
    }
    hide RunAt, IsDigit, IsSpace, IsLetter;
    OneRuns(OneOf(DIGITS), IsDigit, text, i, backtrack, fuel);
    OneRuns(OneOf(SPACES), IsSpace, text, i, backtrack, fuel);
    OneRuns(OneOf(LETTERS), IsLetter, text, i, backtrack, fuel);
    OneRuns(Single('_'), ch => ch == '_', text, i, backtrack, fuel);
    ThreeRun(Expect(Expect(OneOf(LETTERS))), Digit(), Expect(Expect(Single('_'))), text, i, backtrack, fuel);
  }

  lemma ThreeRun(a: Parser, b: Parser, c: Parser, text: string, i: nat, backtrack: int, fuel: nat)
    requires i <= |text|
    requires var x := RunAt(a, text, i, backtrack, fuel); x.Ok? || x == Bad(Standing(text, i))
    requires var y := RunAt(b, text, i, backtrack, fuel); y.Ok? || y == Bad(Standing(text, i))
    ensures var x := RunAt(a, text, i, backtrack, fuel);
      var y := RunAt(b, text, i, backtrack, fuel);
      var z := RunAt(c, text, i, backtrack, fuel);
      RunAt(Expect(Or([a, b, c])), text, i, backtrack, fuel) == if x.Ok? then x else if y.Ok? then y else z
  {
    var xs, from := [a, b, c], Standing(text, i);
    assert xs[1..] == [b, c] && [b, c][1..] == [c] && [c][1..] == [];
    RunOfOr([], text, xs, from, backtrack, fuel);
    assert RunAt(Expect(Or(xs)), text, i, backtrack, fuel) == RunOr([], text, xs, from, backtrack, fuel);
    hide Run, Standing;
    assert RunOr([], text, [c], from, backtrack, fuel) == RunAt(c, text, i, backtrack, fuel);
  }

  lemma AnchorRuns(holds: (char, char) -> bool, text: string, i: nat, backtrack: int, fuel: nat)
    requires i <= |text|
    ensures var a := Expect(Expect(Anchor(holds)));
      var yes := holds(Before(text, i), After(text, i));
      && RunAt(Anchored(a), text, i, backtrack, fuel) == MatchOutcome(text, i, i, Nothing(yes, i))
      && RunAt(Not(a, CtorStr), text, i, backtrack, fuel) == MatchOutcome(text, i, i, Nothing(!yes, i))
  {
    var a, c := Expect(Expect(Anchor(holds))), Standing(text, i);
    var yes := holds(Before(text, i), After(text, i));
    StandPosition(text, i);
    assert Run([], text, Anchor(holds), c, backtrack, fuel) == if yes then Ok(Null, c) else Bad(c);
    assert Run([], text, Expect(Anchor(holds)), c, backtrack, fuel) == if yes then Ok(Null, c) else Bad(c);
    assert Run([], text, a, c, backtrack, fuel) == if yes then Ok(Null, c) else Bad(c);
    assert Run([], text, Lift(CtorStr), c, backtrack, fuel) == Ok(Str(""), c);
    assert RunAt(Not(a, CtorStr), text, i, backtrack, fuel) == if yes then Bad(c) else Ok(Str(""), c);
    RunOfAnd([], text, Nth(1), [a, Lift(CtorStr)], c, backtrack, fuel);
    RunAndPair([], text, Nth(1), a, Lift(CtorStr), c, backtrack, fuel);
    hide Standing, Run;
    assert text[i..i] == "";
  }

  lemma NegationRuns(p: Parser, test: char -> bool, text: string, i: nat, backtrack: int, fuel: nat)
    requires i <= |text| && backtrack >= 1
    requires RunAt(p, text, i, backtrack, fuel) == MatchOutcome(text, i, i, One(text, i, test))
    ensures RunAt(Not(p, CtorStr), text, i, backtrack, fuel) ==
        MatchOutcome(text, i, i, Nothing(!(i < |text| && test(text[i])), i))
  {
    assert text[i..i] == "";
  }

  lemma BoundaryIs(text: string, i: nat)
    requires i <= |text|
    ensures AtBoundary(Before(text, i), After(text, i)) <==> IsBoundary(text, i)
  {
    WordIs(Before(text, i));
    WordIs(After(text, i));
  }

  lemma NegationsRun(text: string, i: nat, backtrack: int, fuel: nat)
    requires i <= |text| && backtrack >= 1
    ensures forall c | c in "DSW" ::
        RunAt(Escape(c), text, i, backtrack, fuel) == MatchOutcome(text, i, i, MatchEscaped(c, text, i))
  {
    hide RunAt, Digit, Whitespace, Alphanum, Nothing, One;
    ClassesRun(text, i, backtrack, fuel);
    NegationRuns(Digit(), IsDigit, text, i, backtrack, fuel);
    NegationRuns(Whitespace(), IsSpace, text, i, backtrack, fuel);
    NegationRuns(Alphanum(), IsWordly, text, i, backtrack, fuel);
  }

  lemma AnchorsRun(text: string, i: nat, backtrack: int, fuel: nat)
    requires i <= |text|
    ensures forall c | c in "bBAZ" ::
        RunAt(Escape(c), text, i, backtrack, fuel) == MatchOutcome(text, i, i, MatchEscaped(c, text, i))
    ensures RunAt(Anchored(Soi()), text, i, backtrack, fuel) == MatchOutcome(text, i, i, Nothing(AtStart(text, i), i))
    ensures RunAt(Anchored(Eoi()), text, i, backtrack, fuel) == MatchOutcome(text, i, i, Nothing(AtEnd(text, i), i))
  {
    hide RunAt, Anchored, IsBoundary, Nothing;
    BoundaryIs(text, i);
    AnchorRuns(AtBoundary, text, i, backtrack, fuel);
    AnchorRuns((prev, next) => prev == NUL, text, i, backtrack, fuel);
    AnchorRuns((prev, next) => next == NUL, text, i, backtrack, fuel);
  }

  lemma LettersRun(c: char, text: string, i: nat, backtrack: int, fuel: nat)
    requires i <= |text| && c !in "dswDSWbBAZ"
    ensures RunAt(Escape(c), text, i, backtrack, fuel) == MatchOutcome(text, i, i, MatchEscaped(c, text, i))
  {
    OneRuns(Single(Code(c) as char), ch => ch as int == Code(c), text, i, backtrack, fuel);
    hide RunAt, One;
  }

  lemma EscapeMatches(c: char, text: string, i: nat, backtrack: int, fuel: nat)
    requires i <= |text| && backtrack >= 1
    ensures RunAt(Escape(c), text, i, backtrack, fuel) == MatchOutcome(text, i, i, MatchEscaped(c, text, i))
  {
    NegationsRun(text, i, backtrack, fuel);
    AnchorsRun(text, i, backtrack, fuel);
    ClassesRun(text, i, backtrack, fuel);
    hide RunAt, Digit, Whitespace, Alphanum;
    if c !in "dswDSWbBAZ" { LettersRun(c, text, i, backtrack, fuel); }
  }

  // ----- repeats and sequences -----

  lemma SetMatches(complement: bool, chars: string, text: string, i: nat, backtrack: int, fuel: nat)
    requires i <= |text|
    ensures RunAt(Compile(Set(complement, chars)), text, i, backtrack, fuel) ==
        MatchOutcome(text, i, i, Match(Set(complement, chars), text, i))
  {
    var test := ch => (exists k | 0 <= k < |chars| :: chars[k] == ch) != complement;
    OneRuns(if complement then NoneOf(chars) else OneOf(chars), test, text, i, backtrack, fuel);
    hide RunAt;
  }

  lemma TwoRun(a: Parser, b: Parser, text: string, i: nat, backtrack: int, fuel: nat)
    requires i <= |text|
    ensures var x := RunAt(a, text, i, backtrack, fuel);
      x == Bad(Standing(text, i)) || !x.Bad? ==>
        RunAt(Or([a, b]), text, i, backtrack, fuel) == if x.Bad? then RunAt(b, text, i, backtrack, fuel) else x
  {
    var from := Standing(text, i);
    assert [a, b][1..] == [b] && [b][1..] == [];
    RunOfOr([], text, [a, b], from, backtrack, fuel);
    hide Run, Standing;
    assert RunOr([], text, [b], from, backtrack, fuel) == RunAt(b, text, i, backtrack, fuel);
  }

  /** Two factors, the first of which has matched up to j. */
  lemma PairRun(a: Parser, b: Parser, text: string, i: nat, j: nat, m: Matching, backtrack: int, fuel: nat)
    requires i <= j <= |text| && backtrack >= 1 && (m.Upto? ==> j <= m.end <= |text|)
    requires RunAt(a, text, i, backtrack, fuel) == MatchOutcome(text, i, i, Upto(j))
    requires RunAt(b, text, j, backtrack, fuel) == MatchOutcome(text, j, j, m)
    ensures RunAt(And(StrFold, [a, b]), text, i, backtrack, fuel) == MatchOutcome(text, i, i, m)
  {
    hide Run, Standing, Concat, AllStr;
    var from := Standing(text, i);
    RunOfAnd([], text, StrFold, [a, b], from, backtrack, fuel);
    RunAndPair([], text, StrFold, a, b, from, backtrack, fuel);
    if m.Upto? {
      ConcatTwo(text[i..j], text[j..m.end]);
      assert text[i..j] + text[j..m.end] == text[i..m.end];
    }
  }

  lemma ConcatTwo(s: string, t: string)
    ensures AllStr([Str(s), Str(t)]) && Concat([Str(s), Str(t)]) == s + t
  {
    NothingConcat();
    ConcatNext([], Str(s));
    ConcatNext([Str(s)], Str(t));
    assert [] + [Str(s)] == [Str(s)] && [Str(s)] + [Str(t)] == [Str(s), Str(t)];
    hide Concat;
  }

  /** A first factor that has not matched decides. */
  lemma PairFails(a: Parser, b: Parser, text: string, i: nat, m: Matching, backtrack: int, fuel: nat)
    requires i <= |text| && backtrack >= 1 && !m.Upto?
    requires RunAt(a, text, i, backtrack, fuel) == MatchOutcome(text, i, i, m)
    ensures RunAt(And(StrFold, [a, b]), text, i, backtrack, fuel) == MatchOutcome(text, i, i, m)
  {
    RunOfAnd([], text, StrFold, [a, b], Standing(text, i), backtrack, fuel);
    hide Run, Standing;
  }

  lemma {:induction false} InTurnLast(xs: seq<Regex>, text: string, i: nat)
    requires xs != [] && (forall k | 0 <= k < |xs| :: NoTimes(xs[k])) && i <= |text|
    ensures var m := MatchInTurn(xs[..|xs| - 1], text, i);
      MatchInTurn(xs, text, i) == if m.Upto? then Match(xs[|xs| - 1], text, m.end) else m
  {
    hide Match, NoTimes;
    var init, last := xs[..|xs| - 1], xs[|xs| - 1];
    var m := Match(xs[0], text, i);
    if |xs| == 1 {
      assert init == [] && xs[1..] == [];
    } else {
      assert init[0] == xs[0] && init[1..] == xs[1..][..|xs| - 2];
      if m.Upto? { InTurnLast(xs[1..], text, m.end); }
    }
  }

  /** A body that matches the empty text is repeated for ever. */
  lemma {:induction false} EmptyRepeats(x: Regex, text: string, i: nat, once: bool, backtrack: int, vs: seq<Val>,
      fuel: nat, enough: nat)
    requires i <= |text| && fuel <= enough
    requires RunAt(Compile(x), text, i, backtrack, enough) == MatchOutcome(text, i, i, Upto(i))
    ensures RunMany([], text, StrFold, Compile(x), once, Standing(text, i), backtrack, vs, fuel) == Endless
    decreases fuel
  {
    var c := Standing(text, i);
    if Run([], text, Compile(x), c, backtrack, fuel) != Endless {
      MoreFuel([], text, Compile(x), c, backtrack, fuel, enough);
    }
    ManyUnfolds([], text, StrFold, Compile(x), once, c, backtrack, vs, fuel);
    hide Run, RunMany, Standing, Compile;
    var o := Run([], text, Compile(x), c, backtrack, fuel);
    if o.Ok? && fuel > 0 {
      EmptyRepeats(x, text, i, once, backtrack, vs + [o.v], fuel - 1, enough);
    }
  }

  lemma {:induction false} RepeatMatches(x: Regex, text: string, once: bool, from: nat, i: nat, backtrack: int,
      vs: seq<Val>, fuel: nat)
    requires NoTimes(x) && from <= i <= |text| <= i + fuel && backtrack >= 1 && !(once && vs == [])
    requires AllStr(vs) && Concat(vs) == text[from..i]
    ensures RunMany([], text, StrFold, Compile(x), once, Standing(text, i), backtrack, vs, fuel) ==
        MatchOutcome(text, from, i, MatchRepeat(x, text, i))
    decreases x, 1, |text| - i
  {
    hide Run, RunMany, Standing, Compile, Match, MatchRepeat, Concat, NoTimes;
    var c := Standing(text, i);
    CompiledMatches(x, text, i, backtrack, fuel);
    ManyUnfolds([], text, StrFold, Compile(x), once, c, backtrack, vs, fuel);
    RepeatUnfolds(x, text, i);
    var m, o := Match(x, text, i), Run([], text, Compile(x), c, backtrack, fuel);
    if m.Upto? && m.end == i {
      assert o == MatchOutcome(text, i, i, Upto(i));
      if fuel > 0 { EmptyRepeats(x, text, i, once, backtrack, vs + [o.v], fuel - 1, fuel); }
    } else if m.Upto? {
      ConcatNext(vs, o.v);
      assert text[from..i] + text[i..m.end] == text[from..m.end];
      RepeatMatches(x, text, once, from, m.end, backtrack, vs + [o.v], fuel - 1);
    }
  }

  lemma {:induction false} PlusMatches(x: Regex, text: string, i: nat, backtrack: int, fuel: nat)
    requires NoTimes(x) && i <= |text| <= i + fuel && backtrack >= 1
    ensures RunMany([], text, StrFold, Compile(x), true, Standing(text, i), backtrack, [], fuel) ==
        MatchOutcome(text, i, i, Match(Plus(x), text, i))
    decreases x, 2, 0
  {
    hide Run, RunMany, Standing, Compile, Match, MatchRepeat, Concat, NoTimes;
    var c := Standing(text, i);
    CompiledMatches(x, text, i, backtrack, fuel);
    ManyUnfolds([], text, StrFold, Compile(x), true, c, backtrack, [], fuel);
    PlusUnfolds(x, text, i);
    var m, o := Match(x, text, i), Run([], text, Compile(x), c, backtrack, fuel);
    if m.Upto? && m.end == i {
      assert o == MatchOutcome(text, i, i, Upto(i));
      if fuel > 0 { EmptyRepeats(x, text, i, true, backtrack, [] + [o.v], fuel - 1, fuel); }
    } else if m.Upto? {
      NothingConcat();
      ConcatNext([], o.v);
      RepeatMatches(x, text, true, i, m.end, backtrack, [] + [o.v], fuel - 1);
    }
  }

  lemma RepeatUnfolds(x: Regex, text: string, i: nat)
    requires NoTimes(x) && i <= |text|
    ensures var m := Match(x, text, i);
      MatchRepeat(x, text, i) ==
        if m.NoMatch? then Upto(i) else if m.NeverEnds? || m.end == i then NeverEnds else MatchRepeat(x, text, m.end)
  {
    hide Match;
  }

  lemma NothingConcat()
    ensures Concat([]) == ""
  {}

  lemma PlusUnfolds(x: Regex, text: string, i: nat)
    requires NoTimes(x) && i <= |text|
    ensures var m := Match(x, text, i);
      Match(Plus(x), text, i) ==
        if !m.Upto? then m else if m.end == i then NeverEnds else MatchRepeat(x, text, m.end)
  {
    hide MatchRepeat;
  }

  lemma {:induction false} SequenceMatches(xs: seq<Regex>, text: string, i: nat, backtrack: int, fuel: nat)
    requires (forall k | 0 <= k < |xs| :: NoTimes(xs[k])) && i <= |text| <= i + fuel && backtrack >= 1
    ensures RunAt(CompileSequence(xs), text, i, backtrack, fuel) == MatchOutcome(text, i, i, MatchInTurn(xs, text, i))
    decreases xs, 0, 0
  {
    if xs == [] {
      assert text[i..i] == "";
    } else {
      var init, last := xs[..|xs| - 1], xs[|xs| - 1];
      SequenceMatches(init, text, i, backtrack, fuel);
      InTurnLast(xs, text, i);
      hide RunAt, Compile, Match, MatchInTurn, NoTimes;
      var m := MatchInTurn(init, text, i);
      if m.Upto? {
        CompiledMatches(last, text, m.end, backtrack, fuel);
        PairRun(CompileSequence(init), Compile(last), text, i, m.end, Match(last, text, m.end), backtrack, fuel);
      } else {
        PairFails(CompileSequence(init), Compile(last), text, i, m, backtrack, fuel);
      }
    }
  }

  lemma LeafMatches(r: Regex, text: string, i: nat, backtrack: int, fuel: nat)
    requires r.Dot? || r.LineStart? || r.LineEnd? || r.Letter? || r.NoSet?
    requires i <= |text| && backtrack >= 1
    ensures RunAt(Compile(r), text, i, backtrack, fuel) == MatchOutcome(text, i, i, Match(r, text, i))
  {
    match r
    case Dot => OneRuns(Any, ch => true, text, i, backtrack, fuel);
    case Letter(c) => OneRuns(Single(c), ch => ch == c, text, i, backtrack, fuel);
    case NoSet =>
    case _ => AnchorsRun(text, i, backtrack, fuel);
  }

  /** An option that does not match is empty, and an alternative gives way to the next. */
  lemma ChoiceMatches(r: Regex, text: string, i: nat, backtrack: int, fuel: nat)
    requires (r.Optional? || r.Either?) && NoTimes(r) && i <= |text| && backtrack >= 1
    requires RunAt(Compile(r.x), text, i, backtrack, fuel) == MatchOutcome(text, i, i, Match(r.x, text, i))
    requires r.Either? ==>
        RunAt(Compile(r.y), text, i, backtrack, fuel) == MatchOutcome(text, i, i, Match(r.y, text, i))
    ensures RunAt(Compile(r), text, i, backtrack, fuel) == MatchOutcome(text, i, i, Match(r, text, i))
  {
    if r.Either? {
      TwoRun(Compile(r.x), Compile(r.y), text, i, backtrack, fuel);
      hide RunAt;
    } else {
      assert text[i..i] == "";
    }
  }

  /** A compiled expression succeeds just where there is a match, yields the text it has matched and ends
      behind it; it comes to no end just where a repeat goes on for ever. */
  lemma {:induction false} CompiledMatches(r: Regex, text: string, i: nat, backtrack: int, fuel: nat)
    requires NoTimes(r) && i <= |text| <= i + fuel && backtrack >= 1
    ensures RunAt(Compile(r), text, i, backtrack, fuel) == MatchOutcome(text, i, i, Match(r, text, i))
    decreases r, 0, 0
  {
    hide MatchOutcome, CompileSequence, MatchRepeat, MatchInTurn, MatchEscaped, Escape;
    match r
    case Escaped(c) => EscapeMatches(c, text, i, backtrack, fuel);
    case Set(complement, chars) => SetMatches(complement, chars, text, i, backtrack, fuel);
    case Star(x) => RepeatMatches(x, text, false, i, i, backtrack, [], fuel);
    case Plus(x) => PlusMatches(x, text, i, backtrack, fuel);
    case Optional(x) =>
      CompiledMatches(x, text, i, backtrack, fuel);
      ChoiceMatches(r, text, i, backtrack, fuel);
    case Sequence(xs) => SequenceMatches(xs, text, i, backtrack, fuel);
    case Either(x, y) =>
      CompiledMatches(x, text, i, backtrack, fuel);
      CompiledMatches(y, text, i, backtrack, fuel);
      ChoiceMatches(r, text, i, backtrack, fuel);
    case _ => LeafMatches(r, text, i, backtrack, fuel);
  }

  lemma CompiledReaches(r: Regex, text: string, i: nat, depth: int, o: Outcome)
    requires NoTimes(r) && i <= |text| && depth >= 1 && o != Endless
    ensures Reaches([], text, Compile(r), depth, i, o) <==> o == MatchOutcome(text, i, i, Match(r, text, i))
  {
    hide Run, Standing, Compile, Match, MatchOutcome, NoTimes;
    var p, c := Compile(r), Standing(text, i);
    if Reaches([], text, p, depth, i, o) {
      var k: nat :| Run([], text, p, c, depth, k) == o;
      MoreFuel([], text, p, c, depth, k, k + |text|);
      CompiledMatches(r, text, i, depth, k + |text|);
    } else {
      CompiledMatches(r, text, i, depth, |text|);
      assert Run([], text, p, c, depth, |text|) == MatchOutcome(text, i, i, Match(r, text, i));
    }
  }

  /** What a compiled expression means as a parser is what it matches as an expression. */
  lemma CompiledMeans(r: Regex, text: string, i: nat, depth: int, v: Val, j: nat)
    requires NoTimes(r) && i <= |text| && depth >= 1
    ensures Succeeds([], text, Compile(r), depth, i, v, j) <==>
        Match(r, text, i) == Upto(j) && i <= j <= |text| && v == Str(text[i..j])
    ensures Fails([], text, Compile(r), depth, i, j) <==> Match(r, text, i) == NoMatch && j == i
  {
    hide Reaches, Succeeds, Fails, Compile, Match, Standing, NoTimes;
    SucceedsExactly([], text, Compile(r), depth, i, v, j);
    FailsExactly([], text, Compile(r), depth, i, j);
    StandPosition(text, i);
    var m := Match(r, text, i);
    if m.Upto? { StandPosition(text, m.end); }
    if j <= |text| {
      StandPosition(text, j);
      CompiledReaches(r, text, i, depth, Ok(v, Standing(text, j)));
      CompiledReaches(r, text, i, depth, Bad(Standing(text, j)));
    }
  }

  /** So does what the optimiser as coded leaves of it. */
  lemma OptimisedMatches(r: Regex, text: string, i: nat, backtrack: int, fuel: nat)
    requires NoTimes(r) && SafeRegex(r) && i <= |text| <= i + fuel && backtrack >= 1
    ensures var q := CodedOptimise(Compile(r));
      q.Some? && RunAt(q.value, text, i, backtrack, fuel) == MatchOutcome(text, i, i, Match(r, text, i))
  {
    StandPosition(text, i);
    hide Compile, Match, NoTimes, SafeRegex, Standing;
    CodedRegexSlices(r, text, Standing(text, i), backtrack, fuel);
    CompiledMatches(r, text, i, backtrack, fuel);
  }

  /** The expression c*c. */
  function RepeatThen(c: char): (r: Regex)
    ensures NoTimes(r)
  {
    assert NoTimes(Star(Letter(c)));
    Sequence([Star(Letter(c)), Letter(c)])
  }

  /** A repeat keeps what it has matched: c*c matches nowhere, whatever the text. */
  lemma NeverGoesBack(c: char, text: string, i: nat)
    requires i <= |text|
    ensures Match(RepeatThen(c), text, i) == NoMatch
  {
    var xs := [Star(Letter(c)), Letter(c)];
    assert xs[1..] == [Letter(c)] && [Letter(c)][1..] == [];
    LettersRepeat(c, text, i);
    var m := MatchRepeat(Letter(c), text, i);
    assert Match(Letter(c), text, m.end) == NoMatch && Match(Star(Letter(c)), text, i) == m;
    assert MatchInTurn([Letter(c)], text, m.end) == NoMatch;
    assert NoTimes(xs[0]) && NoTimes(xs[1]);
    assert MatchInTurn(xs, text, i) == NoMatch;
  }

  lemma {:induction false} LettersRepeat(c: char, text: string, i: nat)
    requires i <= |text|
    ensures var m := MatchRepeat(Letter(c), text, i); m.Upto? && (m.end < |text| ==> text[m.end] != c)
    decreases |text| - i
  {
    if i < |text| && text[i] == c { LettersRepeat(c, text, i + 1); }
  }
}
