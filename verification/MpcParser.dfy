/** Parser trees of mpc and the meaning of running one: a function from an input position to
    an outcome. Named (retained) parsers are references into a grammar, so that grammars may be
    recursive; fuel bounds the unfolding of references and the rounds of repeats. */
module MpcParser {
  import opened Options
  import opened MpcAst

  /** What an output pointer may hold. Opaque stands for values only user functions look at. */
  datatype Val = Null | Str(s: string) | Tree(a: Ast) | Place(at: Position) | Opaque(id: int)

  /** Folds of sequences and repeats. The result None of a user fold is undefined behaviour. */
  datatype Fold = StrFold | FoldTree | Nth(k: nat) | NullFold | StateTree | UserFold(f: seq<Val> -> Option<Val>)

  datatype Ctor = CtorNull | CtorStr | UserCtor(v: Val) {
    function Make(): Val {
      match this
      case CtorNull => Null
      case CtorStr => Str("")
      case UserCtor(v) => v
    }
  }

  datatype Parser =
    | Undefined
    | Pass
    | Fail
    | Lift(lf: Ctor)
    | LiftVal(v: Val)
    | Expect(x: Parser)
    | Anchor(holds: (char, char) -> bool)
    | State
    | Any
    | Single(c: char)
    | OneOf(s: string)
    | NoneOf(s: string)
    | Range(lo: char, hi: char)
    | Satisfy(test: char -> bool)
    | Literal(s: string)
    | Apply(x: Parser, apply: Val -> Option<Val>)
    | ApplyTo(x: Parser, applyTo: (Val, Val) -> Option<Val>, d: Val)
    | Predict(x: Parser)
    | Not(x: Parser, lf: Ctor)
    | Maybe(x: Parser, lf: Ctor)
    | Many(f: Fold, x: Parser)
    | Many1(f: Fold, x: Parser)
    | Count(n: int, f: Fold, x: Parser)
    | Or(xs: seq<Parser>)
    | And(f: Fold, xs: seq<Parser>)
    | Ref(id: nat)

  /** A parser around exactly one other, p.x. */
  predicate Wraps(p: Parser) {
    || p.Expect? || p.Apply? || p.ApplyTo? || p.Predict? || p.Not? || p.Maybe?
    || p.Many? || p.Many1? || p.Count?
  }

  /** A parser over a list of others, p.xs. */
  predicate Lists(p: Parser) {
    p.Or? || p.And?
  }

  /** The bodies of the named parsers. A name without a body is an undefined parser. */
  type Grammar = seq<Parser>

  /** Where the input stands: the state and the last character read. */
  datatype Cursor = Cursor(state: Position, last: char)

  const NUL: char := '\0'

  const BEGIN: Cursor := Cursor(START, NUL)

  /** Wild is undefined behaviour of the C program, Endless that the fuel ran out. */
  datatype Outcome = Ok(v: Val, to: Cursor) | Bad(to: Cursor) | Wild | Endless

  // ----- folds -----

  predicate AllStr(vs: seq<Val>) {
    forall i | 0 <= i < |vs| :: vs[i].Str?
  }

  function Concat(vs: seq<Val>): string
    requires AllStr(vs)
  {
    if vs == [] then "" else vs[0].s + Concat(vs[1..])
  }

  function AsPart(v: Val): Part {
    if v.Tree? then Present(v.a) else Absent
  }

  function AsParts(vs: seq<Val>): seq<Part> {
    seq(|vs|, i requires 0 <= i < |vs| => AsPart(vs[i]))
  }

  /** A value the tree fold may look into. */
  predicate TreeOrNull(v: Val) {
    v.Null? || (v.Tree? && Foldable(Present(v.a)))
  }

  predicate AllTreeOrNull(vs: seq<Val>) {
    forall i | 0 <= i < |vs| :: TreeOrNull(vs[i])
  }

  /** The tree fold on output pointers: short lists hand any pointer through. */
  function FoldTreeVals(vs: seq<Val>): Option<Val> {
    if |vs| == 0 then Some(Null)
    else if |vs| == 1 then Some(vs[0])
    else if |vs| == 2 && vs[1].Null? then Some(vs[0])
    else if |vs| == 2 && vs[0].Null? then Some(vs[1])
    else if AllTreeOrNull(vs) then Some(Tree(Root(FlattenAll(AsParts(vs)))))
    else None
  }

  function ApplyFold(f: Fold, vs: seq<Val>): Option<Val> {
    match f
    case StrFold => if AllStr(vs) then Some(Str(Concat(vs))) else None
    case FoldTree => FoldTreeVals(vs)
    case Nth(k) => if k < |vs| then Some(vs[k]) else None
    case NullFold => Some(Null)
    case StateTree =>
      if |vs| < 2 || !vs[0].Place? then None
      else if vs[1].Null? then Some(Null)
      else if vs[1].Tree? then Some(Tree(vs[1].a.(state := vs[0].at)))
      else None
    case UserFold(g) => g(vs)
  }

  function Folded(f: Fold, vs: seq<Val>, to: Cursor): Outcome {
    match ApplyFold(f, vs)
    case Some(v) => Ok(v, to)
    case None => Wild
  }

  // ----- single characters -----

  function Step(c: Cursor, ch: char): Cursor {
    if ch == '\n' then Cursor(Position(c.state.pos + 1, c.state.row + 1, 0), ch)
    else Cursor(Position(c.state.pos + 1, c.state.row, c.state.col + 1), ch)
  }

  function Peek(input: string, c: Cursor): char {
    if c.state.pos < |input| then input[c.state.pos] else NUL
  }

  /** Reads one character that passes the test. */
  function Take(input: string, c: Cursor, test: char -> bool): Outcome {
    if c.state.pos < |input| && test(input[c.state.pos])
    then Ok(Str([input[c.state.pos]]), Step(c, input[c.state.pos]))
    else Bad(c)
  }

  /** The cursor behind the longest common prefix, and whether all of s was read. */
  function Spell(input: string, c: Cursor, s: string): (Cursor, bool)
    decreases |s|
  {
    if s == "" then (c, true)
    else if c.state.pos < |input| && input[c.state.pos] == s[0] then Spell(input, Step(c, s[0]), s[1..])
    else (c, false)
  }

  // ----- running a parser -----

  /** Backtracking is a counter: marks and rewinds do nothing while it is below one. */
  function Rewound(from: Cursor, to: Cursor, backtrack: int): Cursor {
    if backtrack < 1 then to else from
  }

  function Run(g: Grammar, input: string, p: Parser, c: Cursor, backtrack: int, fuel: nat): Outcome
    decreases fuel, p, 1
  {
    match p
    case Undefined => Bad(c)
    case Pass => Ok(Null, c)
    case Fail => Bad(c)
    case Lift(lf) => Ok(lf.Make(), c)
    case LiftVal(v) => Ok(v, c)
    case Expect(x) => Run(g, input, x, c, backtrack, fuel)
    case Anchor(holds) => if holds(c.last, Peek(input, c)) then Ok(Null, c) else Bad(c)
    case State => Ok(Place(c.state), c)
    case Any => Take(input, c, ch => true)
    case Single(x) => Take(input, c, ch => ch == x)
    case OneOf(s) => Take(input, c, ch => ch in s)
    case NoneOf(s) => Take(input, c, ch => ch !in s)
    case Range(lo, hi) => Take(input, c, ch => lo <= ch <= hi)
    case Satisfy(test) => Take(input, c, test)
    case Literal(s) => Spelled(s, Spell(input, c, s), c, backtrack)
    case Apply(x, apply) => Mapped(Run(g, input, x, c, backtrack, fuel), apply)
    case ApplyTo(x, applyTo, d) => Mapped(Run(g, input, x, c, backtrack, fuel), v => applyTo(v, d))
    case Predict(x) => Run(g, input, x, c, backtrack - 1, fuel)
    case Not(x, lf) => Negated(Run(g, input, x, c, backtrack, fuel), lf, c, backtrack)
    case Maybe(x, lf) => Allowed(Run(g, input, x, c, backtrack, fuel), lf)
    case Many(f, x) => RunMany(g, input, f, x, false, c, backtrack, [], fuel)
    case Many1(f, x) => RunMany(g, input, f, x, true, c, backtrack, [], fuel)
    case Count(n, f, x) => RunCount(g, input, n, f, x, c, backtrack, [], fuel)
    case Or(xs) => if xs == [] then Ok(Null, c) else RunOr(g, input, xs, c, backtrack, fuel)
    case And(f, xs) => if xs == [] then Ok(Null, c) else RunAnd(g, input, f, xs, c, c, backtrack, [], fuel)
    case Ref(id) =>
      if |g| <= id then Bad(c) else if fuel == 0 then Endless else Run(g, input, g[id], c, backtrack, fuel - 1)
  }

  function Mapped(o: Outcome, f: Val -> Option<Val>): Outcome {
    if o.Ok? then (match f(o.v) case Some(v) => Ok(v, o.to) case None => Wild) else o
  }

  function Spelled(s: string, spell: (Cursor, bool), from: Cursor, backtrack: int): Outcome {
    if spell.1 then Ok(Str(s), spell.0) else Bad(Rewound(from, spell.0, backtrack))
  }

  function Negated(o: Outcome, lf: Ctor, from: Cursor, backtrack: int): Outcome {
    match o
    case Ok(_, to) => Bad(Rewound(from, to, backtrack))
    case Bad(to) => Ok(lf.Make(), to)
    case _ => o
  }

  function Allowed(o: Outcome, lf: Ctor): Outcome {
    if o.Bad? then Ok(lf.Make(), o.to) else o
  }

  /** Repeats x, vs holding the results so far; once demands at least one of them. */
  function RunMany(g: Grammar, input: string, f: Fold, x: Parser, once: bool, c: Cursor, backtrack: int, vs: seq<Val>,
      fuel: nat): Outcome
    decreases fuel, x, 2
  {
    match Run(g, input, x, c, backtrack, fuel)
    case Ok(v, to) => if fuel == 0 then Endless else RunMany(g, input, f, x, once, to, backtrack, vs + [v], fuel - 1)
    case Bad(to) => if once && vs == [] then Bad(to) else Folded(f, vs, to)
    case o => o
  }

  /** Repeats x until n results are there. The results of a count below one go to an array of
      four slots that no test ever stops from overflowing. */
  function RunCount(g: Grammar, input: string, n: int, f: Fold, x: Parser, c: Cursor, backtrack: int, vs: seq<Val>,
      fuel: nat): Outcome
    decreases fuel, x, 2, 4 - |vs| + (if n > 4 then n else 4)
  {
    if n <= |vs| && 4 <= |vs| then Wild
    else
      match Run(g, input, x, c, backtrack, fuel)
      case Ok(v, to) =>
        if |vs| + 1 == n then Folded(f, vs + [v], to)
        else RunCount(g, input, n, f, x, to, backtrack, vs + [v], fuel)
      case Bad(to) => if |vs| == n then Folded(f, vs, to) else Bad(to)
      case o => o
  }

  function RunOr(g: Grammar, input: string, xs: seq<Parser>, c: Cursor, backtrack: int, fuel: nat): Outcome
    decreases fuel, xs, 0
  {
    if xs == [] then Bad(c)
    else
      match Run(g, input, xs[0], c, backtrack, fuel)
      case Bad(to) => RunOr(g, input, xs[1..], to, backtrack, fuel)
      case o => o
  }

  /** Runs the rest xs of a sequence that began at the cursor from. */
  function RunAnd(g: Grammar, input: string, f: Fold, xs: seq<Parser>, from: Cursor, c: Cursor, backtrack: int,
      vs: seq<Val>, fuel: nat): Outcome
    decreases fuel, xs, 0
  {
    if xs == [] then Folded(f, vs, c)
    else
      match Run(g, input, xs[0], c, backtrack, fuel)
      case Ok(v, to) => RunAnd(g, input, f, xs[1..], from, to, backtrack, vs + [v], fuel)
      case Bad(to) => Bad(Rewound(from, to, backtrack))
      case o => o
  }

  // ----- one step of a repeat -----

  lemma ManyUnfolds(g: Grammar, input: string, f: Fold, x: Parser, once: bool, c: Cursor, backtrack: int,
      vs: seq<Val>, fuel: nat)
    ensures var o := Run(g, input, x, c, backtrack, fuel);
      RunMany(g, input, f, x, once, c, backtrack, vs, fuel) ==
        if o.Ok? && fuel == 0 then Endless
        else if o.Ok? then RunMany(g, input, f, x, once, o.to, backtrack, vs + [o.v], fuel - 1)
        else if o.Bad? then (if once && vs == [] then o else Folded(f, vs, o.to))
        else o
  {
    hide Run, Folded;
  }

  lemma CountUnfolds(g: Grammar, input: string, n: int, f: Fold, x: Parser, c: Cursor, backtrack: int, vs: seq<Val>,
      fuel: nat)
    requires !(n <= |vs| && 4 <= |vs|)
    ensures var o := Run(g, input, x, c, backtrack, fuel);
      RunCount(g, input, n, f, x, c, backtrack, vs, fuel) ==
        if o.Ok? && |vs| + 1 == n then Folded(f, vs + [o.v], o.to)
        else if o.Ok? then RunCount(g, input, n, f, x, o.to, backtrack, vs + [o.v], fuel)
        else if o.Bad? then (if |vs| == n then Folded(f, vs, o.to) else o)
        else o
  {
    hide Run, Folded;
  }
}
