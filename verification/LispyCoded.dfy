/** The Lispy evaluator as it moves its arrays of cells: where that has a meaning at all, and that it
    then gives the value it is meant to give. */
module LispyCoded {
  import opened Options
  import opened Memory
  import opened LispyValues

  // ----- taking out one cell -----

  /** The cell i and the others: as many pointers are moved as are left, wherever they begin. */
  function Popped(cells: seq<Lval>, i: nat): Option<(Lval, seq<Lval>)>
    requires i < |cells|
  {
    var b := Stored(cells);
    var rest := Loaded(Resized(Memmove(Some(b), i, b, i + 1, |cells| - 1), |cells| - 1));
    if rest.Some? then Some((cells[i], rest.value)) else None
  }

  /** The move stays inside the array for the first cell only. */
  lemma PopExactly(cells: seq<Lval>, i: nat)
    requires i < |cells|
    ensures Popped(cells, i) == if i == 0 then Some((cells[0], cells[1..])) else None
  {
    if i == 0 {
      var b := Stored(cells);
      var c := Memmove(Some(b), 0, b, 1, |cells| - 1).value;
      assert Realloc(c, |cells| - 1) == Stored(cells[1..]);
      StoredLoads(cells[1..]);
    }
  }

  /** The cell i alone. */
  function Taken(cells: seq<Lval>, i: nat): Option<Lval>
    requires i < |cells|
  {
    match Popped(cells, i)
    case None => None
    case Some(pair) => Some(pair.0)
  }

  /** The cells after another pop, unless one had no meaning. */
  function Without(cells: Option<seq<Lval>>, i: nat): Option<seq<Lval>> {
    if cells.Some? && i < |cells.value| then
      match Popped(cells.value, i)
      case None => None
      case Some(pair) => Some(pair.1)
    else None
  }

  /** The second cell is popped until one is left. */
  function PopSeconds(cells: Option<seq<Lval>>, rounds: nat): Option<seq<Lval>>
    decreases rounds
  {
    if rounds == 0 then cells else PopSeconds(Without(cells, 1), rounds - 1)
  }

  lemma {:induction false} NothingLeft(rounds: nat)
    ensures PopSeconds(None, rounds) == None
    decreases rounds
  {
    if rounds > 0 { NothingLeft(rounds - 1); }
  }

  lemma PopSecondsExactly(cells: seq<Lval>)
    requires cells != []
    ensures PopSeconds(Some(cells), |cells| - 1) == if |cells| == 1 then Some(cells) else None
  {
    if |cells| > 1 {
      PopExactly(cells, 1);
      NothingLeft(|cells| - 2);
    }
  }

  // ----- evaluation as performed -----

  /** None is undefined behaviour. */
  function CodedHead(args: seq<Lval>): (r: Option<Lval>)
    requires args != []
    ensures r == if TameHead(args) then Some(Head(args)) else None
  {
    if |args| != 1 then Some(Err("Function 'head' expects only one argument!"))
    else if !args[0].Qexpr? then Some(Err("Function 'head' expects a Q expression!"))
    else if args[0].cell == [] then Some(Err("Function 'head' passed {}!"))
    else
      PopSecondsExactly(args[0].cell);
      assert |args[0].cell| == 1 ==> args[0].cell == [args[0].cell[0]];
      Listed(PopSeconds(Some(args[0].cell), |args[0].cell| - 1))
  }

  function Listed(cells: Option<seq<Lval>>): Option<Lval> {
    if cells.Some? then Some(Qexpr(cells.value)) else None
  }

  /** The list whose head is wanted has no second cell. */
  predicate TameHead(args: seq<Lval>) {
    |args| == 1 && args[0].Qexpr? ==> |args[0].cell| <= 1
  }

  function CodedEval(v: Lval): (r: Option<Lval>)
    ensures r == None || r == Some(Eval(v))
    decreases Size(v), 2
  {
    if v.Sexpr? then CodedSexpr(v.cell) else Some(v)
  }

  function CodedAll(vs: seq<Lval>): (r: Option<seq<Lval>>)
    ensures r == None || r == Some(EvalAll(vs))
    decreases Sizes(vs), 3, |vs|
  {
    if vs == [] then Some([])
    else
      match CodedEval(vs[0])
      case None => None
      case Some(e) => match CodedAll(vs[1..]) case None => None case Some(es) => Some([e] + es)
  }

  function CodedSexpr(vs: seq<Lval>): (r: Option<Lval>)
    ensures r == None || r == Some(EvalSexpr(vs))
    decreases 1 + Sizes(vs), 1
  {
    match CodedAll(vs)
    case None => None
    case Some(es) => CodedApplied(vs, es)
  }

  /** The leftmost error is taken out of the list, or else its first cell. */
  function CodedApplied(ghost vs: seq<Lval>, es: seq<Lval>): (r: Option<Lval>)
    requires |es| == |vs| && Sizes(es) <= Sizes(vs)
    ensures r == None || r == Some(Applied(vs, es))
    decreases 1 + Sizes(vs), 0
  {
    var k := FirstErr(es);
    if es == [] then Some(Sexpr([]))
    else
      PopExactly(es, if k < |es| then k else 0);
      if k < |es| then Taken(es, k)
      else if |es| == 1 then Taken(es, 0)
      else
        match Popped(es, 0)
        case None => None
        case Some(pair) =>
          if !pair.0.Sym? then Some(Err("S-expression Does not start with a symbol!"))
          else CodedBuiltin(pair.1, pair.0.sym)
  }

  /** All functions but head pop first cells only. */
  function CodedBuiltin(args: seq<Lval>, func: string): (r: Option<Lval>)
    requires args != []
    ensures r == None || r == Some(Builtin(args, func))
    decreases 1 + Sizes(args), 0
  {
    if func == "head" then CodedHead(args)
    else if func == "eval" then
      var q := Quoted(args);
      if q.Qexpr? then assert Sizes(args) == Size(q) + Sizes(args[1..]); CodedEval(Sexpr(q.cell)) else Some(q)
    else Some(Builtin(args, func))
  }

  // ----- where evaluation is defined -----

  /** No list is evaluated whose leftmost error is not its first cell, and no head is taken of a list
      with two cells or more. */
  predicate Tame(v: Lval)
    decreases Size(v), 2
  {
    v.Sexpr? ==> AllTame(v.cell) && TameApplied(v.cell, EvalAll(v.cell))
  }

  predicate AllTame(vs: seq<Lval>)
    decreases Sizes(vs), 3, |vs|
  {
    vs == [] || (Tame(vs[0]) && AllTame(vs[1..]))
  }

  predicate TameApplied(ghost vs: seq<Lval>, es: seq<Lval>)
    requires |es| == |vs| && Sizes(es) <= Sizes(vs)
    decreases 1 + Sizes(vs), 0
  {
    var k := FirstErr(es);
    if k < |es| then k == 0
    else |es| >= 2 && es[0].Sym? ==> TameCall(es[1..], es[0].sym)
  }

  predicate TameCall(args: seq<Lval>, func: string)
    requires args != []
    decreases 1 + Sizes(args), 0
  {
    && (func == "head" ==> TameHead(args))
    && (func == "eval" ==>
          var q := Quoted(args);
          if q.Qexpr? then assert Sizes(args) == Size(q) + Sizes(args[1..]); Tame(Sexpr(q.cell)) else true)
  }

  /** Evaluation as performed is defined exactly for tame expressions, and then gives the value. */
  lemma {:induction false} EvalExactly(v: Lval)
    ensures CodedEval(v) == if Tame(v) then Some(Eval(v)) else None
    decreases Size(v), 2
  {
    if v.Sexpr? {
      AllExactly(v.cell);
      AppliedExactly(v.cell, EvalAll(v.cell));
    }
  }

  lemma {:induction false} AllExactly(vs: seq<Lval>)
    ensures CodedAll(vs) == if AllTame(vs) then Some(EvalAll(vs)) else None
    decreases Sizes(vs), 3, |vs|
  {
    if vs != [] {
      EvalExactly(vs[0]);
      AllExactly(vs[1..]);
    }
  }

  lemma {:induction false} AppliedExactly(vs: seq<Lval>, es: seq<Lval>)
    requires |es| == |vs| && Sizes(es) <= Sizes(vs)
    ensures CodedApplied(vs, es) == if TameApplied(vs, es) then Some(Applied(vs, es)) else None
    decreases 1 + Sizes(vs), 0
  {
    var k := FirstErr(es);
    if es != [] {
      PopExactly(es, if k < |es| then k else 0);
      hide Popped, CodedBuiltin, TameCall, Builtin;
      if k == |es| > 1 && es[0].Sym? { CallExactly(es[1..], es[0].sym); }
    }
  }

  lemma {:induction false} CallExactly(args: seq<Lval>, func: string)
    requires args != []
    ensures CodedBuiltin(args, func) == if TameCall(args, func) then Some(Builtin(args, func)) else None
    decreases 1 + Sizes(args), 0
  {
    if func == "eval" {
      var q := Quoted(args);
      if q.Qexpr? {
        assert Sizes(args) == Size(q) + Sizes(args[1..]);
        EvalExactly(Sexpr(q.cell));
      }
    }
  }

  lemma TameUnfolds(vs: seq<Lval>)
    ensures Tame(Sexpr(vs)) <==> AllTame(vs) && TameApplied(vs, EvalAll(vs))
  {}

  /** A result of evaluation as performed is a value no larger than the argument, and evaluating it again
      changes nothing. */
  lemma CodedGivesValue(v: Lval)
    ensures var r := CodedEval(v);
      r.Some? ==> IsValue(r.value) && Size(r.value) <= Size(v) && CodedEval(r.value) == r
  {
    EvalGivesValue(v);
    EvalTwice(v);
    EvalExactly(Eval(v));
    TameUnfolds([]);
    hide Eval, CodedEval;
  }

  /** Among tame members the leftmost error is the result where it is the first member, and otherwise
      is taken out of an array from behind. */
  lemma CodedErrorWins(vs: seq<Lval>, k: nat)
    requires AllTame(vs) && k < |vs| && Eval(vs[k]).Err? && forall i :: 0 <= i < k ==> !Eval(vs[i]).Err?
    ensures CodedEval(Sexpr(vs)) == if k == 0 then Some(Eval(vs[0])) else None
  {
    LeftmostErrorWins(vs, k);
    EvalExactly(Sexpr(vs));
    TameUnfolds(vs);
    forall i | 0 <= i <= k ensures EvalAll(vs)[i] == Eval(vs[i]) { EvalAllAt(vs, i); }
    hide Eval, EvalAll, Tame, AllTame, CodedEval;
    assert FirstErr(EvalAll(vs)) == k;
  }

  lemma {:induction false} MemberBreaks(vs: seq<Lval>, i: nat)
    requires i < |vs| && CodedEval(vs[i]) == None
    ensures CodedAll(vs) == None
  {
    if i > 0 { MemberBreaks(vs[1..], i - 1); }
  }

  lemma {:induction false} NoneBreaks(vs: seq<Lval>)
    requires forall i :: 0 <= i < |vs| ==> CodedEval(vs[i]).Some?
    ensures CodedAll(vs) == Some(EvalAll(vs))
  {
    if vs != [] { NoneBreaks(vs[1..]); }
  }

  // ----- programs that undo one another -----

  /** A call is tame when its arguments are, none of them is an error, and the function is. */
  lemma TameOfCall(f: Lval, xs: seq<Lval>)
    requires f.Sym?
    ensures var es := EvalAll(xs);
      Tame(Sexpr([f] + xs)) <==> AllTame(xs) && FirstErr(es) == |es| && (es != [] ==> TameCall(es, f.sym))
  {
    var es := EvalAll(xs);
    TameUnfolds([f] + xs);
    EvalAllCons(f, xs);
    ValueIsItsOwn(f);
    assert ([f] + xs)[0] == f && ([f] + xs)[1..] == xs;
    assert AllTame([f] + xs) <==> AllTame(xs);
    assert EvalAll([f] + xs) == [f] + es;
    hide Eval, EvalAll, Tame, AllTame, TameCall;
    assert ([f] + es)[1..] == es;
    assert FirstErr([f] + es) == 1 + FirstErr(es);
  }

  lemma {:induction false} ValuesAreTame(vs: seq<Lval>)
    requires AreValues(vs)
    ensures AllTame(vs)
  {
    if vs != [] {
      ValuesAreTame(vs[1..]);
      if vs[0].Sexpr? { TameUnfolds([]); }
    }
  }

  lemma OneTame(x: Lval)
    ensures AllTame([x]) <==> Tame(x)
    ensures EvalAll([x]) == [Eval(x)] && FirstErr([Eval(x)]) == if Eval(x).Err? then 0 else 1
  {
    assert [x][1..] == [] && EvalAll([x]) == [Eval(x)] + EvalAll([x][1..]);
    assert FirstErr([Eval(x)][1..]) == 0;
  }

  /** As performed, (eval (list x ...)) and (x ...) come to the same exactly when there are members and
      the first of them is no error: an error among the arguments of list is taken out from behind. */
  lemma CodedEvalUndoesList(xs: seq<Lval>)
    ensures CodedEval(Sexpr([Sym("eval"), Sexpr([Sym("list")] + xs)])) == CodedEval(Sexpr(xs))
       <==> xs != [] && (AllTame(xs) ==> !EvalAll(xs)[0].Err?)
  {
    var listed, es := Sexpr([Sym("list")] + xs), EvalAll(xs);
    EvalExactly(Sexpr([Sym("eval"), listed]));
    EvalExactly(Sexpr(xs));
    EvalUndoesList(xs);
    assert [Sym("eval"), listed] == [Sym("eval")] + [listed];
    TameOfCall(Sym("eval"), [listed]);
    TameOfCall(Sym("list"), xs);
    OneTame(listed);
    TameUnfolds(xs);
    CallEvaluates(Sym("list"), xs);
    EvalAllGivesValues(xs);
    ValuesAreTame(es);
    ValuesAreTheirOwn(es);
    TameUnfolds(es);
    EvalUnfolds(xs);
    hide Eval, EvalAll, Tame, AllTame, CodedEval;
    OneTameCall(es);
  }

  /** What list has made of the evaluated members is handed to eval. */
  lemma OneTameCall(es: seq<Lval>)
    ensures es != [] ==> (TameCall([Qexpr(es)], "eval") <==> Tame(Sexpr(es)))
    ensures es != [] ==> TameCall(es, "list")
    ensures TameCall([Sym("list")], "eval")
  {}

  /** As performed, join undoes head and tail exactly for lists of one cell. */
  lemma CodedJoinHeadTail(q: Lval)
    requires q.Qexpr?
    ensures CodedEval(Sexpr([Sym("join"), Sexpr([Sym("head"), q]), Sexpr([Sym("tail"), q])])) == Some(q) <==>
        |q.cell| == 1
  {
    var h, t := Sexpr([Sym("head"), q]), Sexpr([Sym("tail"), q]);
    var v := Sexpr([Sym("join"), h, t]);
    EvalExactly(v);
    JoinHeadTail(q);
    assert [Sym("join"), h, t] == [Sym("join")] + [h, t];
    assert [Sym("head"), q] == [Sym("head")] + [q] && [Sym("tail"), q] == [Sym("tail")] + [q];
    TameOfCall(Sym("join"), [h, t]);
    TameOfCall(Sym("head"), [q]);
    TameOfCall(Sym("tail"), [q]);
    OneTame(q);
    ValueIsItsOwn(q);
    TwoMembers(h, t);
    OneArgument("head", q);
    OneArgument("tail", q);
    hide Eval, EvalAll, AllTame, CodedEval;
    if |q.cell| == 1 {
      assert FirstErr([Eval(h), Eval(t)]) == 2;
    }
  }

  // ----- two expressions whose evaluation has no meaning -----

  lemma TwoMembers(x: Lval, y: Lval)
    ensures EvalAll([x, y]) == [Eval(x), Eval(y)] && (AllTame([x, y]) <==> Tame(x) && Tame(y))
  {
    EvalAllCons(x, [y]);
    assert [x, y] == [x] + [y] && EvalAll([y]) == [Eval(y)];
    assert [x, y][1..] == [y] && [y][1..] == [];
    hide Eval, EvalAll, Tame;
    assert AllTame([y]) <==> Tame(y);
  }

  /** (head {1 2}): the pop of the second cell reads behind the array. */
  lemma HeadOfTwo()
    ensures var v := Sexpr([Sym("head"), Qexpr([Num(1), Num(2)])]);
      Eval(v) == Qexpr([Num(1)]) && CodedEval(v) == None
  {
    var f, q := Sym("head"), Qexpr([Num(1), Num(2)]);
    TwoMembers(f, q);
    OneArgument("head", q);
    EvalExactly(Sexpr([f, q]));
    assert [f, q][1..] == [q];
    assert FirstErr([f, q]) == 2;
  }

  /** (+ 1 2 (/ 1 0)): the error is taken out of the cell 3, and written behind the array. */
  lemma ErrorBehind()
    ensures var quotient := Sexpr([Sym("/"), Num(1), Num(0)]);
      var v := Sexpr([Sym("+"), Num(1), Num(2), quotient]);
      Eval(v) == Err("Division by zero") && CodedEval(v) == None
  {
    var quotient := Sexpr([Sym("/"), Num(1), Num(0)]);
    var vs := [Sym("+"), Num(1), Num(2), quotient];
    TwoArguments("/", Num(1), Num(0));
    DividedByZero();
    LeftmostErrorWins(vs, 3);
    forall i: nat | i < 4 ensures EvalAll(vs)[i] == Eval(vs[i]) { EvalAllAt(vs, i); }
    EvalExactly(Sexpr(vs));
    hide EvalAll, AllTame;
    assert FirstErr(EvalAll(vs)) == 3;
  }

  lemma DividedByZero()
    ensures Builtin([Num(1), Num(0)], "/") == Err("Division by zero")
  {
    assert OccursAt("/", 2);
    assert [Num(1), Num(0)][1..] == [Num(0)];
  }
}
