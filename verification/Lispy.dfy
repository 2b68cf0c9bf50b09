/** Values of the Lispy language and what evaluating them gives. */
module LispyValues {

  datatype Lval = Num(num: int) | Err(err: string) | Sym(sym: string) | Sexpr(cell: seq<Lval>) | Qexpr(cell: seq<Lval>)

  function Size(v: Lval): (n: nat)
    ensures n > 0
  {
    match v
    case Sexpr(cell) => 1 + Sizes(cell)
    case Qexpr(cell) => 1 + Sizes(cell)
    case _ => 1
  }

  function Sizes(vs: seq<Lval>): nat {
    if vs == [] then 0 else Size(vs[0]) + Sizes(vs[1..])
  }

  lemma {:induction false} SizesAppend(xs: seq<Lval>, ys: seq<Lval>)
    ensures Sizes(xs + ys) == Sizes(xs) + Sizes(ys)
  {
    if xs == [] {
      assert xs + ys == ys;
    } else {
      assert (xs + ys)[1..] == xs[1..] + ys;
      SizesAppend(xs[1..], ys);
    }
  }

  // ----- the built-in functions -----

  function Head(args: seq<Lval>): (r: Lval)
    requires args != []
    ensures Size(r) <= Sizes(args)
  {
    if |args| != 1 then Err("Function 'head' expects only one argument!")
    else if !args[0].Qexpr? then Err("Function 'head' expects a Q expression!")
    else if args[0].cell == [] then Err("Function 'head' passed {}!")
    else
      var cell := args[0].cell;
      assert Sizes(args) == Size(args[0]) == 1 + Sizes(cell);
      assert Sizes([cell[0]]) == Size(cell[0]) <= Sizes(cell);
      Qexpr([cell[0]])
  }

  function Tail(args: seq<Lval>): (r: Lval)
    requires args != []
    ensures Size(r) <= Sizes(args)
  {
    if |args| != 1 then Err("Function 'tail' expects only one argument!")
    else if !args[0].Qexpr? then Err("Function 'tail' expects a Q expression!")
    else if args[0].cell == [] then Err("Function 'tail' passed {}!")
    else
      var cell := args[0].cell;
      assert Sizes(args) == Size(args[0]) == 1 + Sizes(cell);
      assert Sizes(cell[1..]) <= Sizes(cell);
      Qexpr(cell[1..])
  }

  /** The members of Q-expressions, one after the other. */
  function Joined(args: seq<Lval>): (cell: seq<Lval>)
    requires forall i :: 0 <= i < |args| ==> args[i].Qexpr?
    ensures Sizes(cell) <= Sizes(args)
  {
    if args == [] then []
    else
      SizesAppend(args[0].cell, Joined(args[1..]));
      args[0].cell + Joined(args[1..])
  }

  function Join(args: seq<Lval>): (r: Lval)
    requires args != []
    ensures Size(r) <= Sizes(args)
  {
    if exists i :: 0 <= i < |args| && !args[i].Qexpr? then Err("Function 'join' expects Q expressions!")
    else
      SizesAppend(args[0].cell, Joined(args[1..]));
      Qexpr(Joined(args))
  }

  /** C's division: towards zero. */
  function Quotient(x: int, y: int): (q: int)
    requires y != 0
  {
    if (x < 0) == (y < 0) then Abs(x) / Abs(y) else -(Abs(x) / Abs(y))
  }

  function Abs(x: int): nat {
    if x < 0 then -x else x
  }

  lemma Divides(a: nat, b: nat)
    requires b > 0
    ensures 0 <= (a / b) * b <= a < (a / b) * b + b
  {}

  lemma Signs(k: int, b: int)
    ensures (-k) * b == -(k * b) && k * -b == -(k * b) && (-k) * -b == k * b
  {}

  /** The quotient times the divisor falls short of the dividend by less than the divisor, on the
      side of zero; the signs of the operands only set its sign. */
  lemma QuotientTruncates(x: int, y: int)
    requires y != 0
    ensures Abs(Quotient(x, y) * y) <= Abs(x) < Abs(Quotient(x, y) * y) + Abs(y)
    ensures Quotient(x, y) * y == 0 || (Quotient(x, y) * y < 0 <==> x < 0)
    ensures Quotient(-x, y) == -Quotient(x, y) && Quotient(x, -y) == -Quotient(x, y)
  {
    var k := Abs(x) / Abs(y);
    Divides(Abs(x), Abs(y));
    Signs(k, Abs(y));
    assert Quotient(x, y) * y == if x < 0 then -(k * Abs(y)) else k * Abs(y);
  }

  /** A name that C's strstr finds in the list of operators. */
  predicate IsOperator(f: string) {
    exists i :: 0 <= i <= |OPERATORS| && OccursAt(f, i)
  }

  const OPERATORS := "+-/*"

  predicate OccursAt(f: string, i: nat) {
    i + |f| <= |OPERATORS| && OPERATORS[i..i + |f|] == f
  }

  /** Applies the operator from left to right; a name of several operators does nothing. */
  function Fold(op: string, x: int, ys: seq<Lval>): (r: Lval)
    requires forall i :: 0 <= i < |ys| ==> ys[i].Num?
    ensures r.Num? || r.Err?
    decreases |ys|
  {
    if ys == [] then Num(x)
    else
      var y := ys[0].num;
      if op == "/" && y == 0 then Err("Division by zero")
      else Fold(op, Step(op, x, y), ys[1..])
  }

  function Step(op: string, x: int, y: int): int
    requires op == "/" ==> y != 0
  {
    if op == "+" then x + y
    else if op == "-" then x - y
    else if op == "*" then x * y
    else if op == "/" then Quotient(x, y)
    else x
  }

  function Total(ys: seq<Lval>): int
    requires forall i :: 0 <= i < |ys| ==> ys[i].Num?
  {
    if ys == [] then 0 else ys[0].num + Total(ys[1..])
  }

  /** Addition adds all arguments, subtraction takes all but the first from it. */
  lemma {:induction false} FoldTotals(x: int, ys: seq<Lval>)
    requires forall i :: 0 <= i < |ys| ==> ys[i].Num?
    ensures Fold("+", x, ys) == Num(x + Total(ys)) && Fold("-", x, ys) == Num(x - Total(ys))
    decreases |ys|
  {
    if ys != [] {
      FoldTotals(x + ys[0].num, ys[1..]);
      FoldTotals(x - ys[0].num, ys[1..]);
    }
  }

  /** Only a division fails, and only when some divisor is zero. */
  lemma {:induction false} FoldFails(op: string, x: int, ys: seq<Lval>)
    requires forall i :: 0 <= i < |ys| ==> ys[i].Num?
    ensures Fold(op, x, ys).Err? <==> op == "/" && exists i :: 0 <= i < |ys| && ys[i].num == 0
    decreases |ys|
  {
    if ys != [] && !(op == "/" && ys[0].num == 0) {
      FoldFails(op, Step(op, x, ys[0].num), ys[1..]);
      assert forall i :: 0 < i < |ys| ==> ys[i] == ys[1..][i - 1];
    }
  }

  function Op(args: seq<Lval>, op: string): (r: Lval)
    requires args != []
    ensures r.Num? || r.Err?
  {
    if exists i :: 0 <= i < |args| && !args[i].Num? then Err("Cannot operate on non-number!")
    else if op == "-" && |args| == 1 then Num(-args[0].num)
    else Fold(op, args[0].num, args[1..])
  }

  /** The argument of eval, if it is one Q-expression. */
  function Quoted(args: seq<Lval>): (r: Lval)
    requires args != []
    ensures r.Qexpr? ==> args == [r]
    ensures !r.Qexpr? ==> r.Err?
  {
    if |args| != 1 then Err("Function 'eval' expects only one argument!")
    else if !args[0].Qexpr? then Err("Function 'eval' expects a Q expression!")
    else args[0]
  }

  // ----- evaluation -----

  /** The result is never larger than the argument, which is why eval may evaluate it again. */
  function Eval(v: Lval): (r: Lval)
    ensures Size(r) <= Size(v)
    decreases Size(v), 2
  {
    if v.Sexpr? then EvalSexpr(v.cell) else v
  }

  function EvalAll(vs: seq<Lval>): (rs: seq<Lval>)
    ensures |rs| == |vs| && Sizes(rs) <= Sizes(vs)
    decreases Sizes(vs), 3, |vs|
  {
    if vs == [] then [] else [Eval(vs[0])] + EvalAll(vs[1..])
  }

  function EvalSexpr(vs: seq<Lval>): (r: Lval)
    ensures Size(r) <= 1 + Sizes(vs)
    decreases 1 + Sizes(vs), 1
  {
    Applied(vs, EvalAll(vs))
  }

  /** The members being evaluated to es: the leftmost error, or what the first member does. */
  function Applied(ghost vs: seq<Lval>, es: seq<Lval>): (r: Lval)
    requires |es| == |vs| && Sizes(es) <= Sizes(vs)
    ensures Size(r) <= 1 + Sizes(vs)
    decreases 1 + Sizes(vs), 0
  {
    var k := FirstErr(es);
    if k < |es| then
      MemberSize(es, k);
      es[k]
    else if |es| == 0 then Sexpr([])
    else if |es| == 1 then es[0]
    else if !es[0].Sym? then Err("S-expression Does not start with a symbol!")
    else Builtin(es[1..], es[0].sym)
  }

  function Builtin(args: seq<Lval>, func: string): (r: Lval)
    requires args != []
    ensures Size(r) <= 1 + Sizes(args)
    decreases 1 + Sizes(args), 0
  {
    if func == "list" then Qexpr(args)
    else if func == "head" then Head(args)
    else if func == "tail" then Tail(args)
    else if func == "join" then Join(args)
    else if func == "eval" then
      var q := Quoted(args);
      if q.Qexpr? then assert Sizes(args) == Size(q) + Sizes(args[1..]); Eval(Sexpr(q.cell)) else q
    else if IsOperator(func) then Op(args, func)
    else Err("Unkown function!")
  }

  /** The index of the leftmost error, or the length. */
  function FirstErr(es: seq<Lval>): (k: nat)
    ensures k <= |es| && (k < |es| ==> es[k].Err?) && forall i :: 0 <= i < k ==> !es[i].Err?
  {
    if es == [] || es[0].Err? then 0 else 1 + FirstErr(es[1..])
  }

  lemma {:induction false} MemberSize(vs: seq<Lval>, k: nat)
    requires k < |vs|
    ensures Size(vs[k]) <= Sizes(vs)
  {
    if k > 0 {
      MemberSize(vs[1..], k - 1);
    }
  }

  // ----- what evaluation promises -----

  /** Nothing that is still to be evaluated. */
  predicate IsValue(v: Lval) {
    v.Sexpr? ==> v.cell == []
  }

  predicate AreValues(vs: seq<Lval>) {
    forall i :: 0 <= i < |vs| ==> IsValue(vs[i])
  }

  /** A result is never a non-empty S-expression. */
  lemma {:induction false} EvalGivesValue(v: Lval)
    ensures IsValue(Eval(v))
    decreases Size(v), 2
  {
    if v.Sexpr? {
      EvalAllGivesValues(v.cell);
      AppliedGivesValue(v.cell, EvalAll(v.cell));
    }
  }

  lemma {:induction false} EvalAllGivesValues(vs: seq<Lval>)
    ensures AreValues(EvalAll(vs))
    decreases Sizes(vs), 3, |vs|
  {
    if vs != [] {
      EvalGivesValue(vs[0]);
      EvalAllGivesValues(vs[1..]);
    }
  }

  lemma {:induction false} AppliedGivesValue(vs: seq<Lval>, es: seq<Lval>)
    requires |es| == |vs| && Sizes(es) <= Sizes(vs) && AreValues(es)
    ensures IsValue(Applied(vs, es))
    decreases 1 + Sizes(vs), 0
  {
    if FirstErr(es) == |es| > 1 && es[0].Sym? && es[0].sym == "eval" {
      var q := Quoted(es[1..]);
      if q.Qexpr? {
        assert Sizes(es[1..]) == Size(q);
        EvalGivesValue(Sexpr(q.cell));
      }
    }
  }

  lemma EvalUnfolds(vs: seq<Lval>)
    ensures Eval(Sexpr(vs)) == Applied(vs, EvalAll(vs))
  {}

  lemma ValueIsItsOwn(v: Lval)
    requires IsValue(v)
    ensures Eval(v) == v
  {
    if v.Sexpr? {
      EvalUnfolds([]);
      assert EvalAll([]) == [];
    }
  }

  lemma {:induction false} ValuesAreTheirOwn(vs: seq<Lval>)
    requires AreValues(vs)
    ensures EvalAll(vs) == vs
  {
    if vs != [] {
      ValueIsItsOwn(vs[0]);
      ValuesAreTheirOwn(vs[1..]);
    }
  }

  /** Evaluating a result again changes nothing. */
  lemma EvalTwice(v: Lval)
    ensures Eval(Eval(v)) == Eval(v)
  {
    EvalGivesValue(v);
    ValueIsItsOwn(Eval(v));
  }

  /** The leftmost error among the evaluated members is the result. */
  lemma LeftmostErrorWins(vs: seq<Lval>, k: nat)
    requires k < |vs| && Eval(vs[k]).Err? && forall i :: 0 <= i < k ==> !Eval(vs[i]).Err?
    ensures Eval(Sexpr(vs)) == Eval(vs[k])
  {
    var es := EvalAll(vs);
    forall i | 0 <= i <= k ensures es[i] == Eval(vs[i]) {
      EvalAllAt(vs, i);
    }
    EvalUnfolds(vs);
    hide Eval, EvalAll, FirstErr, Builtin;
    assert FirstErr(es) == k;
  }

  lemma {:induction false} EvalAllAt(vs: seq<Lval>, i: nat)
    requires i < |vs|
    ensures EvalAll(vs)[i] == Eval(vs[i])
  {
    if i > 0 {
      EvalAllAt(vs[1..], i - 1);
    }
  }

  lemma {:induction false} EvalAllAppend(xs: seq<Lval>, ys: seq<Lval>)
    ensures EvalAll(xs + ys) == EvalAll(xs) + EvalAll(ys)
  {
    if xs == [] {
      assert xs + ys == ys;
    } else {
      assert (xs + ys)[1..] == xs[1..] + ys;
      EvalAllAppend(xs[1..], ys);
    }
  }

  // ----- programs that undo one another -----

  lemma EvalAllCons(v: Lval, vs: seq<Lval>)
    ensures EvalAll([v] + vs) == [Eval(v)] + EvalAll(vs)
  {}

  /** A symbol applied to members: the leftmost error, the symbol alone, or the function's result. */
  lemma CallEvaluates(f: Lval, xs: seq<Lval>)
    requires f.Sym?
    ensures Eval(Sexpr([f] + xs)) == CallResult(f, EvalAll(xs))
  {
    var es := EvalAll(xs);
    EvalUnfolds([f] + xs);
    EvalAllCons(f, xs);
    ValueIsItsOwn(f);
    assert EvalAll([f] + xs) == [f] + es;
    assert ([f] + es)[1..] == es;
    hide Eval, EvalAll, Builtin;
    assert FirstErr([f] + es) == 1 + FirstErr(es);
  }

  function CallResult(f: Lval, es: seq<Lval>): Lval
    requires f.Sym?
  {
    var k := FirstErr(es);
    if k < |es| then es[k] else if es == [] then f else Builtin(es, f.sym)
  }

  /** (eval (list x ...)) is (x ...), except that (eval (list)) is an error and () is not. */
  lemma EvalUndoesList(xs: seq<Lval>)
    ensures Eval(Sexpr([Sym("eval"), Sexpr([Sym("list")] + xs)])) == Eval(Sexpr(xs)) <==> xs != []
  {
    var listed, es := Sexpr([Sym("list")] + xs), EvalAll(xs);
    EvalAllGivesValues(xs);
    CallEvaluates(Sym("list"), xs);
    OneArgument("eval", listed);
    EvalUnfolds(xs);
    EvalUnfolds(es);
    ValuesAreTheirOwn(es);
    hide Eval, EvalAll;
  }

  lemma OneArgument(f: string, x: Lval)
    ensures Eval(Sexpr([Sym(f), x])) == if Eval(x).Err? then Eval(x) else Builtin([Eval(x)], f)
  {
    assert [Sym(f), x] == [Sym(f)] + [x];
    assert EvalAll([x]) == [Eval(x)];
    CallEvaluates(Sym(f), [x]);
    hide Eval, EvalAll, Builtin;
    assert FirstErr([Eval(x)]) == if Eval(x).Err? then 0 else 1;
  }

  lemma TwoArguments(f: string, x: Lval, y: Lval)
    requires !Eval(x).Err? && !Eval(y).Err?
    ensures Eval(Sexpr([Sym(f), x, y])) == Builtin([Eval(x), Eval(y)], f)
  {
    assert [Sym(f), x, y] == [Sym(f)] + ([x] + [y]);
    EvalAllCons(x, [y]);
    assert EvalAll([y]) == [Eval(y)];
    CallEvaluates(Sym(f), [x] + [y]);
    hide Eval, EvalAll, Builtin, FirstErr;
    assert [Eval(x)] + [Eval(y)] == [Eval(x), Eval(y)];
  }

  /** Joining the head and the tail of a Q-expression gives it back, unless it is {}. */
  lemma JoinHeadTail(q: Lval)
    requires q.Qexpr?
    ensures Eval(Sexpr([Sym("join"), Sexpr([Sym("head"), q]), Sexpr([Sym("tail"), q])])) == q <==> q.cell != []
  {
    var h, t := Sexpr([Sym("head"), q]), Sexpr([Sym("tail"), q]);
    ValueIsItsOwn(q);
    OneArgument("head", q);
    OneArgument("tail", q);
    if q.cell != [] {
      TwoArguments("join", h, t);
      JoinedPair(Eval(h), Eval(t));
    } else {
      assert [Sym("join"), h, t][1] == h;
      ValueIsItsOwn(Sym("join"));
      LeftmostErrorWins([Sym("join"), h, t], 1);
    }
  }

  lemma JoinedPair(a: Lval, b: Lval)
    requires a.Qexpr? && b.Qexpr?
    ensures Builtin([a, b], "join") == Qexpr(a.cell + b.cell)
  {
    assert [a, b][1..] == [b];
    assert Joined([b]) == b.cell;
  }
}

/** The evaluator as it edits lists of cells in place. A result None is undefined behaviour. */
module Lispy {
  import opened Options
  import opened Memory
  import opened LispyValues
  import opened LispyCoded
  import opened LispyMeaning

  /** An S- or Q-expression whose cells are being edited. */
  class Expr {
    var quoted: bool
    var cell: seq<Lval>

    constructor (v: Lval)
      requires v.Sexpr? || v.Qexpr?
      ensures Value() == v
    {
      quoted := v.Qexpr?;
      cell := v.cell;
    }

    function Value(): Lval
      reads this
    {
      if quoted then Qexpr(cell) else Sexpr(cell)
    }

    method Add(x: Lval)
      modifies `cell
      ensures cell == old(cell) + [x]
    {
      cell := cell + [x];
    }

    /** Takes the cell i out by moving the pointers behind it. */
    method Pop(i: nat) returns (x: Option<Lval>)
      requires i < |cell|
      modifies `cell
      ensures Popped(old(cell), i) == if x.Some? then Some((x.value, cell)) else None
      ensures x.Some? ==> |cell| == |old(cell)| - 1
    {
      var b := Stored(cell);
      var rest := Loaded(Resized(Memmove(Some(b), i, b, i + 1, |cell| - 1), |cell| - 1));
      if rest.None? { return None; }
      x := Some(cell[i]);
      cell := rest.value;
    }

    /** Takes the first cell out, which always has a meaning. */
    method PopFirst() returns (x: Lval)
      requires cell != []
      modifies `cell
      ensures x == old(cell)[0] && cell == old(cell)[1..]
    {
      PopExactly(cell, 0);
      var first := Pop(0);
      x := first.value;
    }

    /** Keeps one cell and drops the rest. */
    method Take(i: nat) returns (x: Option<Lval>)
      requires i < |cell|
      modifies `cell
      ensures x == Taken(old(cell), i)
    {
      hide Popped;
      x := Pop(i);
    }

    /** Moves the cells of y, from the first to the last. */
    method Join(y: Expr)
      requires y != this
      modifies `cell, y`cell
      ensures cell == old(cell) + old(y.cell) && y.cell == []
    {
      ghost var mine, theirs := cell, y.cell;
      while |y.cell| > 0
        invariant cell + y.cell == mine + theirs
        decreases |y.cell|
      {
        var x := y.PopFirst();
        Add(x);
      }
    }
  }

  method BuiltinHead(args: Expr) returns (r: Option<Lval>)
    requires args.cell != []
    modifies args
    ensures r == CodedHead(old(args.cell))
  {
    hide Popped, CodedHead, TameHead;
    HeadCases(args.cell);
    if |args.cell| != 1 { return Some(Err("Function 'head' expects only one argument!")); }
    if !args.cell[0].Qexpr? { return Some(Err("Function 'head' expects a Q expression!")); }
    if |args.cell[0].cell| == 0 { return Some(Err("Function 'head' passed {}!")); }
    var q := args.PopFirst();
    var v := new Expr(q);
    while |v.cell| > 1
      invariant v.quoted && v.cell != []
      invariant PopSeconds(Some(v.cell), |v.cell| - 1) == PopSeconds(Some(q.cell), |q.cell| - 1)
      decreases |v.cell|
    {
      NothingLeft(|v.cell| - 2);
      var dropped := v.Pop(1);
      if dropped.None? { return None; }
    }
    return Some(v.Value());
  }

  lemma HeadCases(args: seq<Lval>)
    requires args != []
    ensures CodedHead(args) ==
        if |args| != 1 then Some(Err("Function 'head' expects only one argument!"))
        else if !args[0].Qexpr? then Some(Err("Function 'head' expects a Q expression!"))
        else if args[0].cell == [] then Some(Err("Function 'head' passed {}!"))
        else Listed(PopSeconds(Some(args[0].cell), |args[0].cell| - 1))
  {}

  method BuiltinTail(args: Expr) returns (r: Lval)
    requires args.cell != []
    modifies args
    ensures r == Tail(old(args.cell))
  {
    if |args.cell| != 1 { return Err("Function 'tail' expects only one argument!"); }
    if !args.cell[0].Qexpr? { return Err("Function 'tail' expects a Q expression!"); }
    if |args.cell[0].cell| == 0 { return Err("Function 'tail' passed {}!"); }
    var q := args.PopFirst();
    var v := new Expr(q);
    var dropped := v.PopFirst();
    return v.Value();
  }

  method BuiltinList(args: Expr) returns (r: Lval)
    modifies args
    ensures r == Qexpr(old(args.cell))
  {
    args.quoted := true;
    return args.Value();
  }

  method BuiltinJoin(args: Expr) returns (r: Lval)
    requires args.cell != []
    modifies args
    ensures r == LispyValues.Join(old(args.cell))
  {
    hide Joined, Size, Sizes, LispyValues.Join;
    ghost var vs := args.cell;
    JoinCases(vs);
    var quoted := HasOnlyQuoted(args);
    if !quoted { return Err("Function 'join' expects Q expressions!"); }
    JoinedFirst(vs);
    var first := args.PopFirst();
    var x := new Expr(first);
    while |args.cell| > 0
      invariant x.quoted && AllQuoted(args.cell)
      invariant x.cell + Joined(args.cell) == Joined(vs)
      decreases |args.cell|
    {
      JoinedFirst(args.cell);
      var next := args.PopFirst();
      var y := new Expr(next);
      x.Join(y);
    }
    JoinedNone();
    return x.Value();
  }

  lemma JoinCases(vs: seq<Lval>)
    requires vs != []
    ensures LispyValues.Join(vs) ==
        if AllQuoted(vs) then Qexpr(Joined(vs)) else Err("Function 'join' expects Q expressions!")
  {}

  /** The test of all arguments. */
  method HasOnlyQuoted(args: Expr) returns (ok: bool)
    ensures ok <==> AllQuoted(args.cell)
  {
    for i := 0 to |args.cell|
      invariant forall k :: 0 <= k < i ==> args.cell[k].Qexpr?
    {
      if !args.cell[i].Qexpr? { return false; }
    }
    return true;
  }

  predicate AllQuoted(vs: seq<Lval>) {
    forall k :: 0 <= k < |vs| ==> vs[k].Qexpr?
  }

  lemma JoinedFirst(vs: seq<Lval>)
    requires vs != [] && AllQuoted(vs)
    ensures AllQuoted(vs[1..]) && Joined(vs) == vs[0].cell + Joined(vs[1..])
  {}

  lemma JoinedNone()
    ensures Joined([]) == []
  {}

  method BuiltinOp(args: Expr, op: string) returns (r: Lval)
    requires args.cell != []
    modifies args
    ensures r == Op(old(args.cell), op)
  {
    ghost var vs := args.cell;
    for i := 0 to |args.cell|
      invariant args.cell == vs && forall k :: 0 <= k < i ==> vs[k].Num?
    {
      if !args.cell[i].Num? { return Err("Cannot operate on non-number!"); }
    }
    var first := args.PopFirst();
    var x := first.num;
    if op == "-" && |args.cell| == 0 {
      x := -x;
    }
    while |args.cell| > 0
      invariant forall k :: 0 <= k < |args.cell| ==> args.cell[k].Num?
      invariant Fold(op, x, args.cell) == Op(vs, op)
      decreases |args.cell|
    {
      var y := args.PopFirst();
      if op == "+" { x := x + y.num; }
      if op == "-" { x := x - y.num; }
      if op == "*" { x := x * y.num; }
      if op == "/" {
        if y.num == 0 { return Err("Division by zero"); }
        x := Quotient(x, y.num);
      }
    }
    return Num(x);
  }

  /** Evaluates in place: what evaluation as performed gives, which is Eval(v) exactly for tame v. */
  method LvalEval(v: Lval) returns (r: Option<Lval>)
    ensures r == CodedEval(v)
    ensures r == if Tame(v) then Some(Eval(v)) else None
    ensures r.Some? ==> IsValueOf(v, r.value)
    decreases Size(v), 2
  {
    EvalExactly(v);
    EvalMeans(v, Eval(v));
    hide IsValueOf;
    if v.Sexpr? {
      var e := new Expr(v);
      r := LvalEvalSexpr(e);
      return;
    }
    return Some(v);
  }

  /** Writes the results back into the cells. */
  method EvalCells(v: Expr) returns (defined: bool)
    modifies v`cell
    ensures CodedAll(old(v.cell)) == if defined then Some(v.cell) else None
    decreases Sizes(v.cell), 3
  {
    ghost var vs := v.cell;
    hide Eval, EvalAll, CodedEval, CodedAll, Tame, Size, Sizes;
    NothingEvaluated();
    for i := 0 to |v.cell|
      invariant |v.cell| == |vs| && v.cell[i..] == vs[i..]
      invariant v.cell[..i] == EvalAll(vs[..i])
      invariant forall k :: 0 <= k < i ==> CodedEval(vs[k]).Some?
    {
      MemberSize(vs, i);
      assert v.cell[i] == vs[i];
      var x := LvalEval(v.cell[i]);
      if x.None? {
        MemberBreaks(vs, i);
        return false;
      }
      OneMoreEvaluated(vs, i);
      v.cell := v.cell[i := x.value];
      assert v.cell[i + 1..] == vs[i..][1..];
    }
    assert vs[..|vs|] == vs && v.cell[..|vs|] == v.cell;
    NoneBreaks(vs);
    return true;
  }

  lemma NothingEvaluated()
    ensures EvalAll([]) == []
  {}

  lemma OneMoreEvaluated(vs: seq<Lval>, i: nat)
    requires i < |vs|
    ensures EvalAll(vs[..i + 1]) == EvalAll(vs[..i]) + [Eval(vs[i])]
  {
    assert vs[..i + 1] == vs[..i] + [vs[i]];
    EvalAllAppend(vs[..i], [vs[i]]);
    assert EvalAll([vs[i]]) == [Eval(vs[i])];
  }

  lemma SexprUnfolds(vs: seq<Lval>)
    ensures var es := CodedAll(vs); CodedSexpr(vs) == if es.Some? then CodedApplied(vs, es.value) else None
  {}

  lemma AppliedCases(vs: seq<Lval>, es: seq<Lval>)
    requires |es| == |vs| && Sizes(es) <= Sizes(vs)
    ensures var k := FirstErr(es);
      CodedApplied(vs, es) ==
        if k < |es| then Taken(es, k)
        else if |es| == 0 then Some(Sexpr([]))
        else if |es| == 1 then Some(es[0])
        else if !es[0].Sym? then Some(Err("S-expression Does not start with a symbol!"))
        else CodedBuiltin(es[1..], es[0].sym)
  {
    if es != [] { PopExactly(es, 0); }
    hide Popped, CodedBuiltin;
  }

  /** Evaluates the cells, looks for an error, and applies the first cell. */
  method LvalEvalSexpr(v: Expr) returns (r: Option<Lval>)
    requires !v.quoted
    modifies v
    ensures r == CodedSexpr(old(v.cell))
    decreases 1 + Sizes(v.cell), 1
  {
    hide Eval, EvalAll, CodedEval, CodedAll, CodedApplied, CodedBuiltin, Builtin, CodedSexpr, Taken, Popped;
    ghost var vs := v.cell;
    SexprUnfolds(vs);
    var defined := EvalCells(v);
    if !defined { return None; }
    ghost var es := EvalAll(vs);
    AppliedCases(vs, es);
    for i := 0 to |v.cell|
      invariant v.cell == es && !v.quoted && forall k :: 0 <= k < i ==> !es[k].Err?
    {
      if v.cell[i].Err? {
        r := v.Take(i);
        return;
      }
    }
    if |v.cell| == 0 { return Some(v.Value()); }
    if |v.cell| == 1 {
      var x := v.PopFirst();
      return Some(x);
    }
    var f := v.PopFirst();
    if !f.Sym? { return Some(Err("S-expression Does not start with a symbol!")); }
    r := CallBuiltin(v, f.sym);
  }

  method CallBuiltin(args: Expr, func: string) returns (r: Option<Lval>)
    requires args.cell != []
    modifies args
    ensures r == CodedBuiltin(old(args.cell), func)
    decreases 1 + Sizes(args.cell), 0
  {
    if func == "head" {
      r := BuiltinHead(args);
      return;
    }
    if func == "eval" {
      r := BuiltinEval(args);
      return;
    }
    var x: Lval;
    if func == "list" {
      x := BuiltinList(args);
    } else if func == "tail" {
      x := BuiltinTail(args);
    } else if func == "join" {
      x := BuiltinJoin(args);
    } else if IsOperator(func) {
      x := BuiltinOp(args, func);
    } else {
      x := Err("Unkown function!");
    }
    return Some(x);
  }

  /** Evaluates the quoted cells again, as an S-expression smaller than the one that called it. */
  method BuiltinEval(args: Expr) returns (r: Option<Lval>)
    requires args.cell != []
    modifies args
    ensures r == CodedBuiltin(old(args.cell), "eval")
    decreases 1 + Sizes(args.cell), 0, 0
  {
    if |args.cell| != 1 { return Some(Err("Function 'eval' expects only one argument!")); }
    if !args.cell[0].Qexpr? { return Some(Err("Function 'eval' expects a Q expression!")); }
    assert Sizes(args.cell) == Size(args.cell[0]);
    var q := args.PopFirst();
    var x := new Expr(q);
    x.quoted := false;
    r := LvalEval(x.Value());
  }
}
