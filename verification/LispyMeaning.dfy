/** What the value of a Lispy expression is, said of the results of its members: sums, products and
    quotients of all arguments, and where the cells of the arguments stand in the result. */
module LispyMeaning {
  import opened Options
  import opened Slices
  import opened LispyValues
  import opened LispyCoded

  // ----- arithmetic -----

  function Sum(ns: seq<int>): int {
    if ns == [] then 0 else Sum(ns[..|ns| - 1]) + ns[|ns| - 1]
  }

  function Product(ns: seq<int>): int {
    if ns == [] then 1 else Product(ns[..|ns| - 1]) * ns[|ns| - 1]
  }

  /** What is left of x is smaller than y, and on the side of zero that x is on. */
  predicate IsQuotient(x: int, y: int, q: int) {
    var rest := x - q * y;
    Abs(rest) < Abs(y) && (rest == 0 || (rest < 0 <==> x < 0))
  }

  /** The first number, and what it is after each division. */
  predicate DividesInTurn(ns: seq<int>, qs: seq<int>) {
    |qs| == |ns| > 0 && qs[0] == ns[0] && forall k | 0 < k < |ns| :: IsQuotient(qs[k - 1], ns[k], qs[k])
  }

  /** All names that are found in the list of operators. */
  const OPERATOR_NAMES: set<string> := {"", "+", "-", "/", "*", "+-", "-/", "/*", "+-/", "-/*", "+-/*"}

  predicate NamesOperators(f: string) {
    f in OPERATOR_NAMES
  }

  /** An operator applied to numbers. A name of several, or of none, leaves the first number. */
  ghost predicate Computes(op: string, ns: seq<int>, r: Lval)
    requires ns != []
  {
    if op == "+" then r == Num(Sum(ns))
    else if op == "*" then r == Num(Product(ns))
    else if op == "-" then r == Num(if |ns| == 1 then -ns[0] else ns[0] - Sum(ns[1..]))
    else if op == "/" then
      if 0 in ns[1..] then r == Err("Division by zero")
      else r.Num? && (exists qs :: DividesInTurn(ns, qs) && r.num == qs[|qs| - 1])
    else r == Num(ns[0])
  }

  function Numbers(vs: seq<Lval>): (ns: seq<int>)
    requires forall i :: 0 <= i < |vs| ==> vs[i].Num?
    ensures |ns| == |vs|
  {
    seq(|vs|, i requires 0 <= i < |vs| => vs[i].num)
  }

  // ----- lists -----

  function Cells(v: Lval): seq<Lval> {
    if v.Qexpr? then v.cell else []
  }

  /** How many cells the first n arguments have. */
  function CellsBefore(args: seq<Lval>, n: nat): nat
    requires n <= |args|
  {
    if n == 0 then 0 else CellsBefore(args, n - 1) + |Cells(args[n - 1])|
  }

  predicate StandAt(cells: seq<Lval>, list: seq<Lval>, at: nat) {
    at + |cells| <= |list| && forall k | 0 <= k < |cells| :: list[at + k] == cells[k]
  }

  /** The cells of the first n arguments stand in the list, one argument behind the other. */
  predicate AllStand(args: seq<Lval>, n: nat, list: seq<Lval>)
    requires n <= |args|
  {
    forall i | 0 <= i < n :: StandAt(Cells(args[i]), list, CellsBefore(args, i))
  }

  /** What a function makes of evaluated arguments. */
  ghost predicate Makes(func: string, args: seq<Lval>, r: Lval)
    requires args != []
  {
    if func == "list" then r == Qexpr(args)
    else if func == "head" then MakesHead(args, r)
    else if func == "tail" then MakesTail(args, r)
    else if func == "join" then MakesJoin(args, r)
    else if func == "eval" then
      if |args| != 1 then r == Err("Function 'eval' expects only one argument!")
      else if !args[0].Qexpr? then r == Err("Function 'eval' expects a Q expression!")
      else r == Eval(Sexpr(args[0].cell))
    else if NamesOperators(func) then MakesNumber(func, args, r)
    else r == Err("Unkown function!")
  }

  ghost predicate MakesNumber(op: string, args: seq<Lval>, r: Lval)
    requires args != []
  {
    if exists i | 0 <= i < |args| :: !args[i].Num? then r == Err("Cannot operate on non-number!")
    else Computes(op, Numbers(args), r)
  }

  predicate MakesHead(args: seq<Lval>, r: Lval) {
    if |args| != 1 then r == Err("Function 'head' expects only one argument!")
    else if !args[0].Qexpr? then r == Err("Function 'head' expects a Q expression!")
    else if args[0].cell == [] then r == Err("Function 'head' passed {}!")
    else r.Qexpr? && IsHead(args[0].cell, r.cell)
  }

  predicate MakesTail(args: seq<Lval>, r: Lval) {
    if |args| != 1 then r == Err("Function 'tail' expects only one argument!")
    else if !args[0].Qexpr? then r == Err("Function 'tail' expects a Q expression!")
    else if args[0].cell == [] then r == Err("Function 'tail' passed {}!")
    else r.Qexpr? && IsTail(args[0].cell, r.cell)
  }

  predicate MakesJoin(args: seq<Lval>, r: Lval) {
    if exists i | 0 <= i < |args| :: !args[i].Qexpr? then r == Err("Function 'join' expects Q expressions!")
    else r.Qexpr? && |r.cell| == CellsBefore(args, |args|) && AllStand(args, |args|, r.cell)
  }

  predicate IsHead(cells: seq<Lval>, list: seq<Lval>)
    requires cells != []
  {
    |list| == 1 && list[0] == cells[0]
  }

  predicate IsTail(cells: seq<Lval>, list: seq<Lval>)
    requires cells != []
  {
    |list| == |cells| - 1 && forall k | 0 <= k < |list| :: list[k] == cells[k + 1]
  }

  // ----- evaluation -----

  /** The members being evaluated to es: the leftmost error, a lone member, or what the function named
      first makes of the others. */
  ghost predicate Comes(es: seq<Lval>, r: Lval) {
    if exists k | 0 <= k < |es| :: es[k].Err? then
      exists k | 0 <= k < |es| :: es[k].Err? && r == es[k] && forall i | 0 <= i < k :: !es[i].Err?
    else if |es| == 0 then r == Sexpr([])
    else if |es| == 1 then r == es[0]
    else if es[0].Sym? then Makes(es[0].sym, es[1..], r)
    else r == Err("S-expression Does not start with a symbol!")
  }

  /** The value r of an expression, given those of its members. */
  ghost predicate IsValueOf(v: Lval, r: Lval) {
    if v.Sexpr? then Comes(seq(|v.cell|, i requires 0 <= i < |v.cell| => Eval(v.cell[i])), r) else r == v
  }

  // ----- evaluating gives that value and no other -----

  lemma {:induction false} SumSplits(x: int, ns: seq<int>)
    ensures Sum([x] + ns) == x + Sum(ns)
  {
    var all := [x] + ns;
    if ns == [] {
      assert all[..0] == [];
    } else {
      SumSplits(x, ns[..|ns| - 1]);
      assert all[..|all| - 1] == [x] + ns[..|ns| - 1];
    }
  }

  lemma {:induction false} ProductSplits(x: int, ns: seq<int>)
    ensures Product([x] + ns) == x * Product(ns)
  {
    var all := [x] + ns;
    if ns == [] {
      assert all[..0] == [];
    } else {
      var init, last := ns[..|ns| - 1], ns[|ns| - 1];
      ProductSplits(x, init);
      assert all[..|all| - 1] == [x] + init;
      Associates(x, Product(init), last);
    }
  }

  lemma Associates(a: int, b: int, c: int)
    ensures (a * b) * c == a * (b * c)
  {}

  lemma {:induction false} TotalIsSum(ys: seq<Lval>)
    requires forall i :: 0 <= i < |ys| ==> ys[i].Num?
    ensures Total(ys) == Sum(Numbers(ys))
  {
    if ys != [] {
      TotalIsSum(ys[1..]);
      SumSplits(ys[0].num, Numbers(ys[1..]));
      assert Numbers(ys) == [ys[0].num] + Numbers(ys[1..]);
    }
  }

  lemma {:induction false} FoldMultiplies(x: int, ys: seq<Lval>)
    requires forall i :: 0 <= i < |ys| ==> ys[i].Num?
    ensures Fold("*", x, ys) == Num(x * Product(Numbers(ys)))
    decreases |ys|
  {
    if ys != [] {
      var y := ys[0].num;
      FoldMultiplies(x * y, ys[1..]);
      ProductSplits(y, Numbers(ys[1..]));
      assert Numbers(ys) == [y] + Numbers(ys[1..]);
      Associates(x, y, Product(Numbers(ys[1..])));
    }
  }

  lemma {:induction false} FoldDivides(x: int, ys: seq<Lval>) returns (qs: seq<int>)
    requires forall i :: 0 <= i < |ys| ==> ys[i].Num? && ys[i].num != 0
    ensures DividesInTurn([x] + Numbers(ys), qs) && Fold("/", x, ys) == Num(qs[|ys|])
    decreases |ys|
  {
    qs := [x];
    if ys != [] {
      var y := ys[0].num;
      var rest := FoldDivides(Quotient(x, y), ys[1..]);
      qs := [x] + rest;
      QuotientIs(x, y);
      assert Fold("/", x, ys) == Fold("/", Quotient(x, y), ys[1..]);
      DividesOnce(x, y, Quotient(x, y), Numbers(ys[1..]), rest);
      assert Numbers(ys) == [y] + Numbers(ys[1..]);
      assert [x] + ([y] + Numbers(ys[1..])) == [x, y] + Numbers(ys[1..]);
    }
  }

  lemma DividesOnce(x: int, y: int, q: int, ns: seq<int>, qs: seq<int>)
    requires IsQuotient(x, y, q) && DividesInTurn([q] + ns, qs)
    ensures DividesInTurn([x, y] + ns, [x] + qs)
  {
    hide IsQuotient;
    var a, b := [x, y] + ns, [x] + qs;
    forall k | 0 < k < |a| ensures IsQuotient(b[k - 1], a[k], b[k]) {
      if k > 1 { assert IsQuotient(qs[k - 2], ([q] + ns)[k - 1], qs[k - 1]); }
    }
  }

  lemma QuotientIs(x: int, y: int)
    requires y != 0
    ensures IsQuotient(x, y, Quotient(x, y))
  {
    var k, q := Abs(x) / Abs(y), Quotient(x, y);
    LispyValues.Divides(Abs(x), Abs(y));
    Signs(k, Abs(y));
    assert q * y == if x < 0 then -(k * Abs(y)) else k * Abs(y);
  }

  /** The remainder determines the quotient. */
  lemma OneQuotient(x: int, y: int, p: int, q: int)
    requires IsQuotient(x, y, p) && IsQuotient(x, y, q)
    ensures p == q
  {
    MinusTimes(p, q, y);
    CloseTogether(x, p * y, q * y, Abs(y));
    if p != q { Grows(p - q, y); }
  }

  lemma MinusTimes(p: int, q: int, y: int)
    ensures (p - q) * y == p * y - q * y
  {}

  /** Two remainders on one side of zero. */
  lemma CloseTogether(x: int, a: int, b: int, bound: int)
    requires Abs(x - a) < bound && (x - a == 0 || (x - a < 0 <==> x < 0))
    requires Abs(x - b) < bound && (x - b == 0 || (x - b < 0 <==> x < 0))
    ensures Abs(a - b) < bound
  {}

  lemma Grows(d: int, y: int)
    requires d != 0
    ensures Abs(d * y) >= Abs(y)
  {
    var a: int, b: int := Abs(d), Abs(y);
    assert (a - 1) * b >= 0 && (a - 1) * b == a * b - b by { MinusTimes(a, 1, b); NotNegative(a - 1, b); }
    Signs(a, b);
    assert d * y == (if d < 0 then -a else a) * (if y < 0 then -b else b);
  }

  lemma NotNegative(a: nat, b: nat)
    ensures a * b >= 0
  {}

  lemma {:induction false} OneTrail(ns: seq<int>, ps: seq<int>, qs: seq<int>, k: nat)
    requires DividesInTurn(ns, ps) && DividesInTurn(ns, qs) && k < |ns|
    ensures ps[k] == qs[k]
  {
    hide IsQuotient;
    if k > 0 {
      OneTrail(ns, ps, qs, k - 1);
      OneQuotient(ps[k - 1], ns[k], ps[k], qs[k]);
    }
  }

  /** The eleven names are what the search finds. */
  lemma OperatorNames(f: string)
    ensures IsOperator(f) <==> NamesOperators(f)
  {
    if IsOperator(f) {
      var i :| 0 <= i <= |OPERATORS| && OccursAt(f, i);
      assert f == OPERATORS[i..i + |f|];
      PartNamed(i, |f|);
    } else {
      assert !OccursAt(f, 0) && !OccursAt(f, 1) && !OccursAt(f, 2) && !OccursAt(f, 3);
      assert OPERATORS[0..0] == "" && OPERATORS[0..1] == "+" && OPERATORS[0..2] == "+-" && OPERATORS[0..3] == "+-/";
      assert OPERATORS[0..4] == "+-/*" && OPERATORS[1..2] == "-" && OPERATORS[1..3] == "-/";
      assert OPERATORS[1..4] == "-/*" && OPERATORS[2..3] == "/" && OPERATORS[2..4] == "/*" && OPERATORS[3..4] == "*";
    }
  }

  lemma PartNamed(i: nat, n: nat)
    requires i + n <= 4
    ensures OPERATORS[i..i + n] in OPERATOR_NAMES
  {
    if n == 0 { assert OPERATORS[i..i] == ""; }
    else if n == 1 { assert OPERATORS[i..i + 1] == [OPERATORS[i]]; }
    else if n == 2 { assert OPERATORS[i..i + 2] == [OPERATORS[i], OPERATORS[i + 1]]; }
    else if n == 3 { assert OPERATORS[i..i + 3] == [OPERATORS[i], OPERATORS[i + 1], OPERATORS[i + 2]]; }
    else { assert OPERATORS[i..i + 4] == OPERATORS; }
  }

  lemma OpComputes(args: seq<Lval>, op: string, r: Lval)
    requires args != [] && (forall i :: 0 <= i < |args| ==> args[i].Num?)
    ensures Computes(op, Numbers(args), r) <==> r == Op(args, op)
  {
    var x, ys, ns := args[0].num, args[1..], Numbers(args);
    assert ns == [x] + Numbers(ys) && ns[1..] == Numbers(ys);
    if op == "+" || op == "-" {
      FoldTotals(x, ys);
      TotalIsSum(ys);
      SumSplits(x, Numbers(ys));
    } else if op == "*" {
      FoldMultiplies(x, ys);
      ProductSplits(x, Numbers(ys));
    } else if op == "/" {
      DivisionComputes(args, r);
    } else {
      OthersDoNothing(op, x, ys);
    }
  }

  lemma {:induction false} OthersDoNothing(op: string, x: int, ys: seq<Lval>)
    requires op !in ["+", "-", "*", "/"] && forall i :: 0 <= i < |ys| ==> ys[i].Num?
    ensures Fold(op, x, ys) == Num(x)
    decreases |ys|
  {
    if ys != [] { OthersDoNothing(op, x, ys[1..]); }
  }

  lemma DivisionComputes(args: seq<Lval>, r: Lval)
    requires args != [] && (forall i :: 0 <= i < |args| ==> args[i].Num?)
    ensures Computes("/", Numbers(args), r) <==> r == Op(args, "/")
  {
    var x, ys, ns := args[0].num, args[1..], Numbers(args);
    assert ns == [x] + Numbers(ys);
    FoldFails("/", x, ys);
    assert forall k | 0 < k < |ns| :: ns[k] == ys[k - 1].num;
    assert ns[1..] == Numbers(ys);
    if 0 in ns[1..] {
      ZeroDivides(x, ys);
    } else {
      forall i | 0 <= i < |ys| ensures ys[i].num != 0 { assert ys[i].num == ns[i + 1]; }
      var qs := FoldDivides(x, ys);
      forall ps | DividesInTurn(ns, ps) ensures ps[|ps| - 1] == qs[|qs| - 1] { OneTrail(ns, ps, qs, |ns| - 1); }
    }
  }

  lemma {:induction false} ZeroDivides(x: int, ys: seq<Lval>)
    requires forall i :: 0 <= i < |ys| ==> ys[i].Num?
    requires exists i :: 0 <= i < |ys| && ys[i].num == 0
    ensures Fold("/", x, ys) == Err("Division by zero")
    decreases |ys|
  {
    if ys[0].num != 0 {
      var i :| 0 <= i < |ys| && ys[i].num == 0;
      assert ys[1..][i - 1] == ys[i];
      ZeroDivides(Quotient(x, ys[0].num), ys[1..]);
    }
  }

  lemma {:induction false} JoinedStand(args: seq<Lval>, n: nat, list: seq<Lval>)
    requires n <= |args| && AllQuoted(args) && |list| >= CellsBefore(args, n)
    ensures |Joined(args[..n])| == CellsBefore(args, n)
    ensures AllStand(args, n, list) <==> list[..CellsBefore(args, n)] == Joined(args[..n])
    decreases n
  {
    hide AllStand, StandAt, Joined;
    if n == 0 {
      assert args[..0] == [];
      NothingJoined(args, list);
    } else {
      var m := n - 1;
      JoinedStand(args, m, list);
      JoinedNext(args, m);
      OneMoreStands(args, n, list);
      SliceStands(args[m].cell, list, CellsBefore(args, m));
      SameHalves(list, CellsBefore(args, m), CellsBefore(args, n), Joined(args[..m]), args[m].cell);
    }
  }

  predicate AllQuoted(args: seq<Lval>) {
    forall i :: 0 <= i < |args| ==> args[i].Qexpr?
  }

  lemma NothingJoined(args: seq<Lval>, list: seq<Lval>)
    ensures Joined([]) == [] && AllStand(args, 0, list)
  {}

  lemma OneMoreStands(args: seq<Lval>, n: nat, list: seq<Lval>)
    requires 0 < n <= |args|
    ensures AllStand(args, n, list) <==>
        AllStand(args, n - 1, list) && StandAt(Cells(args[n - 1]), list, CellsBefore(args, n - 1))
  {
    hide Cells, StandAt, CellsBefore;
  }

  lemma SliceStands(cells: seq<Lval>, list: seq<Lval>, at: nat)
    requires at + |cells| <= |list|
    ensures StandAt(cells, list, at) <==> list[at..at + |cells|] == cells
  {
    var slice := list[at..at + |cells|];
    if slice == cells {
      forall k | 0 <= k < |cells| ensures list[at + k] == cells[k] { assert slice[k] == list[at + k]; }
    }
  }

  lemma {:induction false} JoinedNext(args: seq<Lval>, m: nat)
    requires m < |args| && AllQuoted(args)
    ensures Joined(args[..m + 1]) == Joined(args[..m]) + args[m].cell
    decreases |args|
  {
    if m == 0 {
      assert args[..1] == [args[0]] && args[..0] == [];
      assert Joined([args[0]]) == args[0].cell + Joined([args[0]][1..]);
    } else {
      JoinedNext(args[1..], m - 1);
      assert args[..m + 1][1..] == args[1..][..m] && args[..m][1..] == args[1..][..m - 1];
    }
  }

  lemma JoinMakes(args: seq<Lval>, r: Lval)
    requires args != []
    ensures MakesJoin(args, r) <==> r == Join(args)
  {
    hide AllStand, Joined;
    if AllQuoted(args) {
      LengthJoined(args);
      if r.Qexpr? && |r.cell| == CellsBefore(args, |args|) { WholeStands(args, r.cell); }
    }
  }

  lemma WholeStands(args: seq<Lval>, list: seq<Lval>)
    requires AllQuoted(args) && |list| == CellsBefore(args, |args|)
    ensures AllStand(args, |args|, list) <==> list == Joined(args)
  {
    JoinedStand(args, |args|, list);
    hide AllStand, Joined;
    assert args[..|args|] == args && list[..|list|] == list;
  }

  lemma LengthJoined(args: seq<Lval>)
    requires AllQuoted(args)
    ensures |Joined(args)| == CellsBefore(args, |args|)
  {
    JoinedStand(args, |args|, seq(CellsBefore(args, |args|), _ => Num(0)));
    assert args[..|args|] == args;
  }

  lemma HeadMakes(args: seq<Lval>, r: Lval)
    requires args != []
    ensures MakesHead(args, r) <==> r == Head(args)
  {
    if |args| == 1 && args[0].Qexpr? && args[0].cell != [] && r.Qexpr? {
      assert IsHead(args[0].cell, r.cell) <==> r.cell == [args[0].cell[0]];
    }
  }

  lemma TailMakes(args: seq<Lval>, r: Lval)
    requires args != []
    ensures MakesTail(args, r) <==> r == Tail(args)
  {
    if |args| == 1 && args[0].Qexpr? && args[0].cell != [] && r.Qexpr? {
      assert IsTail(args[0].cell, r.cell) <==> r.cell == args[0].cell[1..];
    }
  }

  lemma OpMakes(op: string, args: seq<Lval>, r: Lval)
    requires args != []
    ensures MakesNumber(op, args, r) <==> r == Op(args, op)
  {
    hide Op, Computes;
    if forall i :: 0 <= i < |args| ==> args[i].Num? { OpComputes(args, op, r); } else { OpRefuses(args, op); }
  }

  lemma BuiltinMakes(func: string, args: seq<Lval>, r: Lval)
    requires args != []
    ensures Makes(func, args, r) <==> r == Builtin(args, func)
  {
    hide Eval, Head, Tail, Join, Op, IsOperator, NamesOperators, MakesNumber, MakesHead, MakesTail, MakesJoin, Size,
        Sizes;
    if func == "list" {
    } else if func == "head" {
      HeadMakes(args, r);
    } else if func == "tail" {
      TailMakes(args, r);
    } else if func == "join" {
      JoinMakes(args, r);
    } else if func != "eval" {
      OperatorNames(func);
      OpMakes(func, args, r);
    }
  }

  lemma OpRefuses(args: seq<Lval>, op: string)
    requires exists i | 0 <= i < |args| :: !args[i].Num?
    ensures Op(args, op) == Err("Cannot operate on non-number!")
  {}

  /** The value given is described by those of its members, and nothing else is. */
  lemma EvalMeans(v: Lval, r: Lval)
    ensures IsValueOf(v, r) <==> r == Eval(v)
  {
    if v.Sexpr? {
      var vs := v.cell;
      var es := EvalAll(vs);
      forall i | 0 <= i < |vs| ensures es[i] == Eval(vs[i]) { EvalAllAt(vs, i); }
      assert es == seq(|vs|, i requires 0 <= i < |vs| => Eval(vs[i]));
      EvalUnfolds(vs);
      hide Eval, EvalAll, Makes, Builtin;
      AppliedComes(vs, es, r);
    }
  }

  lemma AppliedComes(vs: seq<Lval>, es: seq<Lval>, r: Lval)
    requires |es| == |vs| && Sizes(es) <= Sizes(vs)
    ensures Comes(es, r) <==> r == Applied(vs, es)
  {
    hide Makes, Builtin;
    if FirstErr(es) == |es| > 1 && es[0].Sym? { BuiltinMakes(es[0].sym, es[1..], r); }
  }

  // ----- calls on numbers -----

  function Call(op: string, ns: seq<int>): Lval {
    Sexpr([Sym(op)] + Quantities(ns))
  }

  function Quantities(ns: seq<int>): seq<Lval> {
    seq(|ns|, i requires 0 <= i < |ns| => Num(ns[i]))
  }

  lemma OperatorCalled(op: string, args: seq<Lval>)
    requires NamesOperators(op) && args != []
    ensures Builtin(args, op) == Op(args, op) && TameCall(args, op)
  {
    OperatorNames(op);
    hide Eval, Op, IsOperator, Tame;
    assert |op| < 4 || op == "+-/*";
  }

  lemma NoneFails(ns: seq<int>)
    ensures var xs := Quantities(ns);
      EvalAll(xs) == xs && AllTame(xs) && FirstErr(xs) == |xs|
  {
    ValuesAreTheirOwn(Quantities(ns));
    ValuesAreTame(Quantities(ns));
  }

  /** An operator called with numbers: evaluation as performed is defined, and computes what the name says. */
  lemma CallComputes(op: string, ns: seq<int>)
    requires NamesOperators(op) && ns != []
    ensures var r := CodedEval(Call(op, ns)); r.Some? && Computes(op, ns, r.value)
  {
    var xs := Quantities(ns);
    hide Eval, EvalAll, Tame, AllTame, TameCall, CodedEval, Op, Computes, IsOperator, NamesOperators, Builtin, FirstErr;
    CallEvaluates(Sym(op), xs);
    TameOfCall(Sym(op), xs);
    EvalExactly(Call(op, ns));
    NoneFails(ns);
    OperatorCalled(op, xs);
    OpComputes(xs, op, Op(xs, op));
    assert Numbers(xs) == ns;
  }
}
