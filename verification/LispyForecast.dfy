/** What can be said of evaluating a Lispy expression without evaluating it: of which kind the result
    is, or that the evaluation has no meaning. */
module LispyForecast {
  import opened Options
  import opened LispyValues
  import opened LispyCoded

  /** The kind of a value: a symbol with its name, a Q-expression with its length. */
  datatype Kind = ANumber | AnError | ASymbol(sym: string) | AnEmpty | AList(len: nat)

  function KindOf(v: Lval): Kind {
    match v
    case Num(_) => ANumber
    case Err(_) => AnError
    case Sym(s) => ASymbol(s)
    case Sexpr(_) => AnEmpty
    case Qexpr(cell) => AList(|cell|)
  }

  /** The result is of this kind, or evaluating has no meaning, or both may be. */
  datatype Forecast = Gives(kind: Kind) | Breaks | Unsure

  function Foresee(v: Lval): Forecast
    decreases Size(v), 2
  {
    if v.Sexpr? then ForeseeList(v.cell) else Gives(KindOf(v))
  }

  function ForeseeAll(vs: seq<Lval>): (fs: seq<Forecast>)
    ensures |fs| == |vs|
    decreases Sizes(vs), 3, |vs|
  {
    if vs == [] then [] else [Foresee(vs[0])] + ForeseeAll(vs[1..])
  }

  predicate AllGive(fs: seq<Forecast>) {
    forall i :: 0 <= i < |fs| ==> fs[i].Gives?
  }

  function Kinds(fs: seq<Forecast>): (ks: seq<Kind>)
    requires AllGive(fs)
    ensures |ks| == |fs| && forall i :: 0 <= i < |fs| ==> ks[i] == fs[i].kind
  {
    seq(|fs|, i requires 0 <= i < |fs| => fs[i].kind)
  }

  function ForeseeList(vs: seq<Lval>): Forecast
    decreases 1 + Sizes(vs), 1
  {
    var fs := ForeseeAll(vs);
    if AllGive(fs) then ForeseeKinds(vs, Kinds(fs))
    else if exists i :: 0 <= i < |fs| && fs[i].Breaks? then Breaks
    else Unsure
  }

  /** The members have the kinds ks. A literal list handed to eval is looked into; of one that is
      computed only the length is known. */
  function ForeseeKinds(vs: seq<Lval>, ks: seq<Kind>): Forecast
    requires |ks| == |vs|
    decreases 1 + Sizes(vs), 0
  {
    var k := FirstError(ks);
    if k < |ks| then (if k == 0 then Gives(AnError) else Breaks)
    else if |ks| == 0 then Gives(AnEmpty)
    else if |ks| == 1 then Gives(ks[0])
    else if !ks[0].ASymbol? then Gives(AnError)
    else if ks[0].sym == "eval" && |vs| == 2 && vs[1].Qexpr? then
      assert Sizes(vs) == Size(vs[0]) + (Size(vs[1]) + Sizes(vs[1..][1..]));
      ForeseeList(vs[1].cell)
    else ForeseeCall(vs[1..], ks[1..], ks[0].sym)
  }

  function FirstError(ks: seq<Kind>): (k: nat)
    ensures k <= |ks| && (k < |ks| ==> ks[k].AnError?) && forall i :: 0 <= i < k ==> !ks[i].AnError?
  {
    if ks == [] || ks[0].AnError? then 0 else 1 + FirstError(ks[1..])
  }

  /** A function applied to arguments of the kinds ks, written as vs. */
  function ForeseeCall(vs: seq<Lval>, ks: seq<Kind>, func: string): Forecast
    requires |ks| == |vs| > 0
  {
    if func == "list" then Gives(AList(|ks|))
    else if func == "head" then
      if !IsOneList(ks) || ks[0].len == 0 then Gives(AnError) else if ks[0].len == 1 then Gives(AList(1)) else Breaks
    else if func == "tail" then
      if !IsOneList(ks) || ks[0].len == 0 then Gives(AnError) else Gives(AList(ks[0].len - 1))
    else if func == "join" then
      if exists i :: 0 <= i < |ks| && !ks[i].AList? then Gives(AnError) else Gives(AList(Lengths(ks)))
    else if func == "eval" then
      if !IsOneList(ks) then Gives(AnError) else Unsure
    else if IsOperator(func) then
      if exists i :: 0 <= i < |ks| && !ks[i].ANumber? then Gives(AnError)
      else if func != "/" then Gives(ANumber)
      else ForeseeDivision(vs[1..])
    else Gives(AnError)
  }

  predicate IsOneList(ks: seq<Kind>) {
    |ks| == 1 && ks[0].AList?
  }

  function Lengths(ks: seq<Kind>): nat
    requires forall i :: 0 <= i < |ks| ==> ks[i].AList?
  {
    if ks == [] then 0 else ks[0].len + Lengths(ks[1..])
  }

  /** Divisors are judged where they are written as numbers. */
  function ForeseeDivision(divisors: seq<Lval>): Forecast {
    if exists i :: 0 <= i < |divisors| && divisors[i] == Num(0) then Gives(AnError)
    else if forall i :: 0 <= i < |divisors| ==> divisors[i].Num? then Gives(ANumber)
    else Unsure
  }

  // ----- the forecast is right -----

  /** What a forecast says of a result and of whether it is reached. */
  ghost predicate Holds(f: Forecast, tame: bool, r: Lval) {
    match f
    case Gives(kind) => tame && KindOf(r) == kind
    case Breaks => !tame
    case Unsure => true
  }

  /** Without evaluating anything, the forecast tells the kind of the result and that evaluation is
      defined, or that it is not. */
  lemma {:induction false} ForeseeRight(v: Lval)
    ensures Holds(Foresee(v), Tame(v), Eval(v))
    decreases Size(v), 2
  {
    if v.Sexpr? { ForeseeListRight(v.cell); }
  }

  lemma {:induction false} ForeseeAllRight(vs: seq<Lval>)
    ensures AllTame(vs) ==> forall i :: 0 <= i < |vs| ==> !ForeseeAll(vs)[i].Breaks?
    ensures AllGive(ForeseeAll(vs)) ==>
      AllTame(vs) && forall i :: 0 <= i < |vs| ==> KindOf(EvalAll(vs)[i]) == Kinds(ForeseeAll(vs))[i]
    decreases Sizes(vs), 3, |vs|
  {
    if vs != [] {
      ForeseeRight(vs[0]);
      ForeseeAllRight(vs[1..]);
      var fs, gs := ForeseeAll(vs), ForeseeAll(vs[1..]);
      hide Foresee, ForeseeAll, Eval, Tame;
      assert fs == [Foresee(vs[0])] + gs by { AllForeseen(vs); }
      assert EvalAll(vs) == [Eval(vs[0])] + EvalAll(vs[1..]);
      if AllGive(fs) {
        assert fs[0].Gives?;
        forall i | 0 <= i < |gs| ensures gs[i] == fs[i + 1] && gs[i].Gives? { assert fs[i + 1] == gs[i]; }
        assert AllGive(gs);
      }
    }
  }

  lemma AllForeseen(vs: seq<Lval>)
    requires vs != []
    ensures ForeseeAll(vs) == [Foresee(vs[0])] + ForeseeAll(vs[1..])
  {}

  lemma {:induction false} ForeseeListRight(vs: seq<Lval>)
    ensures Holds(ForeseeList(vs), Tame(Sexpr(vs)), Eval(Sexpr(vs)))
    decreases 1 + Sizes(vs), 1
  {
    ForeseeAllRight(vs);
    TameUnfolds(vs);
    hide ForeseeKinds, Tame, ForeseeAll, Eval, EvalAll, AllTame;
    var fs := ForeseeAll(vs);
    if AllGive(fs) { ForeseeKindsRight(vs, Kinds(fs)); }
  }

  lemma {:induction false} ForeseeKindsRight(vs: seq<Lval>, ks: seq<Kind>)
    requires |ks| == |vs| && AllTame(vs) && forall i :: 0 <= i < |vs| ==> KindOf(EvalAll(vs)[i]) == ks[i]
    ensures Holds(ForeseeKinds(vs, ks), Tame(Sexpr(vs)), Eval(Sexpr(vs)))
    decreases 1 + Sizes(vs), 0
  {
    EvalUnfolds(vs);
    TameUnfolds(vs);
    var es := EvalAll(vs);
    hide Tame, ForeseeList, Eval, EvalAll, AllTame, Builtin, TameCall, ForeseeCall;
    SameFirstError(es, ks);
    if FirstError(ks) == |ks| > 1 && ks[0].ASymbol? {
      var func := ks[0].sym;
      assert es[0] == Sym(func);
      if func == "eval" && |vs| == 2 && vs[1].Qexpr? {
        EvalOfLiteral(vs);
        assert Sizes(vs) == Size(vs[0]) + (Size(vs[1]) + Sizes(vs[1..][1..]));
        ForeseeListRight(vs[1].cell);
      } else {
        EvalAllCons(vs[0], vs[1..]);
        assert vs == [vs[0]] + vs[1..] && es[1..] == EvalAll(vs[1..]);
        ForeseeCallRight(vs[1..], es[1..], ks[1..], func);
      }
    }
  }

  lemma {:induction false} SameFirstError(es: seq<Lval>, ks: seq<Kind>)
    requires |es| == |ks| && forall i :: 0 <= i < |es| ==> KindOf(es[i]) == ks[i]
    ensures FirstErr(es) == FirstError(ks)
  {
    if es != [] { SameFirstError(es[1..], ks[1..]); }
  }

  lemma EvalOfLiteral(vs: seq<Lval>)
    requires |vs| == 2 && vs[1].Qexpr? && EvalAll(vs)[0] == Sym("eval") && AllTame(vs)
    ensures Eval(Sexpr(vs)) == Eval(Sexpr(vs[1].cell))
    ensures Tame(Sexpr(vs)) <==> Tame(Sexpr(vs[1].cell))
  {
    var q := vs[1];
    EvalUnfolds(vs);
    EvalAllAt(vs, 1);
    ValueIsItsOwn(q);
    TameUnfolds(vs);
    var es := EvalAll(vs);
    hide Eval, EvalAll, AllTame, Tame;
    assert es == [Sym("eval"), q] && es[1..] == [q];
    assert FirstErr(es) == 2;
  }

  /** A function applied to evaluated arguments of the kinds foreseen. */
  lemma ForeseeCallRight(vs: seq<Lval>, es: seq<Lval>, ks: seq<Kind>, func: string)
    requires |vs| == |es| == |ks| > 0 && es == EvalAll(vs) && forall i :: 0 <= i < |es| ==> KindOf(es[i]) == ks[i]
    ensures Holds(ForeseeCall(vs, ks, func), TameCall(es, func), Builtin(es, func))
  {
    hide Eval, EvalAll, Tame, Size, Sizes, IsOperator, Join, Lengths, Op, ForeseeDivision;
    if func == "join" {
      JoinFails(es, ks);
      JoinAdds(es, ks);
    } else if func == "head" || func == "tail" {
      assert |es| == 1 ==> es == [es[0]];
    } else if func != "list" && func != "eval" && IsOperator(func) {
      OperatorRight(vs, es, ks, func);
    }
  }

  lemma JoinFails(es: seq<Lval>, ks: seq<Kind>)
    requires |es| == |ks| > 0 && forall i :: 0 <= i < |es| ==> KindOf(es[i]) == ks[i]
    ensures (exists i :: 0 <= i < |ks| && !ks[i].AList?) ==> KindOf(Join(es)) == AnError
  {
    if i :| 0 <= i < |ks| && !ks[i].AList? {
      assert !es[i].Qexpr?;
    }
  }

  lemma JoinAdds(es: seq<Lval>, ks: seq<Kind>)
    requires |es| == |ks| > 0 && forall i :: 0 <= i < |es| ==> KindOf(es[i]) == ks[i]
    ensures (forall i :: 0 <= i < |ks| ==> ks[i].AList?) ==> KindOf(Join(es)) == AList(Lengths(ks))
  {
    if forall i :: 0 <= i < |ks| ==> ks[i].AList? {
      JoinedLength(es, ks);
    }
  }

  lemma {:induction false} JoinedLength(es: seq<Lval>, ks: seq<Kind>)
    requires |es| == |ks| && forall i :: 0 <= i < |es| ==> es[i].Qexpr? && ks[i] == AList(|es[i].cell|)
    ensures |Joined(es)| == Lengths(ks)
  {
    if es != [] { JoinedLength(es[1..], ks[1..]); }
  }

  lemma OperatorRight(vs: seq<Lval>, es: seq<Lval>, ks: seq<Kind>, op: string)
    requires |vs| == |es| == |ks| > 0 && es == EvalAll(vs) && forall i :: 0 <= i < |es| ==> KindOf(es[i]) == ks[i]
    ensures var f := if exists i :: 0 <= i < |ks| && !ks[i].ANumber? then Gives(AnError)
        else if op != "/" then Gives(ANumber)
        else ForeseeDivision(vs[1..]);
      Holds(f, true, Op(es, op))
  {
    hide EvalAll;
    if forall i :: 0 <= i < |ks| ==> ks[i].ANumber? {
      assert forall i :: 0 <= i < |es| ==> es[i].Num?;
      FoldFails(op, es[0].num, es[1..]);
      forall i: nat | i < |vs| ensures es[i] == Eval(vs[i]) { EvalAllAt(vs, i); }
      if op == "/" { DivisorsRight(vs[1..], es[1..]); }
    }
  }

  lemma DivisorsRight(vs: seq<Lval>, es: seq<Lval>)
    requires |vs| == |es| && forall i :: 0 <= i < |vs| ==> es[i] == Eval(vs[i]) && es[i].Num?
    ensures ForeseeDivision(vs) == Gives(AnError) ==> exists i :: 0 <= i < |es| && es[i].num == 0
    ensures ForeseeDivision(vs) == Gives(ANumber) ==> forall i :: 0 <= i < |es| ==> es[i].num != 0
    ensures !ForeseeDivision(vs).Breaks?
  {
    hide Eval;
    forall i | 0 <= i < |vs| && vs[i].Num? ensures es[i] == vs[i] { ValueIsItsOwn(vs[i]); }
  }

  // ----- where it leaves nothing open -----

  /** Neither division nor eval is named, except inside a list that is quoted. */
  predicate Direct(v: Lval)
    decreases v
  {
    && (v.Sym? ==> v.sym != "/" && v.sym != "eval")
    && (v.Sexpr? ==> forall i | 0 <= i < |v.cell| :: Direct(v.cell[i]))
  }

  predicate Clear(f: Forecast) {
    !f.Unsure? && (f.Gives? && f.kind.ASymbol? ==> f.kind.sym != "/" && f.kind.sym != "eval")
  }

  lemma {:induction false} DirectIsClear(v: Lval)
    requires Direct(v)
    ensures Clear(Foresee(v))
    decreases Size(v), 1
  {
    if v.Sexpr? {
      DirectAreClear(v.cell);
      var fs := ForeseeAll(v.cell);
      hide Direct, ForeseeAll, ForeseeKinds;
      assert forall i :: 0 <= i < |fs| ==> Clear(fs[i]);
      if AllGive(fs) { KindsAreClear(v.cell, Kinds(fs)); }
    }
  }

  lemma KindsAreClear(vs: seq<Lval>, ks: seq<Kind>)
    requires |ks| == |vs| && forall i :: 0 <= i < |ks| ==> Clear(Gives(ks[i]))
    ensures Clear(ForeseeKinds(vs, ks))
  {
    hide ForeseeList;
    if FirstError(ks) == |ks| > 1 && ks[0].ASymbol? {
      assert Clear(Gives(ks[0]));
    }
  }

  lemma {:induction false} DirectAreClear(vs: seq<Lval>)
    requires forall i | 0 <= i < |vs| :: Direct(vs[i])
    ensures forall i :: 0 <= i < |vs| ==> Clear(ForeseeAll(vs)[i])
    decreases Sizes(vs), 2, |vs|
  {
    if vs != [] {
      DirectIsClear(vs[0]);
      DirectAreClear(vs[1..]);
      AllForeseen(vs);
    }
  }

  /** For such an expression evaluation as performed is defined exactly when a result is foreseen. */
  lemma DirectExactly(v: Lval)
    requires Direct(v)
    ensures CodedEval(v) == Some(Eval(v)) <==> Foresee(v).Gives?
    ensures CodedEval(v) == None <==> Foresee(v).Breaks?
  {
    DirectIsClear(v);
    ForeseeRight(v);
    EvalExactly(v);
  }
}
