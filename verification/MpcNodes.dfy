/** Parser nodes on the heap, and the optimiser that rewrites them in place. */
module MpcNodes {
  import opened Options
  import opened MpcParser
  import opened MpcOptimise
  import opened MpcLeaves
  import opened MpcCoded

  /** A pointer to a node of its own or to a named (retained) parser, which may be shared. */
  datatype Kid = Own(node: Node) | Named(id: nat)

  /** The trees below owner lie in r, without owner, and share nothing. */
  ghost predicate Fits(ks: seq<Kid>, owner: Node, r: set<Node>)
    requires owner in r
    reads r - {owner}
    decreases r, 1
  {
    && (forall i :: 0 <= i < |ks| ==> KidFits(ks[i], owner, r))
    && (forall i, j :: 0 <= i < j < |ks| ==> Apart(ks[i], ks[j], r - {owner}))
  }

  ghost predicate KidFits(k: Kid, owner: Node, r: set<Node>)
    requires owner in r
    reads r - {owner}
    decreases r, 0
  {
    k.Own? ==>
      && k.node in r && k.node != owner && k.node.name.None?
      && k.node.repr <= r - {owner} && k.node.Valid()
  }

  ghost predicate Apart(k: Kid, l: Kid, r: set<Node>)
    reads r
  {
    k.Own? && l.Own? ==> k.node in r && l.node in r && k.node.repr !! l.node.repr
  }

  /** The parser behind a pointer. */
  ghost function ValueOf(k: Kid, owner: Node, r: set<Node>): Parser
    requires owner in r && KidFits(k, owner, r)
    reads r - {owner}
    decreases r, 0
  {
    if k.Named? then Ref(k.id) else k.node.Value()
  }

  ghost function ValuesFrom(ks: seq<Kid>, owner: Node, r: set<Node>, i: nat): (vs: seq<Parser>)
    requires owner in r && Fits(ks, owner, r) && i <= |ks|
    reads r - {owner}
    ensures |vs| == |ks| - i && forall j :: 0 <= j < |vs| ==> vs[j] == ValueOf(ks[i + j], owner, r)
    decreases r, 1, |ks| - i
  {
    if i == |ks| then [] else [ValueOf(ks[i], owner, r)] + ValuesFrom(ks, owner, r, i + 1)
  }

  ghost function Values(ks: seq<Kid>, owner: Node, r: set<Node>): (vs: seq<Parser>)
    requires owner in r && Fits(ks, owner, r)
    reads r - {owner}
    ensures |vs| == |ks| && forall j :: 0 <= j < |vs| ==> vs[j] == ValueOf(ks[j], owner, r)
    decreases r, 2
  {
    ValuesFrom(ks, owner, r, 0)
  }

  /** What a node with this data and these parsers below stands for. */
  ghost function Assembled(data: Parser, vs: seq<Parser>): Parser
    requires Wraps(data) ==> |vs| == 1
  {
    if Wraps(data) then data.(x := vs[0]) else if Lists(data) then WithList(data, vs) else data
  }

  predicate Arity(data: Parser, n: nat) {
    if Wraps(data) then n == 1 else Lists(data) || n == 0
  }

  class Node {
    var data: Parser    // the type and what else the node holds; parsers inside it do not count
    var kids: seq<Kid>  // the parsers it points to
    var name: Option<string>  // of a retained parser, which other nodes point to by name
    ghost var repr: set<Node>

    ghost predicate Valid()
      reads this, repr
      decreases repr, 2
    {
      this in repr && Arity(data, |kids|) && Fits(kids, this, repr)
    }

    /** The parser the node stands for. */
    ghost function Value(): (v: Parser)
      requires Valid()
      reads this, repr
      decreases repr, 3
    {
      Assembled(data, Values(kids, this, repr))
    }

    /** The kids of a list take the place of the list. */
    method SpliceKid(i: nat)
      requires Valid() && Lists(data) && i < |kids| && kids[i].Own? && Lists(kids[i].node.data)
      modifies this`kids
      ensures Valid() && Lists(old(Value())) && i < |old(Value()).xs| && Lists(old(Value()).xs[i])
      ensures Value() == WithList(old(Value()), Splice(old(Value()).xs, i))
    {
      SpliceFits(kids, i, this, repr);
      SpliceValues(kids, i, this, repr);
      hide Fits, Values, Spliced;
      kids := Spliced(kids, i, kids[i].node.kids);
    }

    /** Becomes a copy of the second of two kids, which is freed. The copy is of all fields, so a
        retained parser loses its name. */
    method BecomeSecond()
      requires Valid() && Lists(data) && |kids| == 2 && kids[1].Own?
      modifies this`data, this`kids, this`name
      ensures Valid() && Lists(old(Value())) && |old(Value()).xs| == 2
      ensures Value() == old(Value()).xs[1] && name == None
    {
      Adopt(kids, 1, this, repr);
      hide Fits, Values;
      data, kids, name := kids[1].node.data, kids[1].node.kids, kids[1].node.name;
    }
  }

  lemma Adopt(ks: seq<Kid>, i: nat, owner: Node, r: set<Node>)
    requires owner in r && Fits(ks, owner, r) && i < |ks| && ks[i].Own?
    ensures var t := ks[i].node; t.Valid() && Fits(t.kids, owner, r) && t.name == None
    ensures var t := ks[i].node; Values(ks, owner, r)[i] == Assembled(t.data, Values(t.kids, owner, r))
  {
    var t := ks[i].node;
    KidOf(ks, owner, r, i);
    forall k | 0 <= k < |t.kids| ensures KidFits(t.kids[k], owner, r) {
      assert KidFits(t.kids[k], t, t.repr);
    }
    forall k, l | 0 <= k < l < |t.kids| ensures Apart(t.kids[k], t.kids[l], r - {owner}) {
      assert Apart(t.kids[k], t.kids[l], t.repr - {t});
    }
    assert Values(t.kids, owner, r) == Values(t.kids, t, t.repr) by {
      forall k | 0 <= k < |t.kids| ensures ValueOf(t.kids[k], owner, r) == ValueOf(t.kids[k], t, t.repr) {}
    }
  }

  function Spliced<T>(ks: seq<T>, i: nat, ts: seq<T>): (ls: seq<T>)
    requires i < |ks|
    ensures |ls| == |ks| - 1 + |ts|
    ensures forall k :: 0 <= k < |ls| ==>
        ls[k] == if k < i then ks[k] else if k < i + |ts| then ts[k - i] else ks[k - |ts| + 1]
  {
    ks[..i] + ts + ks[i + 1..]
  }

  lemma KidOf(ks: seq<Kid>, owner: Node, r: set<Node>, i: nat)
    requires owner in r && Fits(ks, owner, r) && i < |ks| && ks[i].Own?
    ensures var t := ks[i].node;
        t in r && t != owner && t.repr <= r - {owner} && t.Valid() && t in t.repr && t.name == None
    ensures var t := ks[i].node;
        Fits(t.kids, t, t.repr) && ValueOf(ks[i], owner, r) == Assembled(t.data, Values(t.kids, t, t.repr))
  {
    assert KidFits(ks[i], owner, r);
    assert ks[i].node.Valid();
  }

  /** The kids of a kid may take its place. */
  lemma SpliceFits(ks: seq<Kid>, i: nat, owner: Node, r: set<Node>)
    requires owner in r && Fits(ks, owner, r) && i < |ks| && ks[i].Own?
    ensures Fits(Spliced(ks, i, ks[i].node.kids), owner, r)
  {
    var t := ks[i].node;
    var ls := Spliced(ks, i, t.kids);
    KidOf(ks, owner, r, i);
    hide Spliced;
    forall k | 0 <= k < |ls| ensures KidFits(ls[k], owner, r) {
      if i <= k < i + |t.kids| {
        assert KidFits(t.kids[k - i], t, t.repr);
      }
    }
    forall k, l | 0 <= k < l < |ls| ensures Apart(ls[k], ls[l], r - {owner}) {
      var m, n := k - i, l - i;
      if 0 <= m < |t.kids| && 0 <= n < |t.kids| {
        assert Apart(t.kids[m], t.kids[n], t.repr - {t});
      } else if 0 <= m < |t.kids| {
        assert KidFits(t.kids[m], t, t.repr) && Apart(ks[i], ls[l], r - {owner});
      } else if 0 <= n < |t.kids| {
        assert KidFits(t.kids[n], t, t.repr) && Apart(ls[k], ks[i], r - {owner});
      }
    }
  }

  lemma SpliceValues(ks: seq<Kid>, i: nat, owner: Node, r: set<Node>)
    requires owner in r && Fits(ks, owner, r) && i < |ks| && ks[i].Own? && Lists(ks[i].node.data)
    requires Fits(Spliced(ks, i, ks[i].node.kids), owner, r)
    ensures Lists(Values(ks, owner, r)[i])
    ensures Values(Spliced(ks, i, ks[i].node.kids), owner, r) == Splice(Values(ks, owner, r), i)
  {
    hide Fits, KidFits, Apart, Values, ValueOf, Node.Valid, Node.Value;
    var t := ks[i].node;
    var ls, vs := Spliced(ks, i, t.kids), Values(ks, owner, r);
    KidOf(ks, owner, r, i);
    var ws := Values(t.kids, t, t.repr);
    assert vs[i] == Assembled(t.data, ws) && Lists(vs[i]) && vs[i].xs == ws;
    SpliceIsSpliced(vs, i);
    hide *;
    var us := Values(ls, owner, r);
    assert |us| == |ls|;
    forall k | 0 <= k < |ls| ensures us[k] == Spliced(vs, i, ws)[k] {
      if i <= k < i + |t.kids| {
        SameValue(ls, owner, r, k, t.kids, t, t.repr, k - i);
      } else {
        SameValue(ls, owner, r, k, ks, owner, r, if k < i then k else k - |t.kids| + 1);
      }
    }
    assert us == Spliced(vs, i, ws);
  }

  lemma SpliceIsSpliced(vs: seq<Parser>, i: nat)
    requires i < |vs| && Lists(vs[i])
    ensures Splice(vs, i) == Spliced(vs, i, vs[i].xs)
  {}

  lemma SameValue(ks: seq<Kid>, owner: Node, r: set<Node>, i: nat, ls: seq<Kid>, other: Node, r': set<Node>, j: nat)
    requires owner in r && Fits(ks, owner, r) && other in r' && Fits(ls, other, r')
    requires i < |ks| && j < |ls| && ks[i] == ls[j]
    ensures Values(ks, owner, r)[i] == Values(ls, other, r')[j]
  {
    assert KidFits(ks[i], owner, r) && KidFits(ls[j], other, r');
  }

  // ----- the optimiser -----

  /** The type of a node shows in the parser it stands for; a name is none of those. */
  lemma KidType(ks: seq<Kid>, owner: Node, r: set<Node>, i: nat)
    requires owner in r && Fits(ks, owner, r) && i < |ks|
    ensures var v := Values(ks, owner, r)[i];
      if ks[i].Named? then v.Ref?
      else
        var d := ks[i].node.data;
        && (v.Or? <==> d.Or?) && (v.And? <==> d.And?) && (v.And? ==> v.f == d.f && |v.xs| == |ks[i].node.kids|)
        && (v.Pass? <==> d.Pass?) && (v == Lift(CtorStr) <==> d == Lift(CtorStr)) && (v.Ref? <==> d.Ref?)
  {
    if ks[i].Own? {
      KidOf(ks, owner, r, i);
    }
  }

  /** How a round of the loop went: something was changed, nothing was left to do, or it had no
      meaning. */
  datatype Turn = Changed | Settled | Wrecked

  ghost predicate Tells(turn: Turn, was: Parser, now: Parser) {
    match turn
    case Changed => CodedRule(was) == Becomes(now)
    case Settled => CodedRule(was) == Done && now == was
    case Wrecked => CodedRule(was) == Broken
  }

  /** One round of the loop: the first rule that applies, if any. */
  method RewriteStep(p: Node) returns (turn: Turn)
    requires p.Valid()
    modifies p`data, p`kids, p`name
    ensures p.Valid() && Tells(turn, old(p.Value()), p.Value())
    ensures p.name == if turn.Changed? && DropsFirst(old(p.Value())) then None else old(p.name)
  {
    ValidFits(p);
    if !p.data.Or? && !p.data.And? { return Settled; }
    if p.data.Or? {
      turn := MergeOr(p);
    } else {
      turn := MergeAnd(p);
    }
  }

  lemma OrRule(vs: seq<Parser>)
    ensures CodedRule(Or(vs)) ==
            if vs == [] then Broken
            else if vs[|vs| - 1].Or? then Becomes(Or(Splice(vs, |vs| - 1)))
            else if vs[0].Or? then Broken
            else Done
  {
    CodedRuleExactly(Or(vs));
  }

  /** The tests on an alternative. The second merge writes past its array. */
  method MergeOr(p: Node) returns (turn: Turn)
    requires p.Valid() && p.data.Or?
    modifies p`kids
    ensures p.Valid() && Tells(turn, old(p.Value()), p.Value())
  {
    hide Fits, Values, ValueOf, CodedRule, Splice, Node.Valid, Node.Value;
    var n := |p.kids|;
    ValidFits(p);
    ghost var vs := Values(p.kids, p, p.repr);
    OrRule(vs);
    if n == 0 { return Wrecked; }
    KidType(p.kids, p, p.repr, 0);
    KidType(p.kids, p, p.repr, n - 1);
    var first, last := p.kids[0], p.kids[n - 1];
    if last.Own? && last.node.data.Or? {
      p.SpliceKid(n - 1);
      return Changed;
    }
    return if first.Own? && first.node.data.Or? then Wrecked else Settled;
  }

  lemma AndRule(f: Fold, vs: seq<Parser>)
    ensures CodedRule(And(f, vs)) ==
            if !f.FoldTree? && !f.StrFold? then Done
            else if vs == [] then Broken
            else if |vs| == 2 && IsUnit(f, vs[0]) then (if vs[1].Ref? then Broken else Becomes(vs[1]))
            else if SameFold(f, vs[0]) then (if vs[0].xs == [] then Broken else Becomes(And(f, Splice(vs, 0))))
            else if SameFold(f, vs[|vs| - 1]) then Becomes(And(f, Splice(vs, |vs| - 1)))
            else Done
  {
    CodedRuleExactly(And(f, vs));
  }

  /** The tests on a sequence: those for trees, then the same for strings. A second kid that is a
      name would be freed under its other holders, and the merge of an empty first one reads past
      the array. */
  method MergeAnd(p: Node) returns (turn: Turn)
    requires p.Valid() && p.data.And?
    modifies p`data, p`kids, p`name
    ensures p.Valid() && Tells(turn, old(p.Value()), p.Value())
    ensures p.name == if turn.Changed? && DropsFirst(old(p.Value())) then None else old(p.name)
  {
    hide Fits, Values, ValueOf, Splice, CodedRule, Node.Valid, Node.Value;
    var n, f := |p.kids|, p.data.f;
    ValidFits(p);
    ghost var vs := Values(p.kids, p, p.repr);
    AndRule(f, vs);
    if !f.FoldTree? && !f.StrFold? { return Settled; }
    if n == 0 { return Wrecked; }
    KidType(p.kids, p, p.repr, 0);
    KidType(p.kids, p, p.repr, n - 1);
    var first, last := p.kids[0], p.kids[n - 1];
    if n == 2 && first.Own? && IsUnit(f, first.node.data) {
      if last.Named? || last.node.data.Ref? { return Wrecked; }
      p.BecomeSecond();
      return Changed;
    }
    if first.Own? && SameFold(f, first.node.data) {
      if |first.node.kids| == 0 { return Wrecked; }
      p.SpliceKid(0);
      return Changed;
    }
    if last.Own? && SameFold(f, last.node.data) {
      p.SpliceKid(n - 1);
      return Changed;
    }
    return Settled;
  }

  /** Rewrites the root until no rule applies. */
  method RewriteRoot(p: Node) returns (defined: bool)
    requires p.Valid()
    modifies p`data, p`kids, p`name
    ensures p.Valid() && CodedRewrite(old(p.Value())) == if defined then Some(p.Value()) else None
    ensures p.name == None || p.name == old(p.name)
    ensures defined ==> p.name == if RootStays(old(p.Value())) then old(p.name) else None
  {
    ghost var v := p.Value();
    hide CodedRule, Rule, Breaks, Size, RootStays, DropsFirst, Node.Valid, Node.Value;
    while true
      invariant p.Valid() && CodedRewrite(p.Value()) == CodedRewrite(v)
      invariant p.name == None || (p.name == old(p.name) && (RootStays(p.Value()) <==> RootStays(v)))
      invariant p.name == None && old(p.name) != None ==> !RootStays(v)
      decreases Size(p.Value())
    {
      ghost var before := p.Value();
      CodedRuleExactly(before);
      StaysUnfolds(before);
      var turn := RewriteStep(p);
      if turn.Settled? { return true; }
      if turn.Wrecked? { return false; }
      RuleShrinks(before);
    }
  }

  /** The other pointers lead to nodes that share nothing with the one behind pointer i. */
  lemma OthersApart(ks: seq<Kid>, owner: Node, r: set<Node>, i: nat, j: nat)
    requires owner in r && Fits(ks, owner, r) && i < |ks| && j < |ks| && i != j && ks[i].Own? && ks[j].Own?
    ensures var u := ks[j].node; u.Valid() && u in u.repr && u.repr <= r - {owner} && u.repr !! ks[i].node.repr
  {
    KidOf(ks, owner, r, j);
    KidOf(ks, owner, r, i);
    assert Apart(ks[i], ks[j], r - {owner}) || Apart(ks[j], ks[i], r - {owner});
  }

  lemma FitsAll(ks: seq<Kid>, owner: Node, r: set<Node>, vs: seq<Parser>)
    requires owner in r && |vs| == |ks|
    requires forall j :: 0 <= j < |ks| ==> KidFits(ks[j], owner, r) && ValueOf(ks[j], owner, r) == vs[j]
    requires forall j, k :: 0 <= j < k < |ks| ==> Apart(ks[j], ks[k], r - {owner})
    ensures Fits(ks, owner, r) && Values(ks, owner, r) == vs
  {}

  /** What the pointer j is known to lead to when t, behind another pointer, is about to change. */
  ghost predicate Beside(t: Node, k: Kid, owner: Node, r: set<Node>, v: Parser)
    requires owner in r
    reads r - {owner}
  {
    && KidFits(k, owner, r) && ValueOf(k, owner, r) == v
    && (k.Own? ==> t in r && t != owner && k.node in k.node.repr && k.node.repr !! t.repr)
  }

  lemma AllBeside(ks: seq<Kid>, owner: Node, r: set<Node>, i: nat, j: nat)
    requires owner in r && Fits(ks, owner, r) && i < |ks| && j < |ks| && i != j && ks[i].Own?
    ensures Beside(ks[i].node, ks[j], owner, r, Values(ks, owner, r)[j])
  {
    KidOf(ks, owner, r, i);
    if ks[j].Own? { OthersApart(ks, owner, r, i, j); }
  }

  lemma ValidFits(p: Node)
    requires p.Valid()
    ensures p in p.repr && Arity(p.data, |p.kids|) && Fits(p.kids, p, p.repr)
    ensures p.Value() == Assembled(p.data, Values(p.kids, p, p.repr))
    ensures forall j, k :: 0 <= j < k < |p.kids| ==> Apart(p.kids[j], p.kids[k], p.repr - {p})
  {}

  lemma FitsValid(p: Node)
    requires p in p.repr && Arity(p.data, |p.kids|) && Fits(p.kids, p, p.repr)
    ensures p.Valid()
  {}

  /** Optimises what the pointer number i leads to, unless it is a name. */
  method OptimiseKid(p: Node, i: nat) returns (defined: bool)
    requires p.Valid() && i < |p.kids|
    modifies p.repr - {p}
    ensures p.Valid()
    ensures var vs := old(Values(p.kids, p, p.repr));
      if defined then CodedOptimise(vs[i]).Some? && Values(p.kids, p, p.repr) == vs[i := CodedOptimise(vs[i]).value]
      else CodedOptimise(vs[i]).None?
    decreases p.repr, 0
  {
    hide Fits, Values, CodedOptimise, Assembled, Node.Valid, Node.Value;
    ghost var r := p.repr;
    ValidFits(p);
    ghost var vs := Values(p.kids, p, r);
    if p.kids[i].Named? {
      NameStays(p.kids[i].id);
      return true;
    }
    var t := p.kids[i].node;
    KidOf(p.kids, p, r, i);
    forall j | 0 <= j < |p.kids| && j != i ensures Beside(t, p.kids[j], p, r, vs[j]) {
      AllBeside(p.kids, p, r, i, j);
    }
    defined := OptimiseUnretained(t);
    forall j | 0 <= j < |p.kids| && j != i ensures KidFits(p.kids[j], p, r) && ValueOf(p.kids[j], p, r) == vs[j] {
      assert old(Beside(t, p.kids[j], p, r, vs[j]));
    }
    FitsAll(p.kids, p, r, vs[i := ValueOf(p.kids[i], p, r)]);
    FitsValid(p);
  }

  lemma NameStays(id: nat)
    ensures CodedOptimise(Ref(id)) == Some(Ref(id))
  {}

  /** Optimises the children one after the other. */
  method OptimiseKids(p: Node) returns (defined: bool)
    requires p.Valid()
    modifies p.repr - {p}
    ensures p.Valid()
        && CodedAll(old(Values(p.kids, p, p.repr))) == if defined then Some(Values(p.kids, p, p.repr)) else None
    decreases p.repr, 1
  {
    ghost var vs := Values(p.kids, p, p.repr);
    hide Fits, Values, CodedOptimise, CodedAll;
    for i := 0 to |p.kids|
      invariant p.Valid() && |Values(p.kids, p, p.repr)| == |vs|
      invariant forall k :: 0 <= k < i ==> CodedOptimise(vs[k]) == Some(Values(p.kids, p, p.repr)[k])
      invariant forall k :: i <= k < |vs| ==> Values(p.kids, p, p.repr)[k] == vs[k]
    {
      defined := OptimiseKid(p, i);
      if !defined { return; }
    }
    assert CodedAll(vs).value == Values(p.kids, p, p.repr);
    return true;
  }

  /** Optimises the children, then the root, all in place: what the optimiser as coded makes of
      the parser, if it is defined at all. */
  method OptimiseUnretained(p: Node) returns (defined: bool)
    requires p.Valid()
    modifies p.repr
    ensures p.repr == old(p.repr) && p.Valid()
    ensures CodedOptimise(old(p.Value())) == if defined then Some(p.Value()) else None
    ensures p.name == None || p.name == old(p.name)
    ensures defined ==> p.name == if KeepsName(old(p.Value())) then old(p.name) else None
    decreases p.repr, 2
  {
    hide Fits, Values, CodedRewrite, CodedOptimise, Assembled, RootStays, KeepsName;
    ghost var vs := Values(p.kids, p, p.repr);
    CodedAssembles(p.data, vs);
    defined := OptimiseKids(p);
    if defined {
      KeepsAssembled(p.data, vs);
      defined := RewriteRoot(p);
    }
  }

  /** The root that the loop begins with. */
  lemma KeepsAssembled(data: Parser, vs: seq<Parser>)
    requires Arity(data, |vs|) && CodedAll(vs).Some?
    ensures CodedRewrite(Assembled(data, CodedAll(vs).value)).Some? ==>
      (RootStays(Assembled(data, CodedAll(vs).value)) <==> KeepsName(Assembled(data, vs)))
  {
    var p := Assembled(data, vs);
    CodedAssembles(data, vs);
    CodedExactly(p);
    if Safe(p) {
      SafeIsFilled(p);
      RootStaysExactly(p);
      AssembledAgain(data, vs);
    }
  }

  lemma AssembledAgain(data: Parser, vs: seq<Parser>)
    requires Arity(data, |vs|) && CodedAll(vs).Some?
    ensures Rebuild(Assembled(data, vs)) == Assembled(data, CodedAll(vs).value)
  {
    hide CodedAll, CodedOptimise, Optimise, OptimiseAll, Assembled, Rebuild;
    var ws := CodedAll(vs).value;
    forall i | 0 <= i < |vs| ensures ws[i] == OptimiseAll(vs)[i] { CodedExactly(vs[i]); }
    assert ws == OptimiseAll(vs);
    RebuiltBelow(data, vs);
  }

  lemma RebuiltBelow(data: Parser, vs: seq<Parser>)
    requires Arity(data, |vs|)
    ensures Rebuild(Assembled(data, vs)) == Assembled(data, OptimiseAll(vs))
  {
    hide Optimise, OptimiseAll;
    if Wraps(data) { SetBelow(data, vs[0]); }
  }

  lemma CodedAssembles(data: Parser, vs: seq<Parser>)
    requires Arity(data, |vs|)
    ensures var ws := CodedAll(vs);
      CodedOptimise(Assembled(data, vs)) == if ws.Some? then CodedRewrite(Assembled(data, ws.value)) else None
  {
    hide CodedRewrite, CodedAll;
    if Wraps(data) {
      SetBelow(data, vs[0]);
    }
  }

  lemma SetBelow(data: Parser, x: Parser)
    requires Wraps(data)
    ensures var p := data.(x := x); Wraps(p) && p.x == x && !Lists(p) && forall y :: p.(x := y) == data.(x := y)
  {}

  /** The in-place optimiser is defined exactly for the nodes of safe parsers, and leaves the
      parser it is meant to leave. A retained parser loses its name when it comes down to the second
      of two elements. */
  method OptimiseParser(p: Node) returns (defined: bool)
    requires p.Valid()
    modifies p.repr
    ensures p.Valid() && (defined <==> Safe(old(p.Value())))
    ensures defined ==> p.Value() == Optimise(old(p.Value()))
    ensures defined ==> p.name == if KeepsName(old(p.Value())) then old(p.name) else None
  {
    CodedExactly(p.Value());
    hide CodedOptimise, Optimise, Safe, KeepsName;
    defined := OptimiseUnretained(p);
  }

  // ----- the statistics -----

  /** The recursion with the loops that add up the counts; a name counts nothing. */
  method CountNodes(p: Node) returns (total: nat)
    requires p.Valid()
    ensures total == NodeCount(p.Value())
    decreases p.repr, 1
  {
    ValidFits(p);
    hide Fits, Values, Node.Valid, Node.Value;
    if p.data.Ref? { return 0; }
    if Wraps(p.data) {
      total := CountKid(p, 0);
      return 1 + total;
    }
    if !Lists(p.data) { return 1; }
    total := 0;
    ghost var vs := Values(p.kids, p, p.repr);
    for i := 0 to |p.kids|
      invariant total + NodeCountAll(vs[i..]) == NodeCountAll(vs)
    {
      assert vs[i..][1..] == vs[i + 1..];
      var k := CountKid(p, i);
      total := total + k;
    }
  }

  method CountKid(p: Node, i: nat) returns (total: nat)
    requires p.Valid() && i < |p.kids|
    ensures total == NodeCount(Values(p.kids, p, p.repr)[i])
    decreases p.repr, 0
  {
    if p.kids[i].Named? { return 0; }
    KidOf(p.kids, p, p.repr, i);
    hide Fits, Values, Node.Valid;
    total := CountNodes(p.kids[i].node);
  }
}
