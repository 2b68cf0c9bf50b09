/** What the two-colouring search keeps while it runs, on the marks of the vertices as values. */
module ColoringMarks {
  import opened Graphs

  datatype Mark = Mark(color: Color, passed: bool)

  /** The source's function falls through, returning nothing, for grey. */
  function NegColor(c: Color): (r: Color)
    requires c != Gray
    ensures r != Gray && r != c
  {
    if c == White then Black else White
  }

  ghost predicate Symmetric<V>(next: map<V, seq<V>>) {
    forall u, v :: u in next && v in next && Edge(next, u, v) ==> Edge(next, v, u)
  }

  ghost predicate LoopFree<V>(next: map<V, seq<V>>) {
    forall v :: v in next ==> v !in next[v]
  }

  /** Every edge leads both ways, and between two vertices. */
  ghost predicate Mutual<V>(next: map<V, seq<V>>) {
    Symmetric(next) && LoopFree(next)
  }

  /** A walk from start to v of even length for white, odd for black. */
  ghost predicate Walked<V>(next: map<V, seq<V>>, start: V, v: V, c: Color) {
    exists n: nat :: WalkedIn(next, start, v, c, n)
  }

  ghost predicate WalkedIn<V>(next: map<V, seq<V>>, start: V, v: V, c: Color, n: nat) {
    v in Steps(next, start, n) && (n % 2 == if c == Black then 1 else 0)
  }

  ghost predicate AllWalked<V>(next: map<V, seq<V>>, start: V, m: map<V, Mark>) {
    start in m && m[start].color != Gray && forall v :: v in m && m[v].color != Gray ==>
        Walked(next, start, v, m[v].color)
  }

  ghost predicate Proper<V>(next: map<V, seq<V>>, m: map<V, Mark>) {
    forall u, v :: u in m && v in m && m[u].color != Gray && m[v].color != Gray && Edge(next, u, v) ==>
        m[u].color != m[v].color
  }

  /** Passed vertices and their neighbours are coloured. */
  ghost predicate Passed<V>(next: map<V, seq<V>>, m: map<V, Mark>) {
    && (forall u :: u in m && m[u].passed ==> m[u].color != Gray)
    && (forall u, v :: u in m && v in m && m[u].passed && Edge(next, u, v) ==> m[v].color != Gray)
  }

  /** The queue holds coloured vertices, among them all that are not passed. */
  ghost predicate Queued<V>(m: map<V, Mark>, q: seq<V>) {
    && (forall i :: 0 <= i < |q| ==> q[i] in m && m[q[i]].color != Gray)
    && (forall v :: v in m && m[v].color != Gray && !m[v].passed ==> v in q)
  }

  ghost predicate Search<V>(next: map<V, seq<V>>, start: V, m: map<V, Mark>, q: seq<V>) {
    next.Keys == m.Keys && AllWalked(next, start, m) && (Mutual(next) ==> Proper(next, m)) && Passed(next, m)
        && Queued(m, q)
  }

  function Painted<V>(m: map<V, Mark>, v: V, c: Color): map<V, Mark>
    requires v in m
  {
    m[v := m[v].(color := c)]
  }

  function Finished<V>(m: map<V, Mark>, u: V): map<V, Mark>
    requires u in m
  {
    m[u := m[u].(passed := true)]
  }

  ghost function Unpassed<V>(m: map<V, Mark>): set<V> {
    set v | v in m && !m[v].passed
  }

  /** How many passed vertices the queue starts with. */
  ghost function FirstUnpassed<V>(m: map<V, Mark>, q: seq<V>): (n: nat)
    ensures n <= |q|
  {
    if q == [] || q[0] !in m || !m[q[0]].passed then 0 else 1 + FirstUnpassed(m, q[1..])
  }

  lemma {:induction false} AppendUnpassed<V>(m: map<V, Mark>, q: seq<V>, v: V)
    requires v in q && v in m && !m[v].passed
    ensures FirstUnpassed(m, q + [v]) == FirstUnpassed(m, q)
  {
    assert (q + [v])[0] == q[0];
    if q[0] in m && m[q[0]].passed {
      AppendUnpassed(m, q[1..], v);
      assert (q + [v])[1..] == q[1..] + [v];
    }
  }

  lemma SearchStarts<V>(next: map<V, seq<V>>, start: V, m: map<V, Mark>)
    requires next.Keys == m.Keys && start in m
    requires forall v :: v in m ==> m[v] == Mark(if v == start then White else Gray, false)
    ensures Search(next, start, m, [start])
  {
    assert WalkedIn(next, start, start, White, 0);
  }

  lemma QueueHead<V>(next: map<V, seq<V>>, start: V, m: map<V, Mark>, q: seq<V>)
    requires Search(next, start, m, q) && q != []
    ensures q[0] in m && m[q[0]].color != Gray && q == [q[0]] + q[1..]
  {}

  /** Some neighbour of v has the colour that v is about to get. */
  predicate Clash<V>(next: map<V, seq<V>>, m: map<V, Mark>, v: V, c: Color) {
    v in next && exists x :: x in next[v] && x in m && m[x].color == c
  }

  /** Painting a neighbour of the first vertex of the queue keeps the search when no neighbour
      has that colour; where edges are mutual, a vertex coloured before does not change. */
  lemma PaintKeeps<V>(next: map<V, seq<V>>, start: V, m: map<V, Mark>, q: seq<V>, v: V)
    requires Search(next, start, m, q) && q != [] && q[0] in m && m[q[0]].color != Gray
    requires v in m && Edge(next, q[0], v) && !Clash(next, m, v, NegColor(m[q[0]].color))
    ensures Search(next, start, Painted(m, v, NegColor(m[q[0]].color)), q + [v])
    ensures Mutual(next) && m[v].color != Gray ==> Painted(m, v, NegColor(m[q[0]].color)) == m
  {
    hide Steps;
    var u := q[0];
    var c := NegColor(m[u].color);
    var w := Painted(m, v, c);
    PaintWalks(next, start, m, u, v);
    if Mutual(next) { PaintProper(next, m, v, c); }
    assert Queued(w, q + [v]);
  }

  lemma PaintProper<V>(next: map<V, seq<V>>, m: map<V, Mark>, v: V, c: Color)
    requires Mutual(next) && next.Keys == m.Keys && Proper(next, m) && v in m && !Clash(next, m, v, c)
    ensures Proper(next, Painted(m, v, c))
  {
    var w := Painted(m, v, c);
    forall a, b | a in w && b in w && w[a].color != Gray && w[b].color != Gray && Edge(next, a, b)
      ensures w[a].color != w[b].color
    {
      assert Edge(next, b, a);
    }
  }

  lemma PaintWalks<V>(next: map<V, seq<V>>, start: V, m: map<V, Mark>, u: V, v: V)
    requires AllWalked(next, start, m) && u in m && v in m && m[u].color != Gray && Edge(next, u, v)
    ensures AllWalked(next, start, Painted(m, v, NegColor(m[u].color)))
  {
    hide Steps;
    assert Walked(next, start, u, m[u].color);
    var n: nat :| WalkedIn(next, start, u, m[u].color, n);
    StepsNext(next, start, n, u, v);
    assert WalkedIn(next, start, v, NegColor(m[u].color), n + 1);
  }

  /** Passing the first vertex once its neighbours are coloured keeps the search. */
  lemma FinishKeeps<V>(next: map<V, seq<V>>, start: V, m: map<V, Mark>, q: seq<V>)
    requires Search(next, start, m, q) && q != []
    requires forall v :: v in m && Edge(next, q[0], v) ==> m[v].color != Gray
    ensures q[0] in m && Search(next, start, Finished(m, q[0]), q[1..])
  {}

  // ----- one round -----

  predicate ColoredUpTo<V>(m: map<V, Mark>, vs: seq<V>, i: nat) {
    i <= |vs| && forall k :: 0 <= k < i ==> vs[k] in m && m[vs[k]].color != Gray
  }

  /** A vertex put back by a vertex passed before is in the queue already. */
  lemma PutBack<V>(next: map<V, seq<V>>, start: V, m: map<V, Mark>, u: V, rest: seq<V>, v: V)
    requires Search(next, start, m, [u] + rest) && u in m && v in m && m[u].passed && !m[v].passed && Edge(next, u, v)
    ensures m[v].color != Gray && FirstUnpassed(m, rest + [v]) == FirstUnpassed(m, rest)
  {
    assert v in [u] + rest;
    AppendUnpassed(m, rest, v);
  }

  lemma {:induction false} PaintCounts<V>(m: map<V, Mark>, v: V, c: Color, q: seq<V>)
    requires v in m
    ensures FirstUnpassed(Painted(m, v, c), q) == FirstUnpassed(m, q)
  {
    if q != [] { PaintCounts(m, v, c, q[1..]); }
  }

  lemma PaintStep<V>(next: map<V, seq<V>>, start: V, m: map<V, Mark>, u: V, rest: seq<V>, vs: seq<V>, i: nat)
    requires Search(next, start, m, [u] + rest) && u in next && next[u] == vs
    requires i < |vs| && vs[i] in m && !m[vs[i]].passed && ColoredUpTo(m, vs, i)
    requires u in m && m[u].color != Gray && !Clash(next, m, vs[i], NegColor(m[u].color))
    ensures Search(next, start, Painted(m, vs[i], NegColor(m[u].color)), [u] + (rest + [vs[i]]))
    ensures ColoredUpTo(Painted(m, vs[i], NegColor(m[u].color)), vs, i + 1)
    ensures Unpassed(Painted(m, vs[i], NegColor(m[u].color))) == Unpassed(m)
    ensures m[u].passed ==>
        FirstUnpassed(Painted(m, vs[i], NegColor(m[u].color)), rest + [vs[i]]) == FirstUnpassed(m, rest)
  {
    hide Search, FirstUnpassed, Clash;
    PaintKeeps(next, start, m, [u] + rest, vs[i]);
    assert [u] + rest + [vs[i]] == [u] + (rest + [vs[i]]);
    PaintCounts(m, vs[i], NegColor(m[u].color), rest + [vs[i]]);
    if m[u].passed {
      PutBack(next, start, m, u, rest, vs[i]);
    }
  }

  lemma SkipStep<V>(next: map<V, seq<V>>, start: V, m: map<V, Mark>, q: seq<V>, vs: seq<V>, i: nat)
    requires Search(next, start, m, q) && i < |vs| && vs[i] in m && m[vs[i]].passed && ColoredUpTo(m, vs, i)
    ensures ColoredUpTo(m, vs, i + 1)
  {}

  /** A round makes the pair of the unpassed vertices and the distance to the first of them in
      the queue smaller. */
  lemma FinishStep<V>(next: map<V, seq<V>>, start: V, m: map<V, Mark>, u: V, rest: seq<V>)
    requires Search(next, start, m, [u] + rest) && u in next && ColoredUpTo(m, next[u], |next[u]|)
    ensures u in m && Search(next, start, Finished(m, u), rest)
    ensures u in Unpassed(m) ==> Unpassed(Finished(m, u)) < Unpassed(m)
    ensures u !in Unpassed(m) ==> Finished(m, u) == m
  {
    assert ([u] + rest)[1..] == rest && ([u] + rest)[0] == u;
    forall v | v in m && Edge(next, u, v) ensures m[v].color != Gray {
      var k :| 0 <= k < |next[u]| && next[u][k] == v;
    }
    FinishKeeps(next, start, m, [u] + rest);
    hide Search;
    if u in Unpassed(m) {
      assert u !in Unpassed(Finished(m, u));
    }
  }

  lemma PopCounts<V>(m: map<V, Mark>, q: seq<V>)
    requires q != [] && q[0] in m && q[0] !in Unpassed(m)
    ensures FirstUnpassed(m, q[1..]) < FirstUnpassed(m, q)
  {}

  // ----- the answer -----

  /** white and its complement are a proper two-colouring of the component of start. */
  ghost predicate TwoColors<V>(next: map<V, seq<V>>, start: V, white: set<V>) {
    forall u, v :: u in next && v in next && Reaches(next, start, u) && Edge(next, u, v) ==>
        (u in white <==> v !in white)
  }

  ghost predicate TwoColorable<V>(next: map<V, seq<V>>, start: V) {
    exists white: set<V> :: white <= next.Keys && TwoColors(next, start, white)
  }

  /** In a two-colouring the length of a walk tells the colour of its end. */
  lemma {:induction false} WalkTellsColor<V>(next: map<V, seq<V>>, start: V, white: set<V>, n: nat, v: V)
    requires Closed(next) && start in next && TwoColors(next, start, white) && v in Steps(next, start, n)
    ensures v in next && (v in white <==> (start in white <==> n % 2 == 0))
    decreases n
  {
    if n > 0 {
      var u := StepsLast(next, start, n, v);
      WalkTellsColor(next, start, white, n - 1, u);
      assert v in next by { var i :| 0 <= i < |next[u]| && next[u][i] == v; }
      assert Reaches(next, start, u);
    }
  }

  /** A clash shows that no proper two-colouring exists, on every graph. */
  lemma ClashRefutes<V>(next: map<V, seq<V>>, start: V, m: map<V, Mark>, u: V, v: V)
    requires Closed(next) && next.Keys == m.Keys && AllWalked(next, start, m)
    requires u in m && v in m && m[u].color != Gray && Edge(next, u, v) && Clash(next, m, v, NegColor(m[u].color))
    ensures !TwoColorable(next, start)
  {
    hide Steps;
    var c := NegColor(m[u].color);
    var x :| x in next[v] && x in m && m[x].color == c;
    assert Walked(next, start, u, m[u].color) && Walked(next, start, x, c) && Edge(next, v, x);
    var k: nat :| WalkedIn(next, start, u, m[u].color, k);
    var l: nat :| WalkedIn(next, start, x, c, l);
    StepsNext(next, start, k, u, v);
    StepsNext(next, start, k + 1, v, x);
    forall white: set<V> | white <= next.Keys && TwoColors(next, start, white) ensures false {
      WalkTellsColor(next, start, white, k + 2, x);
      WalkTellsColor(next, start, white, l, x);
    }
  }

  /** No rival but oneself. */
  ghost predicate OnlyLoops<V>(next: map<V, seq<V>>, start: V) {
    start in next && forall v :: v in next[start] ==> v == start
  }

  lemma {:induction false} LoopsStay<V>(next: map<V, seq<V>>, start: V, n: nat, v: V)
    requires OnlyLoops(next, start) && v in Steps(next, start, n)
    ensures v == start
    decreases n
  {
    if n > 0 {
      var u := StepsLast(next, start, n, v);
      LoopsStay(next, start, n - 1, u);
    }
  }

  /** A vertex that is alone with its loop clashes with nothing. */
  lemma LoopsDoNotClash<V>(next: map<V, seq<V>>, start: V, m: map<V, Mark>, u: V, v: V)
    requires AllWalked(next, start, m) && u in m && m[u].color != Gray && Edge(next, u, v)
    requires Clash(next, m, v, NegColor(m[u].color))
    ensures !OnlyLoops(next, start)
  {
    hide Steps;
    var x :| x in next[v] && x in m && m[x].color == NegColor(m[u].color);
    if OnlyLoops(next, start) {
      var k: nat :| WalkedIn(next, start, u, m[u].color, k);
      var l: nat :| WalkedIn(next, start, x, m[x].color, l);
      LoopsStay(next, start, k, u);
      LoopsStay(next, start, l, x);
      assert false;
    }
  }

  /** But no colouring is proper at a loop. */
  lemma LoopRefutes<V>(next: map<V, seq<V>>, start: V)
    requires start in next && start in next[start]
    ensures !TwoColorable(next, start)
  {
    assert start in Steps(next, start, 0);
    assert Reaches(next, start, start) && Edge(next, start, start);
    hide Steps, Reaches;
    forall white: set<V> | white <= next.Keys && TwoColors(next, start, white) ensures false {}
  }

  /** Exactly what start reaches is coloured and passed. */
  ghost predicate Colored<V>(next: map<V, seq<V>>, start: V, m: map<V, Mark>) {
    && next.Keys == m.Keys
    && (forall v :: v in m ==> (m[v].color != Gray <==> Reaches(next, start, v)))
    && (forall v :: v in m ==> (m[v].passed <==> m[v].color != Gray))
  }

  lemma {:induction false} ReachedIsColored<V>(next: map<V, seq<V>>, start: V, m: map<V, Mark>, n: nat, v: V)
    requires Closed(next) && Search(next, start, m, []) && v in Steps(next, start, n)
    ensures v in m && m[v].color != Gray
    decreases n
  {
    if n > 0 {
      var u := StepsLast(next, start, n, v);
      ReachedIsColored(next, start, m, n - 1, u);
      assert v in next by { var i :| 0 <= i < |next[u]| && next[u][i] == v; }
    }
  }

  lemma SearchColors<V>(next: map<V, seq<V>>, start: V, m: map<V, Mark>)
    requires Closed(next) && Search(next, start, m, [])
    ensures Colored(next, start, m) && (TwoColorable(next, start) <==> Proper(next, m))
    ensures Mutual(next) ==> Proper(next, m)
  {
    hide Steps;
    forall v | v in m ensures m[v].color != Gray <==> Reaches(next, start, v) {
      if Reaches(next, start, v) {
        var n: nat :| v in Steps(next, start, n);
        ReachedIsColored(next, start, m, n, v);
      }
    }
    if Proper(next, m) { ColorsProve(next, start, m); }
    if TwoColorable(next, start) { ColorsAgree(next, start, m); }
  }

  /** Where there is a two-colouring at all, the one left behind is proper. */
  lemma ColorsAgree<V>(next: map<V, seq<V>>, start: V, m: map<V, Mark>)
    requires Closed(next) && Search(next, start, m, []) && Colored(next, start, m) && TwoColorable(next, start)
    ensures Proper(next, m)
  {
    hide Steps, Reaches;
    var white :| white <= next.Keys && TwoColors(next, start, white);
    forall u, v | u in m && v in m && m[u].color != Gray && m[v].color != Gray && Edge(next, u, v)
        ensures m[u].color != m[v].color {
      ColorTells(next, start, m, white, u);
      ColorTells(next, start, m, white, v);
    }
  }

  lemma ColorTells<V>(next: map<V, seq<V>>, start: V, m: map<V, Mark>, white: set<V>, v: V)
    requires Closed(next) && start in next && AllWalked(next, start, m) && TwoColors(next, start, white) && v in m
        && m[v].color != Gray
    ensures v in white <==> (start in white <==> m[v].color != Black)
  {
    hide Steps, TwoColors;
    assert Walked(next, start, v, m[v].color);
    var n: nat :| WalkedIn(next, start, v, m[v].color, n);
    WalkTellsColor(next, start, white, n, v);
  }

  /** The colours left behind are a two-colouring. */
  lemma ColorsProve<V>(next: map<V, seq<V>>, start: V, m: map<V, Mark>)
    requires Colored(next, start, m) && Proper(next, m)
    ensures TwoColorable(next, start)
  {
    hide Steps;
    var white := set v | v in m && m[v].color == White;
    forall u, v | u in next && v in next && Reaches(next, start, u) && Edge(next, u, v)
        ensures u in white <==> v !in white {
      var n: nat :| u in Steps(next, start, n);
      StepsNext(next, start, n, u, v);
    }
    assert TwoColors(next, start, white);
  }
}

/** The search that puts vertices back into the queue until they are passed. */
module WrestlerColoring {
  import opened Graphs
  import opened ColoringMarks

  class VertexColoring {
    const name: Name
    var passed: bool
    var color: Color

    constructor (name: Name)
      ensures this.name == name && !passed && color == Gray
    {
      this.name := name;
      passed, color := false, Gray;
    }
  }

  /** Every vertex has a list of neighbours, all of them vertices, and a name of its own. */
  ghost predicate IsGraph(vertices: map<Name, seq<VertexColoring>>, all: set<VertexColoring>) {
    && (forall v :: v in all ==> v.name in vertices)
    && (forall v, i :: v in all && 0 <= i < |vertices[v.name]| ==> vertices[v.name][i] in all)
    && (forall u, v :: u in all && v in all && u.name == v.name ==> u == v)
  }

  ghost function Next(vertices: map<Name, seq<VertexColoring>>,
      all: set<VertexColoring>): map<VertexColoring, seq<VertexColoring>>
    requires IsGraph(vertices, all)
  {
    map v | v in all :: vertices[v.name]
  }

  /** The marks the vertices carry at this moment. */
  ghost function Marks(all: set<VertexColoring>): map<VertexColoring, Mark>
    reads all
  {
    map v | v in all :: Mark(v.color, v.passed)
  }

  /** On every graph the search ends: with False only if what start reaches has no proper
      two-colouring, with True when all of that is coloured. True is right exactly when the
      colouring is proper, and where edges are mutual it is. A start that is its only rival gets True,
      which LoopRefutes shows to be wrong. */
  method BfsColor(vertices: map<Name, seq<VertexColoring>>, start: VertexColoring, ghost all: set<VertexColoring>)
      returns (ok: bool)
    requires IsGraph(vertices, all) && start in all
    requires forall v :: v in all ==> Marks(all)[v] == Mark(Gray, false)
    modifies all
    ensures !ok ==> !TwoColorable(Next(vertices, all), start) && !OnlyLoops(Next(vertices, all), start)
    ensures ok ==> Colored(Next(vertices, all), start, Marks(all))
    ensures ok ==> (TwoColorable(Next(vertices, all), start) <==> Proper(Next(vertices, all), Marks(all)))
    ensures ok && Mutual(Next(vertices, all)) ==> Proper(Next(vertices, all), Marks(all))
  {
    hide *;
    ghost var next := Next(vertices, all);
    Begin(vertices, start, all);
    var que := [start];
    while |que| > 0
      invariant Search(next, start, Marks(all), que)
      decreases Unpassed(Marks(all)), FirstUnpassed(Marks(all), que)
    {
      QueueHead(next, start, Marks(all), que);
      MarkedIsVertex(que[0], all);
      ok, que := Round(vertices, start, que[0], que, all);
      if !ok { return; }
    }
    SearchColors(next, start, Marks(all));
    return true;
  }

  method Begin(vertices: map<Name, seq<VertexColoring>>, start: VertexColoring, ghost all: set<VertexColoring>)
    requires IsGraph(vertices, all) && start in all
    requires forall v :: v in all ==> Marks(all)[v] == Mark(Gray, false)
    modifies start
    ensures Closed(Next(vertices, all)) && Search(Next(vertices, all), start, Marks(all), [start])
  {
    start.color := White;
    hide Search;
    SearchStarts(Next(vertices, all), start, Marks(all));
  }

  lemma MarkedIsVertex(v: VertexColoring, all: set<VertexColoring>)
    requires v in Marks(all)
    ensures v in all
  {}

  lemma Neighbours(vertices: map<Name, seq<VertexColoring>>, u: VertexColoring, all: set<VertexColoring>)
    requires IsGraph(vertices, all) && u in all
    ensures Closed(Next(vertices, all)) && u in Next(vertices, all) && u.name in vertices
    ensures Next(vertices, all)[u] == vertices[u.name] && ColoredUpTo(Marks(all), vertices[u.name], 0)
    ensures forall k :: 0 <= k < |vertices[u.name]| ==> IsVertex(vertices, vertices[u.name][k], all)
  {}

  ghost predicate IsVertex(vertices: map<Name, seq<VertexColoring>>, v: VertexColoring, all: set<VertexColoring>)
    requires IsGraph(vertices, all)
  {
    v in all && v.name in vertices && v in Next(vertices, all) && vertices[v.name] == Next(vertices, all)[v]
  }

  /** The round for the first vertex u of the queue que. */
  method Round(vertices: map<Name, seq<VertexColoring>>, ghost start: VertexColoring, u: VertexColoring,
      que: seq<VertexColoring>, ghost all: set<VertexColoring>)
    returns (ok: bool, rest: seq<VertexColoring>)
    requires IsGraph(vertices, all) && u in all && que != [] && u == que[0]
    requires Search(Next(vertices, all), start, Marks(all), que)
    modifies all
    ensures !ok ==> !TwoColorable(Next(vertices, all), start) && !OnlyLoops(Next(vertices, all), start)
    ensures ok ==> Search(Next(vertices, all), start, Marks(all), rest)
    ensures ok ==> Unpassed(Marks(all)) <= old(Unpassed(Marks(all)))
    ensures ok && Unpassed(Marks(all)) == old(Unpassed(Marks(all))) ==>
        FirstUnpassed(Marks(all), rest) < old(FirstUnpassed(Marks(all), que))
  {
    hide *;
    ghost var next, before, first := Next(vertices, all), Unpassed(Marks(all)), FirstUnpassed(Marks(all), que);
    Neighbours(vertices, u, all);
    rest := que[1..];
    var adj := vertices[u.name];
    QueueHead(next, start, Marks(all), que);
    if u !in before { PopCounts(Marks(all), que); }
    var i := 0;
    while i < |adj|
      invariant 0 <= i <= |adj|
      invariant Search(next, start, Marks(all), [u] + rest) && ColoredUpTo(Marks(all), adj, i)
      invariant Unpassed(Marks(all)) == before
      invariant u !in before ==> FirstUnpassed(Marks(all), rest) < first
    {
      ok, rest := Inspect(vertices, next, start, u, adj, i, rest, all);
      if !ok { return; }
      i := i + 1;
    }
    FinishStep(next, start, Marks(all), u, rest);
    Pass(u, all);
    return true, rest;
  }

  /** The look at the neighbour number i of u. */
  method Inspect(vertices: map<Name, seq<VertexColoring>>, ghost next: map<VertexColoring, seq<VertexColoring>>,
      ghost start: VertexColoring, u: VertexColoring, adj: seq<VertexColoring>, i: nat, que: seq<VertexColoring>,
      ghost all: set<VertexColoring>)
    returns (ok: bool, rest: seq<VertexColoring>)
    requires IsGraph(vertices, all) && next == Next(vertices, all) && Closed(next)
    requires u in all && u in next && next[u] == adj && i < |adj| && IsVertex(vertices, adj[i], all)
    requires Search(next, start, Marks(all), [u] + que) && ColoredUpTo(Marks(all), adj, i)
    modifies all
    ensures !ok ==> !TwoColorable(next, start) && !OnlyLoops(next, start)
    ensures ok ==> Search(next, start, Marks(all), [u] + rest) && ColoredUpTo(Marks(all), adj, i + 1)
    ensures Unpassed(Marks(all)) == old(Unpassed(Marks(all)))
    ensures ok && u !in Unpassed(Marks(all)) ==> FirstUnpassed(Marks(all), rest) == old(FirstUnpassed(Marks(all), que))
  {
    var v := adj[i];
    ghost var m := Marks(all);
    assert m.Keys == all == next.Keys && AllWalked(next, start, m);
    assert Edge(next, u, v) && m[u] == Mark(u.color, u.passed) && m[v] == Mark(v.color, v.passed);
    assert u !in Unpassed(m) <==> u.passed;
    QueueHead(next, start, m, [u] + que);
    hide *;
    if v.passed {
      SkipStep(next, start, m, [u] + que, adj, i);
      return true, que;
    }
    var c := NegColor(u.color);
    var clash := HasColor(vertices[v.name], c, next, v, all);
    if clash {
      ClashRefutes(next, start, m, u, v);
      LoopsDoNotClash(next, start, m, u, v);
      return false, que;
    }
    PaintStep(next, start, m, u, que, adj, i);
    Paint(v, c, all);
    return true, que + [v];
  }

  /** Whether c is among the colours of the neighbours vs of v. */
  method HasColor(vs: seq<VertexColoring>, c: Color, ghost next: map<VertexColoring, seq<VertexColoring>>,
      ghost v: VertexColoring, ghost all: set<VertexColoring>)
    returns (found: bool)
    requires v in next && next[v] == vs && Closed(next) && next.Keys == all
    ensures found <==> Clash(next, Marks(all), v, c)
  {
    var i := 0;
    while i < |vs|
      invariant 0 <= i <= |vs|
      invariant forall k :: 0 <= k < i ==> vs[k].color != c
    {
      if vs[i].color == c {
        assert vs[i] in next[v] && vs[i] in Marks(all) && Marks(all)[vs[i]].color == c;
        return true;
      }
      i := i + 1;
    }
    return false;
  }

  method Paint(v: VertexColoring, c: Color, ghost all: set<VertexColoring>)
    requires v in all
    modifies v
    ensures v in old(Marks(all)) && Marks(all) == Painted(old(Marks(all)), v, c)
  {
    v.color := c;
  }

  method Pass(u: VertexColoring, ghost all: set<VertexColoring>)
    requires u in all
    modifies u
    ensures u in old(Marks(all)) && Marks(all) == Finished(old(Marks(all)), u)
  {
    u.passed := true;
  }
}
