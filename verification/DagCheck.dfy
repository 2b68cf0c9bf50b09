/** What a depth-first search keeps while it runs, on the marks of the vertices as values. The
    stack holds the vertices whose visit has begun and not ended. */
module DepthFirstMarks {
  import opened Options
  import opened Graphs
  import Sorting

  datatype Mark<V> = Mark(color: Color, discovery: int, finish: int, path: Option<V>)

  ghost predicate Stacked<V>(next: map<V, seq<V>>, m: map<V, Mark<V>>, stack: seq<V>) {
    && (forall v :: v in m && m[v].color == Gray ==> v in stack)
    && (forall i :: 0 <= i < |stack| ==> stack[i] in m && m[stack[i]].color == Gray)
    && (forall i, j :: 0 <= i < j < |stack| ==> stack[i] != stack[j])
    && (forall i, j :: 0 <= i < j < |stack| && j == i + 1 ==> Edge(next, stack[i], stack[j]))
  }

  ghost predicate Timed<V>(m: map<V, Mark<V>>, time: int) {
    && 0 <= time
    && (forall v :: v in m && m[v].color == Gray ==> 1 <= m[v].discovery <= time)
    && (forall v :: v in m && m[v].color == Black ==> 1 <= m[v].discovery < m[v].finish <= time)
  }

  /** What a black vertex points to is black and was finished before it. */
  ghost predicate Done<V>(next: map<V, seq<V>>, m: map<V, Mark<V>>) {
    forall u, v :: u in m && v in m && m[u].color == Black && Edge(next, u, v) ==>
        m[v].color == Black && m[v].finish < m[u].finish
  }

  /** The path pointer of a visited vertex leads back along an edge to a vertex discovered before. */
  ghost predicate Linked<V>(next: map<V, seq<V>>, m: map<V, Mark<V>>) {
    forall v :: v in m && m[v].color != White && m[v].path.Some? ==> StepsBack(next, m, v, m[v].path.value)
  }

  ghost predicate StepsBack<V>(next: map<V, seq<V>>, m: map<V, Mark<V>>, v: V, p: V)
    requires v in m
  {
    p in m && m[p].color != White && Edge(next, p, v) && m[p].discovery < m[v].discovery
  }

  ghost predicate Search<V>(next: map<V, seq<V>>, m: map<V, Mark<V>>, time: int, stack: seq<V>) {
    next.Keys == m.Keys && Stacked(next, m, stack) && Timed(m, time) && Done(next, m) && Linked(next, m)
  }

  /** The vertices that changed were white and are black now. */
  ghost predicate Grows<V>(m: map<V, Mark<V>>, n: map<V, Mark<V>>) {
    m.Keys == n.Keys && forall v :: v in m ==> n[v] == m[v] || (m[v].color == White && n[v].color == Black)
  }

  ghost function Whites<V>(m: map<V, Mark<V>>): set<V> {
    set v | v in m && m[v].color == White
  }

  function Discovered<V>(m: map<V, Mark<V>>, u: V, t: int): map<V, Mark<V>>
    requires u in m
  {
    m[u := m[u].(color := Gray, discovery := t)]
  }

  function Finished<V>(m: map<V, Mark<V>>, u: V, t: int): map<V, Mark<V>>
    requires u in m
  {
    m[u := m[u].(color := Black, finish := t)]
  }

  function Reached<V>(m: map<V, Mark<V>>, u: V, v: V): map<V, Mark<V>>
    requires v in m
  {
    m[v := m[v].(path := Some(u))]
  }

  /** A white vertex may be visited next: the top of the stack leads to it. */
  ghost predicate Next<V>(next: map<V, seq<V>>, m: map<V, Mark<V>>, stack: seq<V>, u: V) {
    && u in m && m[u].color == White
    && (stack != [] ==> Edge(next, stack[|stack| - 1], u))
    && (m[u].path.Some? ==> stack != [] && m[u].path.value == stack[|stack| - 1])
  }

  lemma DiscoverKeeps<V>(next: map<V, seq<V>>, m: map<V, Mark<V>>, time: int, stack: seq<V>, u: V)
    requires Search(next, m, time, stack) && Next(next, m, stack, u)
    ensures u in m && m[u].color == White && Search(next, Discovered(m, u, time + 1), time + 1, stack + [u])
    ensures Whites(Discovered(m, u, time + 1)) < Whites(m)
  {
    var n := Discovered(m, u, time + 1);
    assert Stacked(next, n, stack + [u]) by { hide Timed, Done, Linked, Edge; }
    assert Timed(n, time + 1) && Done(next, n);
    assert u !in Whites(n) && u in Whites(m);
    forall v | v in n && n[v].color != White && n[v].path.Some? ensures StepsBack(next, n, v, n[v].path.value) {
      if v != u { assert StepsBack(next, m, v, m[v].path.value); }
    }
  }

  lemma ReachKeeps<V>(next: map<V, seq<V>>, m: map<V, Mark<V>>, time: int, stack: seq<V>, v: V)
    requires Search(next, m, time, stack) && stack != [] && v in m && m[v].color == White
        && Edge(next, stack[|stack| - 1], v)
    ensures Search(next, Reached(m, stack[|stack| - 1], v), time, stack)
    ensures Next(next, Reached(m, stack[|stack| - 1], v), stack, v)
    ensures Whites(Reached(m, stack[|stack| - 1], v)) == Whites(m)
  {}

  lemma FinishKeeps<V>(next: map<V, seq<V>>, m: map<V, Mark<V>>, time: int, stack: seq<V>, u: V)
    requires Search(next, m, time, stack + [u]) && forall v :: v in m && Edge(next, u, v) ==> m[v].color == Black
    ensures u in m && Search(next, Finished(m, u, time + 1), time + 1, stack)
  {
    assert (stack + [u])[|stack|] == u;
    var n := Finished(m, u, time + 1);
    assert Stacked(next, n, stack) by {
      hide Timed, Done, Linked;
      assert forall i :: 0 <= i < |stack| ==> stack[i] == (stack + [u])[i];
    }
    assert Timed(n, time + 1) && Done(next, n);
    forall x | x in n && n[x].color != White && n[x].path.Some? ensures StepsBack(next, n, x, n[x].path.value) {
      assert StepsBack(next, m, x, m[x].path.value);
    }
  }

  lemma {:induction false} StackWalk<V>(next: map<V, seq<V>>, m: map<V, Mark<V>>, stack: seq<V>, i: nat, j: nat)
    requires Stacked(next, m, stack) && i <= j < |stack|
    ensures stack[j] in Steps(next, stack[i], j - i)
    decreases j
  {
    if i < j {
      StackWalk(next, m, stack, i, j - 1);
      StepsNext(next, stack[i], j - 1 - i, stack[j - 1], stack[j]);
    }
  }

  // ----- cycles -----

  /** Some vertex that s reaches lies on a cycle. */
  ghost predicate LeadsToCycle<V>(next: map<V, seq<V>>, s: V) {
    exists v :: v in next && Reaches(next, s, v) && OnCycle(next, v)
  }

  /** An edge from the top of the stack to a grey vertex closes a cycle. */
  lemma BackEdge<V>(next: map<V, seq<V>>, m: map<V, Mark<V>>, time: int, stack: seq<V>, u: V, v: V)
    requires Search(next, m, time, stack + [u]) && v in m && m[v].color == Gray && Edge(next, u, v)
    ensures LeadsToCycle(next, u)
  {
    hide Steps;
    var s := stack + [u];
    var i :| 0 <= i < |s| && s[i] == v;
    StackWalk(next, m, s, i, |s| - 1);
    StepsNext(next, v, |s| - 1 - i, u, v);
    StepsZero(next, u);
    StepsNext(next, u, 0, u, v);
  }

  lemma StepsZero<V>(next: map<V, seq<V>>, u: V)
    ensures u in Steps(next, u, 0)
  {}

  lemma CycleAhead<V>(next: map<V, seq<V>>, u: V, v: V)
    requires Edge(next, u, v) && LeadsToCycle(next, v)
    ensures LeadsToCycle(next, u)
  {
    hide Steps;
    var x :| x in next && Reaches(next, v, x) && OnCycle(next, x);
    var n: nat :| x in Steps(next, v, n);
    StepsZero(next, u);
    StepsNext(next, u, 0, u, v);
    StepsCompose(next, u, v, x, 1, n);
  }

  /** Walks from a black vertex lead to black vertices finished earlier. */
  lemma {:induction false} FinishFalls<V>(next: map<V, seq<V>>, m: map<V, Mark<V>>, s: V, n: nat, v: V)
    requires Closed(next) && next.Keys == m.Keys && Done(next, m) && s in m && m[s].color == Black
        && v in Steps(next, s, n)
    ensures v in m && m[v].color == Black && m[v].finish <= m[s].finish && (n > 0 ==> m[v].finish < m[s].finish)
    decreases n
  {
    if n > 0 {
      var u := StepsLast(next, s, n, v);
      FinishFalls(next, m, s, n - 1, u);
      assert v in next by { var i :| 0 <= i < |next[u]| && next[u][i] == v; }
    }
  }

  lemma BlackIsAcyclic<V>(next: map<V, seq<V>>, m: map<V, Mark<V>>, s: V)
    requires Closed(next) && next.Keys == m.Keys && Done(next, m) && s in m && m[s].color == Black
    ensures !LeadsToCycle(next, s)
  {
    hide Steps, Done;
    forall v | v in next && Reaches(next, s, v) && OnCycle(next, v) ensures false {
      var k: nat :| v in Steps(next, s, k);
      FinishFalls(next, m, s, k, v);
      var n: nat :| n > 0 && v in Steps(next, v, n);
      FinishFalls(next, m, v, n, v);
    }
  }

  /** When the vertices vs are all there are, none leads to a cycle exactly when there is none. */
  lemma NoCycleAtAll<V>(next: map<V, seq<V>>, vs: seq<V>)
    requires forall v :: v in next <==> v in vs
    ensures (forall i :: 0 <= i < |vs| ==> !LeadsToCycle(next, vs[i])) <==>
        (forall v :: v in next ==> !OnCycle(next, v))
  {}

  // ----- the topological order -----

  /** The head of every edge comes before its tail. */
  ghost predicate HeadsFirst<V>(next: map<V, seq<V>>, vs: seq<V>) {
    forall i, j :: 0 <= i < |vs| && 0 <= j < |vs| && Edge(next, vs[i], vs[j]) ==> j < i
  }

  lemma FinishIsOrder<V>(next: map<V, seq<V>>, m: map<V, Mark<V>>, time: int, vs: seq<V>, key: map<V, int>)
    requires Search(next, m, time, []) && BlackUpTo(m, vs, |vs|)
    requires forall i :: 0 <= i < |vs| ==> vs[i] in key && key[vs[i]] == m[vs[i]].finish
    ensures HeadsFirst(next, Sorting.Sorted(key, vs))
  {
    var r := Sorting.Sorted(key, vs);
    SameMembers(r, vs);
    forall i, j | 0 <= i < |r| && 0 <= j < |r| && Edge(next, r[i], r[j]) ensures j < i {
      assert r[i] in vs && r[j] in vs;
      assert key[r[j]] < key[r[i]];
    }
  }

  lemma SameMembers<T>(xs: seq<T>, ys: seq<T>)
    requires multiset(xs) == multiset(ys)
    ensures forall i :: 0 <= i < |xs| ==> xs[i] in ys
  {
    forall i | 0 <= i < |xs| ensures xs[i] in ys {
      assert xs[i] in multiset(xs);
      assert xs[i] in multiset(ys);
    }
  }

  // ----- one visit -----

  predicate BlackUpTo<V>(m: map<V, Mark<V>>, vs: seq<V>, i: nat) {
    i <= |vs| && forall k :: 0 <= k < i ==> vs[k] in m && m[vs[k]].color == Black
  }

  lemma FinishStep<V>(next: map<V, seq<V>>, m: map<V, Mark<V>>, time: int, stack: seq<V>, u: V)
    requires Search(next, m, time, stack + [u]) && u in next && BlackUpTo(m, next[u], |next[u]|)
    ensures u in m && Search(next, Finished(m, u, time + 1), time + 1, stack)
  {
    forall v | v in m && Edge(next, u, v) ensures m[v].color == Black {
      var k :| 0 <= k < |next[u]| && next[u][k] == v;
    }
    hide Search;
    FinishKeeps(next, m, time, stack, u);
  }

  lemma LookGrows<V>(m: map<V, Mark<V>>, u: V, vs: seq<V>, i: nat, n: map<V, Mark<V>>)
    requires i < |vs| && BlackUpTo(m, vs, i) && vs[i] in m && m[vs[i]].color == White
    requires Grows(Reached(m, u, vs[i]), n) && vs[i] in n && n[vs[i]].color == Black
    ensures Grows(m, n) && BlackUpTo(n, vs, i + 1)
  {}

  lemma SearchBegins<V>(next: map<V, seq<V>>, m: map<V, Mark<V>>, time: int, vs: seq<V>)
    requires next.Keys == m.Keys && time >= 0 && forall v :: v in m ==> m[v] == Mark(White, 0, 0, None)
    ensures Search(next, m, time, []) && BlackUpTo(m, vs, 0) && Grows(m, m)
    ensures forall v :: v in m ==> m[v].color == White && m[v].path == None
  {}

  lemma SkipStep<V>(m: map<V, Mark<V>>, vs: seq<V>, i: nat)
    requires i < |vs| && BlackUpTo(m, vs, i) && vs[i] in m && m[vs[i]].color == Black
    ensures BlackUpTo(m, vs, i + 1)
  {}

  lemma GrowsSelf<V>(m: map<V, Mark<V>>)
    ensures Grows(m, m)
  {}

  lemma GrowsTrans<V>(m: map<V, Mark<V>>, n: map<V, Mark<V>>, o: map<V, Mark<V>>)
    requires Grows(m, n) && Grows(n, o)
    ensures Grows(m, o) && Whites(o) <= Whites(n)
  {}

  lemma GrowsOn<V>(m: map<V, Mark<V>>, n: map<V, Mark<V>>, vs: seq<V>, i: nat)
    requires Grows(m, n) && BlackUpTo(m, vs, i)
    ensures BlackUpTo(n, vs, i)
  {}

  /** With an empty stack a vertex is white as it was in the beginning, or black. */
  lemma RootStep<V>(next: map<V, seq<V>>, m0: map<V, Mark<V>>, m: map<V, Mark<V>>, time: int, vs: seq<V>, i: nat)
    requires Search(next, m, time, []) && Grows(m0, m) && i < |vs| && vs[i] in m
    requires m0[vs[i]].color == White && m0[vs[i]].path == None
    ensures m[vs[i]].color == Black || Next(next, m, [], vs[i])
  {}

  lemma AllAcyclic<V>(next: map<V, seq<V>>, m: map<V, Mark<V>>, time: int, vs: seq<V>)
    requires Closed(next) && Search(next, m, time, []) && BlackUpTo(m, vs, |vs|)
    ensures forall i :: 0 <= i < |vs| ==> !LeadsToCycle(next, vs[i])
  {
    forall i | 0 <= i < |vs| ensures !LeadsToCycle(next, vs[i]) {
      BlackIsAcyclic(next, m, vs[i]);
    }
  }

  /** Over a whole visit the vertex itself turns black. */
  lemma VisitGrows<V>(m: map<V, Mark<V>>, u: V, t: int, n: map<V, Mark<V>>, s: int)
    requires u in m && m[u].color == White && Grows(Discovered(m, u, t), n)
    ensures u in n && Grows(m, Finished(n, u, s)) && Finished(n, u, s)[u].color == Black
  {}
}

/** The depth-first check for cycles, and the topological order that its finish times give. */
module DagCheck {
  import opened Options
  import opened Graphs
  import opened DepthFirstMarks
  import Sorting

  class VertexDFS {
    const name: Name
    var path: VertexDFS?
    var color: Color
    var discovery_t: int
    var finish_t: int

    constructor (name: Name)
      ensures this.name == name && path == null && color == White && discovery_t == 0 && finish_t == 0
    {
      this.name := name;
      path, color, discovery_t, finish_t := null, White, 0, 0;
    }
  }

  /** Every list of successors holds vertices, and every vertex has a name of its own. */
  ghost predicate IsGraph(vertices: map<Name, seq<VertexDFS>>, all: set<VertexDFS>) {
    && (forall v, i :: v in all && v.name in vertices && 0 <= i < |vertices[v.name]| ==> vertices[v.name][i] in all)
    && (forall u, v :: u in all && v in all && u.name == v.name ==> u == v)
  }

  ghost function Successors(vertices: map<Name, seq<VertexDFS>>, all: set<VertexDFS>): map<VertexDFS, seq<VertexDFS>>
    requires IsGraph(vertices, all)
  {
    map v | v in all :: if v.name in vertices then vertices[v.name] else []
  }

  ghost function Carried(v: VertexDFS): Mark<VertexDFS>
    reads v
  {
    var path: Option<VertexDFS> := if v.path == null then None else Some(v.path);
    Mark(v.color, v.discovery_t, v.finish_t, path)
  }

  /** The marks the vertices carry at this moment. */
  ghost function Marks(all: set<VertexDFS>): map<VertexDFS, Mark<VertexDFS>>
    reads all
  {
    map v | v in all :: Carried(v)
  }

  lemma MarkInMarks(v: VertexDFS, all: set<VertexDFS>)
    requires v in all
    ensures v in Marks(all) && Marks(all)[v] == Carried(v) && Carried(v).color == v.color
  {}

  lemma AllMarked(vertices: map<Name, seq<VertexDFS>>, u: VertexDFS, all: set<VertexDFS>)
    requires IsGraph(vertices, all) && u in all
    ensures Closed(Successors(vertices, all)) && u in Successors(vertices, all)
    ensures Successors(vertices, all)[u] == if u.name in vertices then vertices[u.name] else []
    ensures BlackUpTo(Marks(all), Successors(vertices, all)[u], 0)
    ensures forall k :: 0 <= k < |Successors(vertices, all)[u]| ==>
        IsSuccessor(vertices, u, Successors(vertices, all)[u][k], all)
  {}

  ghost predicate IsSuccessor(vertices: map<Name, seq<VertexDFS>>, u: VertexDFS, v: VertexDFS, all: set<VertexDFS>)
    requires IsGraph(vertices, all)
  {
    v in all && Edge(Successors(vertices, all), u, v)
  }

  /** The search and its clock. */
  class DepthFirst {
    const vertices: map<Name, seq<VertexDFS>>
    var time: int

    constructor (vertices: map<Name, seq<VertexDFS>>)
      ensures this.vertices == vertices && time == 0
    {
      this.vertices := vertices;
      time := 0;
    }

    /** Visits the white vertex u; false when u leads to a cycle. */
    method DfsVisit(u: VertexDFS, ghost stack: seq<VertexDFS>, ghost all: set<VertexDFS>) returns (ok: bool)
      requires IsGraph(vertices, all) && u in all
      requires Search(Successors(vertices, all), Marks(all), time, stack)
          && Next(Successors(vertices, all), Marks(all), stack, u)
      modifies `time, all
      ensures !ok ==> LeadsToCycle(Successors(vertices, all), u)
      ensures ok ==> Search(Successors(vertices, all), Marks(all), time, stack)
      ensures ok ==> Grows(old(Marks(all)), Marks(all)) && u in Marks(all) && Marks(all)[u].color == Black
      decreases Whites(Marks(all)), 0
    {
      hide *;
      ghost var next, m0 := Successors(vertices, all), Marks(all);
      DiscoverKeeps(next, m0, time, stack, u);
      Discover(u, all);
      ghost var m1, t1 := Marks(all), time;
      GrowsSelf(m1);
      AllMarked(vertices, u, all);
      if u.name in vertices {
        var adj := vertices[u.name];
        var i := 0;
        while i < |adj|
          invariant 0 <= i <= |adj|
          invariant Search(next, Marks(all), time, stack + [u]) && BlackUpTo(Marks(all), adj, i)
          invariant Grows(m1, Marks(all)) && Whites(Marks(all)) <= Whites(m1)
        {
          ghost var m := Marks(all);
          ok := Look(u, adj, i, stack, all);
          if !ok { return; }
          GrowsTrans(m1, m, Marks(all));
          i := i + 1;
        }
      }
      FinishStep(next, Marks(all), time, stack, u);
      VisitGrows(m0, u, t1, Marks(all), time + 1);
      Finish(u, all);
      return true;
    }

    /** The look at the successor number i of u. */
    method Look(u: VertexDFS, adj: seq<VertexDFS>, i: nat, ghost stack: seq<VertexDFS>, ghost all: set<VertexDFS>)
        returns (ok: bool)
      requires IsGraph(vertices, all) && u in all && i < |adj| && IsSuccessor(vertices, u, adj[i], all)
      requires Search(Successors(vertices, all), Marks(all), time, stack + [u]) && BlackUpTo(Marks(all), adj, i)
      modifies `time, all
      ensures !ok ==> LeadsToCycle(Successors(vertices, all), u)
      ensures ok ==> Search(Successors(vertices, all), Marks(all), time, stack + [u])
      ensures ok ==> BlackUpTo(Marks(all), adj, i + 1) && Grows(old(Marks(all)), Marks(all))
      decreases Whites(Marks(all)), 1
    {
      ghost var next, m := Successors(vertices, all), Marks(all);
      var v := adj[i];
      assert v in all && Edge(next, u, v);
      hide *;
      assert (stack + [u])[|stack + [u]| - 1] == u;
      MarkInMarks(v, all);
      if v.color == Gray {
        BackEdge(next, m, time, stack, u, v);
        return false;
      }
      if v.color == White {
        ReachKeeps(next, m, time, stack + [u], v);
        Link(u, v, all);
        ok := DfsVisit(v, stack + [u], all);
        if ok {
          LookGrows(m, u, adj, i, Marks(all));
        } else {
          CycleAhead(next, u, v);
        }
        return;
      }
      SkipStep(m, adj, i);
      GrowsSelf(m);
      return true;
    }

    method Discover(u: VertexDFS, ghost all: set<VertexDFS>)
      requires u in all
      modifies `time, u
      ensures time == old(time) + 1
      ensures u in old(Marks(all)) && Marks(all) == Discovered(old(Marks(all)), u, time)
    {
      time := time + 1;
      u.discovery_t := time;
      u.color := Gray;
    }

    method Finish(u: VertexDFS, ghost all: set<VertexDFS>)
      requires u in all
      modifies `time, u
      ensures time == old(time) + 1
      ensures u in old(Marks(all)) && Marks(all) == Finished(old(Marks(all)), u, time)
    {
      time := time + 1;
      u.finish_t := time;
      u.color := Black;
    }

    method Link(u: VertexDFS, v: VertexDFS, ghost all: set<VertexDFS>)
      requires v in all
      modifies v
      ensures v in old(Marks(all)) && Marks(all) == Reached(old(Marks(all)), u, v)
    {
      v.path := u;
    }

    /** Visits the nodes in the order given; true exactly when none leads to a cycle. */
    method DfsCheckDag(nodes: seq<VertexDFS>, ghost all: set<VertexDFS>) returns (ok: bool)
      requires IsGraph(vertices, all) && time >= 0 && forall i :: 0 <= i < |nodes| ==> nodes[i] in all
      requires forall v :: v in all ==> Marks(all)[v] == Mark(White, 0, 0, None)
      modifies `time, all
      ensures ok <==> forall i :: 0 <= i < |nodes| ==> !LeadsToCycle(Successors(vertices, all), nodes[i])
      ensures ok ==> Search(Successors(vertices, all), Marks(all), time, []) && BlackUpTo(Marks(all), nodes, |nodes|)
    {
      ghost var next, m0 := Successors(vertices, all), Marks(all);
      SearchBegins(next, m0, time, nodes);
      assert Closed(next);
      hide *;
      var i := 0;
      while i < |nodes|
        invariant 0 <= i <= |nodes|
        invariant Search(next, Marks(all), time, []) && BlackUpTo(Marks(all), nodes, i)
        invariant Grows(m0, Marks(all))
      {
        ghost var m := Marks(all);
        MarkInMarks(nodes[i], all);
        RootStep(next, m0, m, time, nodes, i);
        if nodes[i].color == White {
          ok := DfsVisit(nodes[i], [], all);
          if !ok { return; }
          GrowsTrans(m0, m, Marks(all));
          GrowsOn(m, Marks(all), nodes, i);
        }
        SkipStep(Marks(all), nodes, i);
        i := i + 1;
      }
      AllAcyclic(next, Marks(all), time, nodes);
      return true;
    }

    /** The nodes by finish time: every edge between them leads to an earlier one. */
    method TopoSort(byName: seq<VertexDFS>, nodes: seq<VertexDFS>, ghost all: set<VertexDFS>)
        returns (sorted: Option<seq<VertexDFS>>)
      requires IsGraph(vertices, all) && time >= 0 && multiset(byName) == multiset(nodes)
          && forall i :: 0 <= i < |nodes| ==> nodes[i] in all
      requires forall v :: v in all ==> Marks(all)[v] == Mark(White, 0, 0, None)
      modifies `time, all
      ensures sorted == None <==> exists i :: 0 <= i < |nodes| && LeadsToCycle(Successors(vertices, all), nodes[i])
      ensures sorted.Some? ==>
          multiset(sorted.value) == multiset(nodes) && HeadsFirst(Successors(vertices, all), sorted.value)
    {
      ghost var next := Successors(vertices, all);
      SameMembers(byName, nodes);
      SameMembers(nodes, byName);
      hide LeadsToCycle, Search;
      var dag := DfsCheckDag(byName, all);
      if !dag { return None; }
      ghost var m := Marks(all);
      var key := map v | v in nodes :: v.finish_t;
      FinishIsOrder(next, m, time, nodes, key);
      return Some(Sorting.Sorted(key, nodes));
    }
  }
}
