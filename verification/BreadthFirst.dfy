/** What a breadth-first search keeps while it runs, on the marks of the vertices as values. */
module BreadthFirstMarks {
  import opened Options
  import opened Graphs

  datatype Distance = Infinite | Finite(d: nat)

  datatype Mark<V> = Mark(color: Color, distance: Distance, path: Option<V>)

  /** v is white and untouched, or was found: its distance is the length of a walk, whose last
      edge is the one from path. */
  ghost predicate Sound<V>(next: map<V, seq<V>>, start: V, m: map<V, Mark<V>>, v: V)
    requires v in m
  {
    if m[v].color == White then m[v] == Mark(White, Infinite, None)
    else
      && m[v].distance.Finite?
      && v in Steps(next, start, m[v].distance.d)
      && (v == start ==> m[v].distance.d == 0 && m[v].path == None)
      && (v != start ==> StepsBack(next, m, v))
  }

  /** The path pointer leads along an edge to a vertex one step nearer. */
  ghost predicate StepsBack<V>(next: map<V, seq<V>>, m: map<V, Mark<V>>, v: V)
    requires v in m && m[v].distance.Finite?
  {
    && m[v].path.Some? && m[v].path.value in m && Edge(next, m[v].path.value, v)
    && m[m[v].path.value].distance.Finite? && m[v].distance.d == m[m[v].path.value].distance.d + 1
  }

  /** The edge from u to v is settled: v was found, and not too late. */
  predicate Settled<V>(m: map<V, Mark<V>>, u: V, v: V)
    requires u in m && v in m
  {
    m[v].color != White && m[u].distance.Finite? && m[v].distance.Finite? && m[v].distance.d <= m[u].distance.d + 1
  }

  ghost predicate AllSound<V>(next: map<V, seq<V>>, start: V, m: map<V, Mark<V>>) {
    && start in m && m[start].color != White
    && forall v :: v in m ==> Sound(next, start, m, v)
  }

  /** The successors of black vertices are settled. */
  ghost predicate Expanded<V>(next: map<V, seq<V>>, m: map<V, Mark<V>>) {
    forall u, v :: u in m && v in m && m[u].color == Black && Edge(next, u, v) ==> Settled(m, u, v)
  }

  /** The grey vertices are those in the queue q, each once. */
  ghost predicate Queued<V>(m: map<V, Mark<V>>, q: seq<V>) {
    && (forall v :: v in m && m[v].color == Gray ==> v in q)
    && (forall i :: 0 <= i < |q| ==> q[i] in m && m[q[i]].color == Gray)
    && (forall i, j :: 0 <= i < j < |q| ==> q[i] != q[j])
  }

  function Depth<V>(m: map<V, Mark<V>>, v: V): nat {
    if v in m && m[v].distance.Finite? then m[v].distance.d else 0
  }

  /** The queue is in order of distance and within one of its first; black vertices are no
      farther than the first. */
  ghost predicate Ordered<V>(m: map<V, Mark<V>>, q: seq<V>) {
    && (forall i, j :: 0 <= i < j < |q| ==> Depth(m, q[i]) <= Depth(m, q[j]))
    && (forall j :: 0 <= j < |q| ==> Depth(m, q[j]) <= Depth(m, q[0]) + 1)
    && (q != [] ==> forall v :: v in m && m[v].color == Black ==> Depth(m, v) <= Depth(m, q[0]))
  }

  ghost predicate Search<V>(next: map<V, seq<V>>, start: V, m: map<V, Mark<V>>, q: seq<V>) {
    next.Keys == m.Keys && AllSound(next, start, m) && Expanded(next, m) && Queued(m, q) && Ordered(m, q)
  }

  function Discovered<V>(m: map<V, Mark<V>>, u: V, v: V): map<V, Mark<V>>
    requires u in m && m[u].distance.Finite?
  {
    m[v := Mark(Gray, Finite(m[u].distance.d + 1), Some(u))]
  }

  function Finished<V>(m: map<V, Mark<V>>, u: V): map<V, Mark<V>>
    requires u in m
  {
    m[u := m[u].(color := Black)]
  }

  lemma QueueHead<V>(next: map<V, seq<V>>, start: V, m: map<V, Mark<V>>, q: seq<V>)
    requires Search(next, start, m, q) && q != []
    ensures q[0] in m && m[q[0]].color == Gray && q == [q[0]] + q[1..]
  {}

  /** Giving a white successor of the first vertex of the queue its marks keeps the search. */
  lemma DiscoverKeeps<V>(next: map<V, seq<V>>, start: V, m: map<V, Mark<V>>, q: seq<V>, v: V)
    requires Search(next, start, m, q) && q != [] && v in m && m[v].color == White && Edge(next, q[0], v)
    ensures m[q[0]].distance.Finite?
    ensures Search(next, start, Discovered(m, q[0], v), q + [v])
    ensures Settled(Discovered(m, q[0], v), q[0], v)
  {
    QueueHead(next, start, m, q);
    hide Steps, Sound, Expanded, Queued, Ordered;
    DiscoverSound(next, start, m, q[0], v);
    DiscoverExpands(next, m, q[0], v);
    DiscoverQueues(m, q, v);
  }

  lemma DiscoverExpands<V>(next: map<V, seq<V>>, m: map<V, Mark<V>>, u: V, v: V)
    requires Expanded(next, m) && u in m && v in m && m[u].distance.Finite? && m[v].color == White
    ensures Expanded(next, Discovered(m, u, v))
  {
    var w := Discovered(m, u, v);
    forall a, b | a in w && b in w && w[a].color == Black && Edge(next, a, b) ensures Settled(w, a, b) {
      assert Settled(m, a, b);
    }
  }

  lemma DiscoverSound<V>(next: map<V, seq<V>>, start: V, m: map<V, Mark<V>>, u: V, v: V)
    requires AllSound(next, start, m) && u in m && v in m && m[u].color == Gray && m[v].color == White
        && Edge(next, u, v)
    ensures m[u].distance.Finite? && AllSound(next, start, Discovered(m, u, v))
  {}

  lemma DiscoverQueues<V>(m: map<V, Mark<V>>, q: seq<V>, v: V)
    requires Queued(m, q) && Ordered(m, q) && q != [] && v in m && m[v].color == White && m[q[0]].distance.Finite?
    ensures Queued(Discovered(m, q[0], v), q + [v]) && Ordered(Discovered(m, q[0], v), q + [v])
  {
    DiscoverQueued(m, q, v);
    DiscoverOrdered(m, q, v);
    hide *;
  }

  lemma DiscoverQueued<V>(m: map<V, Mark<V>>, q: seq<V>, v: V)
    requires Queued(m, q) && q != [] && q[0] in m && v in m && m[v].color == White && m[q[0]].distance.Finite?
    ensures Queued(Discovered(m, q[0], v), q + [v])
  {}

  lemma DiscoverOrdered<V>(m: map<V, Mark<V>>, q: seq<V>, v: V)
    requires Queued(m, q) && Ordered(m, q) && q != [] && v in m && m[v].color == White && m[q[0]].distance.Finite?
    ensures Ordered(Discovered(m, q[0], v), q + [v])
  {
    var w := Discovered(m, q[0], v);
    forall x ensures Depth(w, x) == if x == v then Depth(m, q[0]) + 1 else Depth(m, x) {}
    assert v !in q;
    hide Depth;
  }

  /** Turning the first vertex black once its successors are settled keeps the search. */
  lemma FinishKeeps<V>(next: map<V, seq<V>>, start: V, m: map<V, Mark<V>>, q: seq<V>)
    requires Search(next, start, m, q) && q != []
    requires forall v :: v in m && Edge(next, q[0], v) ==> Settled(m, q[0], v)
    ensures Search(next, start, Finished(m, q[0]), q[1..])
  {
    QueueHead(next, start, m, q);
    hide Steps, Sound, Expanded, Queued, Ordered;
    FinishSound(next, start, m, q[0]);
    FinishExpands(next, m, q[0]);
    FinishQueues(m, q);
  }

  lemma FinishExpands<V>(next: map<V, seq<V>>, m: map<V, Mark<V>>, u: V)
    requires Expanded(next, m) && u in m && forall v :: v in m && Edge(next, u, v) ==> Settled(m, u, v)
    ensures Expanded(next, Finished(m, u))
  {
    var w := Finished(m, u);
    forall a, b | a in w && b in w && w[a].color == Black && Edge(next, a, b) ensures Settled(w, a, b) {
      assert Settled(m, a, b);
    }
  }

  lemma FinishSound<V>(next: map<V, seq<V>>, start: V, m: map<V, Mark<V>>, u: V)
    requires AllSound(next, start, m) && u in m && m[u].color == Gray
    ensures AllSound(next, start, Finished(m, u))
  {}

  lemma FinishQueues<V>(m: map<V, Mark<V>>, q: seq<V>)
    requires Queued(m, q) && Ordered(m, q) && q != []
    ensures q[0] in m && Queued(Finished(m, q[0]), q[1..]) && Ordered(Finished(m, q[0]), q[1..])
  {
    FinishQueued(m, q);
    FinishOrdered(m, q);
    hide *;
  }

  lemma FinishQueued<V>(m: map<V, Mark<V>>, q: seq<V>)
    requires Queued(m, q) && q != []
    ensures q[0] in m && Queued(Finished(m, q[0]), q[1..])
  {
    assert q == [q[0]] + q[1..];
  }

  lemma FinishOrdered<V>(m: map<V, Mark<V>>, q: seq<V>)
    requires Queued(m, q) && Ordered(m, q) && q != [] && q[0] in m
    ensures Ordered(Finished(m, q[0]), q[1..])
  {
    var w, rest := Finished(m, q[0]), q[1..];
    forall v ensures Depth(w, v) == Depth(m, v) {}
    hide Depth, Queued;
    assert forall i | 0 <= i < |rest| :: rest[i] == q[i + 1];
    if rest != [] {
      forall v | v in w && w[v].color == Black ensures Depth(w, v) <= Depth(w, rest[0]) {
        assert v == q[0] || m[v].color == Black;
      }
    }
  }

  // ----- one round -----

  /** The first i of the vertices vs are settled. */
  predicate SettledUpTo<V>(m: map<V, Mark<V>>, u: V, vs: seq<V>, i: nat) {
    u in m && i <= |vs| && forall k :: 0 <= k < i ==> vs[k] in m && Settled(m, u, vs[k])
  }

  ghost function NotBlack<V>(m: map<V, Mark<V>>): set<V> {
    set v | v in m && m[v].color != Black
  }

  lemma SearchStarts<V>(next: map<V, seq<V>>, start: V, m: map<V, Mark<V>>)
    requires start in m && next.Keys == m.Keys
    requires forall v :: v in m ==>
        m[v] == Mark(if v == start then Gray else White, if v == start then Finite(0) else Infinite, None)
    ensures Search(next, start, m, [start])
  {}

  lemma DiscoverStep<V>(next: map<V, seq<V>>, start: V, m: map<V, Mark<V>>, q: seq<V>, vs: seq<V>, i: nat)
    requires Search(next, start, m, q) && q != [] && q[0] in next && next[q[0]] == vs
    requires i < |vs| && SettledUpTo(m, q[0], vs, i) && vs[i] in m && m[vs[i]].color == White
    ensures m[q[0]].color == Gray && m[q[0]].distance.Finite?
    ensures Search(next, start, Discovered(m, q[0], vs[i]), q + [vs[i]])
    ensures SettledUpTo(Discovered(m, q[0], vs[i]), q[0], vs, i + 1)
    ensures NotBlack(Discovered(m, q[0], vs[i])) == NotBlack(m)
  {
    hide Search;
    QueueHead(next, start, m, q);
    DiscoverKeeps(next, start, m, q, vs[i]);
  }

  /** A successor of the first vertex that is not white is settled already. */
  lemma SettledAlready<V>(next: map<V, seq<V>>, start: V, m: map<V, Mark<V>>, q: seq<V>, i: nat)
    requires Search(next, start, m, q) && q != [] && q[0] in next && i < |next[q[0]]|
        && SettledUpTo(m, q[0], next[q[0]], i)
    requires next[q[0]][i] in m && m[next[q[0]][i]].color != White
    ensures SettledUpTo(m, q[0], next[q[0]], i + 1)
  {
    hide Steps;
    var v := next[q[0]][i];
    assert Sound(next, start, m, v) && Sound(next, start, m, q[0]);
    assert Depth(m, v) <= Depth(m, q[0]) + 1;
  }

  lemma FinishStep<V>(next: map<V, seq<V>>, start: V, m: map<V, Mark<V>>, q: seq<V>)
    requires Search(next, start, m, q) && q != [] && q[0] in next && SettledUpTo(m, q[0], next[q[0]], |next[q[0]]|)
    ensures Search(next, start, Finished(m, q[0]), q[1..])
    ensures q[0] in NotBlack(m) && NotBlack(Finished(m, q[0])) == NotBlack(m) - {q[0]}
  {
    assert m[q[0]].color == Gray;
    forall v | v in m && Edge(next, q[0], v) ensures Settled(m, q[0], v) {
      var k :| 0 <= k < |next[q[0]]| && next[q[0]][k] == v;
    }
    FinishKeeps(next, start, m, q);
  }

  // ----- shortest walks -----

  /** The distance is the length of a shortest walk, infinite and the colour white exactly when
      there is none, and path leads one step back along such a walk. */
  ghost predicate Shortest<V>(next: map<V, seq<V>>, start: V, m: map<V, Mark<V>>, v: V)
    requires v in m
  {
    && (m[v].distance == Infinite <==> !Reaches(next, start, v))
    && m[v].color == (if m[v].distance == Infinite then White else Black)
    && (m[v].distance == Infinite ==> m[v].path == None)
    && (m[v].distance.Finite? ==>
          && v in Steps(next, start, m[v].distance.d)
          && (forall k: nat :: v in Steps(next, start, k) ==> m[v].distance.d <= k)
          && (v == start ==> m[v].path == None)
          && (v != start ==> StepsBack(next, m, v)))
  }

  lemma {:induction false} Overtaken<V>(next: map<V, seq<V>>, start: V, m: map<V, Mark<V>>, v: V, n: nat)
    requires Closed(next) && Search(next, start, m, []) && v in Steps(next, start, n)
    ensures v in m && m[v].color != White && m[v].distance.Finite? && m[v].distance.d <= n
    decreases n
  {
    if n == 0 {
      assert Sound(next, start, m, start);
    } else {
      var u := StepsLast(next, start, n, v);
      Overtaken(next, start, m, u, n - 1);
      assert v in m by { var i :| 0 <= i < |next[u]| && next[u][i] == v; }
      assert Settled(m, u, v);
    }
  }

  /** When the queue is empty all distances are shortest. */
  lemma SearchIsShortest<V>(next: map<V, seq<V>>, start: V, m: map<V, Mark<V>>, v: V)
    requires Closed(next) && Search(next, start, m, []) && v in m
    ensures Shortest(next, start, m, v)
  {
    assert Sound(next, start, m, v);
    forall n: nat | v in Steps(next, start, n) ensures m[v].distance.Finite? && m[v].distance.d <= n {
      Overtaken(next, start, m, v, n);
    }
  }
}

/** Breadth-first search over coloured vertices, and the path it leaves behind. */
module BreadthFirst {
  import opened Options
  import opened Graphs
  import opened BreadthFirstMarks

  class Vertex {
    const name: Name
    var color: Color
    var distance: Distance
    var path: Vertex?

    constructor (name: Name)
      ensures this.name == name && color == White && distance == Infinite && path == null
    {
      this.name := name;
      color, distance, path := White, Infinite, null;
    }
  }

  /** Every vertex has a list of successors, all of them vertices, and a name of its own. */
  ghost predicate IsGraph(vertices: map<Name, seq<Vertex>>, all: set<Vertex>) {
    && (forall v :: v in all ==> v.name in vertices)
    && (forall v, i :: v in all && 0 <= i < |vertices[v.name]| ==> vertices[v.name][i] in all)
    && (forall u, v :: u in all && v in all && u.name == v.name ==> u == v)
  }

  ghost function Next(vertices: map<Name, seq<Vertex>>, all: set<Vertex>): map<Vertex, seq<Vertex>>
    requires IsGraph(vertices, all)
  {
    map v | v in all :: vertices[v.name]
  }

  /** The marks the vertices carry at this moment. */
  ghost function Marks(all: set<Vertex>): map<Vertex, Mark<Vertex>>
    reads all
  {
    map v | v in all :: Carried(v)
  }

  ghost function Carried(v: Vertex): Mark<Vertex>
    reads v
  {
    var path: Option<Vertex> := if v.path == null then None else Some(v.path);
    Mark(v.color, v.distance, path)
  }

  method BreadthFirstSearch(vertices: map<Name, seq<Vertex>>, start: Vertex, ghost all: set<Vertex>)
    requires IsGraph(vertices, all) && start in all
    requires forall v :: v in all ==> Marks(all)[v] == Mark(White, Infinite, None)
    modifies all
    ensures Marks(all).Keys == all
    ensures forall v :: v in all ==> Shortest(Next(vertices, all), start, Marks(all), v)
  {
    ghost var next := Next(vertices, all);
    start.color := Gray;
    start.distance := Finite(0);
    var que := [start];
    SearchStarts(next, start, Marks(all));
    hide Search, Shortest, NotBlack;
    while |que| > 0
      invariant Search(next, start, Marks(all), que)
      decreases NotBlack(Marks(all))
    {
      QueueHead(next, start, Marks(all), que);
      que := Expand(vertices, start, que[0], que, all);
    }
    forall v | v in all ensures Shortest(next, start, Marks(all), v) {
      SearchIsShortest(next, start, Marks(all), v);
    }
  }

  /** The round for the first vertex u of the queue que. */
  method Expand(vertices: map<Name, seq<Vertex>>, ghost start: Vertex, u: Vertex, que: seq<Vertex>,
      ghost all: set<Vertex>) returns (rest: seq<Vertex>)
    requires IsGraph(vertices, all) && que != [] && u == que[0] && u in all
    requires Search(Next(vertices, all), start, Marks(all), que)
    modifies all
    ensures Search(Next(vertices, all), start, Marks(all), rest)
    ensures u in old(NotBlack(Marks(all))) && NotBlack(Marks(all)) == old(NotBlack(Marks(all))) - {u}
  {
    ghost var next := Next(vertices, all);
    rest := que[1..];
    var adj := vertices[u.name];
    assert SettledUpTo(Marks(all), u, adj, 0);
    hide *;
    QueueHead(next, start, Marks(all), que);
    var i := 0;
    while i < |adj|
      invariant 0 <= i <= |adj|
      invariant Search(next, start, Marks(all), [u] + rest)
      invariant SettledUpTo(Marks(all), u, adj, i)
      invariant NotBlack(Marks(all)) == old(NotBlack(Marks(all)))
    {
      rest := Inspect(next, start, u, adj, i, rest, all);
      i := i + 1;
    }
    assert ([u] + rest)[1..] == rest;
    FinishStep(next, start, Marks(all), [u] + rest);
    Blacken(u, all);
  }

  /** The look at the successor number i of u. */
  method Inspect(ghost next: map<Vertex, seq<Vertex>>, ghost start: Vertex, u: Vertex, adj: seq<Vertex>, i: nat,
      que: seq<Vertex>, ghost all: set<Vertex>) returns (rest: seq<Vertex>)
    requires u in all && i < |adj| && adj[i] in all && u in next && next[u] == adj
    requires Search(next, start, Marks(all), [u] + que) && SettledUpTo(Marks(all), u, adj, i)
    modifies all
    ensures Search(next, start, Marks(all), [u] + rest) && SettledUpTo(Marks(all), u, adj, i + 1)
    ensures NotBlack(Marks(all)) == old(NotBlack(Marks(all)))
  {
    hide Search, SettledUpTo, NotBlack, Marks, Discovered;
    var v := adj[i];
    ghost var m := Marks(all);
    MarkInMarks(u, all);
    MarkInMarks(v, all);
    if v.color == White {
      DiscoverStep(next, start, m, [u] + que, adj, i);
      Colour(u, v, all);
      assert [u] + que + [v] == [u] + (que + [v]);
      return que + [v];
    }
    SettledAlready(next, start, m, [u] + que, i);
    return que;
  }

  lemma MarkInMarks(v: Vertex, all: set<Vertex>)
    requires v in all
    ensures v in Marks(all) && Marks(all)[v] == Carried(v)
  {}

  method Colour(u: Vertex, v: Vertex, ghost all: set<Vertex>)
    requires u in all && v in all && u != v && u.distance.Finite?
    modifies v
    ensures u in old(Marks(all)) && Marks(all) == Discovered(old(Marks(all)), u, v)
  {
    v.color := Gray;
    v.path := u;
    v.distance := Finite(u.distance.d + 1);
  }

  method Blacken(u: Vertex, ghost all: set<Vertex>)
    requires u in all
    modifies u
    ensures u in old(Marks(all)) && Marks(all) == Finished(old(Marks(all)), u)
  {
    u.color := Black;
  }

  // ----- the path -----

  datatype Printed = Walk(names: seq<Name>) | NoPath

  /** The names of the vertices of a walk from start to end, no longer than any other. */
  ghost predicate IsShortestWalk(vertices: map<Name, seq<Vertex>>, start: Vertex, end: Vertex, names: seq<Name>,
      all: set<Vertex>)
    requires IsGraph(vertices, all)
  {
    && names != [] && names[0] == start.name && names[|names| - 1] == end.name
    && (forall i, j :: 0 <= i < j < |names| && j == i + 1 ==> NamedEdge(vertices, names[i], names[j]))
    && end in Steps(Next(vertices, all), start, |names| - 1)
    && (forall k: nat :: end in Steps(Next(vertices, all), start, k) ==> |names| - 1 <= k)
  }

  ghost predicate NamedEdge(vertices: map<Name, seq<Vertex>>, a: Name, b: Name) {
    a in vertices && exists w :: w in vertices[a] && w.name == b
  }

  /** Following the path pointer leads one step nearer. */
  lemma PathLeads(vertices: map<Name, seq<Vertex>>, start: Vertex, end: Vertex, p: Vertex, all: set<Vertex>)
    requires IsGraph(vertices, all) && end in all && end.path == p && start.name != end.name
    requires forall v :: v in all ==> Shortest(Next(vertices, all), start, Marks(all), v)
    ensures p in all && Edge(Next(vertices, all), p, end) && Reaches(Next(vertices, all), start, p)
    ensures Depth(Marks(all), end) == Depth(Marks(all), p) + 1
    ensures Reaches(Next(vertices, all), start, end) && end in Steps(Next(vertices, all), start, Depth(Marks(all), end))
    ensures forall k: nat :: end in Steps(Next(vertices, all), start, k) ==> Depth(Marks(all), end) <= k
  {
    hide Steps, Reaches;
    var next, m := Next(vertices, all), Marks(all);
    assert m[end].path == Some(p);
    assert Shortest(next, start, m, end) && StepsBack(next, m, end) && Shortest(next, start, m, p);
  }

  /** A vertex without one is the start or out of reach. */
  lemma PathEnds(vertices: map<Name, seq<Vertex>>, start: Vertex, end: Vertex, all: set<Vertex>)
    requires IsGraph(vertices, all) && end in all && start in all && (end.path == null || start.name == end.name)
    requires Shortest(Next(vertices, all), start, Marks(all), end)
    ensures start.name == end.name ==> start == end && Depth(Marks(all), end) == 0
    ensures start.name == end.name ==>
        Reaches(Next(vertices, all), start, end) && IsShortestWalk(vertices, start, end, [start.name], all)
    ensures start.name != end.name ==> !Reaches(Next(vertices, all), start, end)
  {
    if start.name == end.name {
      assert end in Steps(Next(vertices, all), start, 0);
    }
  }

  lemma WalkGrows(vertices: map<Name, seq<Vertex>>, start: Vertex, p: Vertex, end: Vertex, names: seq<Name>,
      all: set<Vertex>)
    requires IsGraph(vertices, all) && p in all && end in all && IsShortestWalk(vertices, start, p, names, all)
    requires Edge(Next(vertices, all), p, end) && end in Steps(Next(vertices, all), start, |names|)
    requires forall k: nat :: end in Steps(Next(vertices, all), start, k) ==> |names| <= k
    ensures IsShortestWalk(vertices, start, end, names + [end.name], all)
  {
    hide Steps;
    assert NamedEdge(vertices, p.name, end.name);
  }

  /** The names printed on the way from start to end, or that there is no way. */
  method PrintPath(vertices: map<Name, seq<Vertex>>, start: Vertex, end: Vertex, ghost all: set<Vertex>)
      returns (out: Printed)
    requires IsGraph(vertices, all) && start in all && end in all
    requires forall v :: v in all ==> Shortest(Next(vertices, all), start, Marks(all), v)
    ensures out == NoPath <==> !Reaches(Next(vertices, all), start, end)
    ensures out.Walk? ==>
        |out.names| == Depth(Marks(all), end) + 1 && IsShortestWalk(vertices, start, end, out.names, all)
    decreases Depth(Marks(all), end)
  {
    assert end in Marks(all) && Shortest(Next(vertices, all), start, Marks(all), end);
    hide *;
    if start.name == end.name {
      PathEnds(vertices, start, end, all);
      return Walk([start.name]);
    }
    if end.path == null {
      PathEnds(vertices, start, end, all);
      return NoPath;
    }
    PathLeads(vertices, start, end, end.path, all);
    out := PrintPath(vertices, start, end.path, all);
    WalkGrows(vertices, start, end.path, end, out.names, all);
    out := Walk(out.names + [end.name]);
  }
}
