/** Topological sorting by counting the edges that still lead into each vertex. */
module KahnSort {
  import opened Graphs

  /** The edges into v from those of the vertices us that are not in done. */
  ghost function Remaining(next: map<Name, seq<Name>>, us: seq<Name>, done: set<Name>, v: Name): nat
    requires forall i :: 0 <= i < |us| ==> us[i] in next
  {
    if us == [] then 0
    else (if us[0] in done then 0 else multiset(next[us[0]])[v]) + Remaining(next, us[1..], done, v)
  }

  lemma {:induction false} RemainingAppend(next: map<Name, seq<Name>>, us: seq<Name>, u: Name, done: set<Name>, v: Name)
    requires u in next && forall i :: 0 <= i < |us| ==> us[i] in next
    ensures Remaining(next, us + [u], done, v) == Remaining(next, us, done, v)
        + if u in done then 0 else multiset(next[u])[v]
  {
    if us != [] {
      assert (us + [u])[1..] == us[1..] + [u];
      RemainingAppend(next, us[1..], u, done, v);
    }
  }

  /** Taking u out takes its own edges away, no more and no less. */
  lemma {:induction false} RemainingWithout(next: map<Name, seq<Name>>, us: seq<Name>, done: set<Name>, u: Name,
      v: Name)
    requires Distinct(us) && u in next && u !in done && forall i :: 0 <= i < |us| ==> us[i] in next
    ensures Remaining(next, us, done, v) == Remaining(next, us, done + {u}, v)
        + if u in us then multiset(next[u])[v] else 0
  {
    if us != [] {
      assert u in us <==> u == us[0] || u in us[1..];
      RemainingWithout(next, us[1..], done, u, v);
      if u == us[0] {
        assert u !in us[1..];
      }
    }
  }

  lemma {:induction false} NoneRemaining(next: map<Name, seq<Name>>, us: seq<Name>, done: set<Name>, v: Name)
    requires forall i :: 0 <= i < |us| ==> us[i] in next
    ensures Remaining(next, us, done, v) == 0 <==> forall i :: 0 <= i < |us| && Edge(next, us[i], v) ==> us[i] in done
  {
    if us != [] {
      NoneRemaining(next, us[1..], done, v);
      assert forall i :: 0 < i < |us| ==> us[i] == us[1..][i - 1];
      assert v in next[us[0]] <==> multiset(next[us[0]])[v] > 0;
    }
  }

  predicate Distinct(us: seq<Name>) {
    forall i, j :: 0 <= i < j < |us| ==> us[i] != us[j]
  }

  // ----- what the loop keeps -----

  /** The nodes are the keys of next, each once, and edges lead to nodes. */
  ghost predicate IsGraph(nodes: seq<Name>, next: map<Name, seq<Name>>) {
    && Distinct(nodes) && Closed(next)
    && (forall v :: v in nodes <==> v in next)
    && (forall i :: 0 <= i < |nodes| ==> nodes[i] in next)
  }

  /** The counters hold the edges from vertices not in done, less those already taken away. */
  ghost predicate Counts(nodes: seq<Name>, next: map<Name, seq<Name>>, done: set<Name>, taken: seq<Name>,
      cntIn: map<Name, int>)
    requires IsGraph(nodes, next)
  {
    cntIn.Keys == next.Keys && forall v :: v in cntIn ==>
        cntIn[v] == Remaining(next, nodes, done, v) - multiset(taken)[v]
  }

  /** The vertices with counter zero are the ones printed or queued. */
  ghost predicate Queued(cntIn: map<Name, int>, printed: seq<Name>, que: seq<Name>) {
    && Distinct(printed + que)
    && (forall v :: v in cntIn ==> (cntIn[v] == 0 <==> v in printed + que))
    && (forall i :: 0 <= i < |printed + que| ==> (printed + que)[i] in cntIn)
  }

  /** Every printed vertex comes after all its predecessors. */
  ghost predicate AfterPredecessors(next: map<Name, seq<Name>>, printed: seq<Name>) {
    forall i, u :: 0 <= i < |printed| && u in next && Edge(next, u, printed[i]) ==> u in printed[..i]
  }

  ghost function Members(us: seq<Name>): set<Name> {
    set u | u in us
  }

  // ----- cycles -----

  /** Some vertex on a cycle reaches v. */
  ghost predicate AfterCycle(next: map<Name, seq<Name>>, v: Name) {
    exists w :: w in next && OnCycle(next, w) && Reaches(next, w, v)
  }

  /** A walk to a printed vertex begins at one printed before it. */
  lemma {:induction false} WalksComeEarlier(next: map<Name, seq<Name>>, printed: seq<Name>, i: nat, w: Name, n: nat)
    requires AfterPredecessors(next, printed) && i < |printed| && printed[i] in Steps(next, w, n)
    ensures exists j :: 0 <= j <= i && printed[j] == w && (n > 0 ==> j < i)
    decreases n
  {
    if n > 0 {
      var u := StepsLast(next, w, n, printed[i]);
      assert u in printed[..i];
      var k :| 0 <= k < i && printed[k] == u;
      WalksComeEarlier(next, printed, k, w, n - 1);
    }
  }

  lemma PrintedIsAcyclic(next: map<Name, seq<Name>>, printed: seq<Name>, v: Name)
    requires AfterPredecessors(next, printed) && Distinct(printed) && v in printed
    ensures !AfterCycle(next, v)
  {
    hide Steps, AfterPredecessors;
    forall w | w in next && OnCycle(next, w) && Reaches(next, w, v) ensures false {
      var i :| 0 <= i < |printed| && printed[i] == v;
      var n: nat :| v in Steps(next, w, n);
      WalksComeEarlier(next, printed, i, w, n);
      var j :| 0 <= j <= i && printed[j] == w;
      var k: nat :| k > 0 && w in Steps(next, w, k);
      WalksComeEarlier(next, printed, j, w, k);
    }
  }

  /** Every vertex of r has a predecessor in r. */
  ghost predicate Backed(next: map<Name, seq<Name>>, r: set<Name>) {
    forall v {:trigger HasPredecessor(next, r, v)} :: v in r ==> HasPredecessor(next, r, v)
  }

  ghost predicate HasPredecessor(next: map<Name, seq<Name>>, r: set<Name>, v: Name) {
    exists u :: u in r && u in next && Edge(next, u, v)
  }

  /** A walk against the edges inside r. */
  ghost predicate Trail(next: map<Name, seq<Name>>, r: set<Name>, t: seq<Name>) {
    && t != [] && Members(t) <= r
    && forall i, j :: 0 <= i < j < |t| && j == i + 1 ==> Edge(next, t[j], t[i])
  }

  lemma {:induction false} TrailWalk(next: map<Name, seq<Name>>, r: set<Name>, t: seq<Name>, i: nat, j: nat)
    requires Trail(next, r, t) && i <= j < |t|
    ensures t[i] in Steps(next, t[j], j - i)
    decreases j - i
  {
    if i < j {
      TrailWalk(next, r, t, i + 1, j);
      StepsNext(next, t[j], j - i - 1, t[i + 1], t[i]);
    }
  }

  /** A trail that comes back to a vertex of its own has found a cycle. */
  lemma TrailCloses(next: map<Name, seq<Name>>, r: set<Name>, t: seq<Name>, k: nat)
    requires Trail(next, r, t) && k < |t| && t[k] in next && Edge(next, t[k], t[|t| - 1])
    ensures AfterCycle(next, t[0])
  {
    hide Steps, Trail;
    var u, last := t[k], t[|t| - 1];
    TrailWalk(next, r, t, k, |t| - 1);
    Zero(next, u);
    StepsNext(next, u, 0, u, last);
    StepsCompose(next, u, last, u, 1, |t| - 1 - k);
    TrailWalk(next, r, t, 0, k);
    assert OnCycle(next, u) && Reaches(next, u, t[0]);
  }

  lemma TrailGrows(next: map<Name, seq<Name>>, r: set<Name>, t: seq<Name>, u: Name)
    requires Trail(next, r, t) && u in r && u !in t && Edge(next, u, t[|t| - 1])
    ensures Trail(next, r, t + [u]) && Members(t) < Members(t + [u])
  {
    hide Edge;
    var w := t + [u];
    assert forall i :: 0 <= i < |t| ==> w[i] == t[i];
    assert w[|t|] == u;
    assert u in Members(w) && u !in Members(t);
  }

  lemma Back(next: map<Name, seq<Name>>, r: set<Name>, t: seq<Name>) returns (u: Name)
    requires Backed(next, r) && Trail(next, r, t)
    ensures u in r && u in next && Edge(next, u, t[|t| - 1]) && Members(t) <= r
  {
    var last := t[|t| - 1];
    assert last in Members(t);
    assert HasPredecessor(next, r, last);
    u :| u in r && u in next && Edge(next, u, last);
  }

  /** Going back long enough inside r, some vertex comes twice. */
  lemma {:induction false} BackedIsAfterCycle(next: map<Name, seq<Name>>, r: set<Name>, t: seq<Name>)
    requires Backed(next, r) && Trail(next, r, t)
    ensures t != [] && AfterCycle(next, t[0])
    decreases r - Members(t)
  {
    hide Edge, Backed, Members, AfterCycle;
    var u := Back(next, r, t);
    if u in t {
      var k :| 0 <= k < |t| && t[k] == u;
      TrailCloses(next, r, t, k);
    } else {
      TrailGrows(next, r, t, u);
      var v := Back(next, r, t + [u]);
      BackedIsAfterCycle(next, r, t + [u]);
    }
  }

  lemma Zero(next: map<Name, seq<Name>>, u: Name)
    ensures u in Steps(next, u, 0)
  {}

  // ----- the steps of the loop on values -----

  /** What the loop keeps between two vertices taken from the queue. */
  ghost predicate Printing(nodes: seq<Name>, next: map<Name, seq<Name>>, cntIn: map<Name, int>, printed: seq<Name>,
      que: seq<Name>)
    requires IsGraph(nodes, next)
  {
    Counts(nodes, next, Members(printed), [], cntIn) && Queued(cntIn, printed, que) && AfterPredecessors(next, printed)
  }

  /** The same while the first i edges out of u, the vertex last printed, are taken away. */
  ghost predicate Taking(nodes: seq<Name>, next: map<Name, seq<Name>>, cntIn: map<Name, int>, printed: seq<Name>,
      u: Name, i: nat, que: seq<Name>)
    requires IsGraph(nodes, next)
  {
    && u in next && u !in printed && i <= |next[u]|
    && Counts(nodes, next, Members(printed), next[u][..i], cntIn)
    && Queued(cntIn, printed + [u], que) && AfterPredecessors(next, printed + [u])
  }

  lemma TakeFirst(nodes: seq<Name>, next: map<Name, seq<Name>>, cntIn: map<Name, int>, printed: seq<Name>,
      que: seq<Name>)
    requires IsGraph(nodes, next) && Printing(nodes, next, cntIn, printed, que) && que != []
    ensures Taking(nodes, next, cntIn, printed, que[0], 0, que[1..])
  {
    var u := que[0];
    QueueFirst(cntIn, printed, que);
    hide Queued, AfterPredecessors;
    assert Counts(nodes, next, Members(printed), next[u][..0], cntIn);
    NoneRemaining(next, nodes, Members(printed), u);
    PrintKeeps(nodes, next, printed, u);
  }

  lemma QueueFirst(cntIn: map<Name, int>, printed: seq<Name>, que: seq<Name>)
    requires Queued(cntIn, printed, que) && que != []
    ensures Queued(cntIn, printed + [que[0]], que[1..]) && que[0] !in printed && que[0] in cntIn && cntIn[que[0]] == 0
  {
    var u := que[0];
    assert printed + que == printed + [u] + que[1..];
    assert (printed + que)[|printed|] == u;
    forall j | 0 <= j < |printed| ensures printed[j] != u {
      assert (printed + que)[j] == printed[j];
    }
  }

  /** A vertex whose predecessors are printed may be printed. */
  lemma PrintKeeps(nodes: seq<Name>, next: map<Name, seq<Name>>, printed: seq<Name>, u: Name)
    requires IsGraph(nodes, next) && AfterPredecessors(next, printed)
    requires forall i :: 0 <= i < |nodes| && Edge(next, nodes[i], u) ==> nodes[i] in Members(printed)
    ensures AfterPredecessors(next, printed + [u])
  {
    var p := printed + [u];
    forall i, x | 0 <= i < |p| && x in next && Edge(next, x, p[i]) ensures x in p[..i] {
      assert p[..i] == printed[..i];
      if i == |printed| {
        assert x in nodes && p[..i] == printed;
      }
    }
  }

  lemma QueueKeeps(cntIn: map<Name, int>, printed: seq<Name>, que: seq<Name>, v: Name)
    requires Queued(cntIn, printed, que) && v in cntIn && cntIn[v] > 0
    ensures Queued(cntIn[v := cntIn[v] - 1], printed, if cntIn[v] == 1 then que + [v] else que)
  {
    if cntIn[v] == 1 {
      assert printed + (que + [v]) == printed + que + [v];
      assert v !in printed + que;
    }
  }

  /** The counter of the next successor is positive; it goes into the queue when it falls to zero. */
  lemma TakeEdge(nodes: seq<Name>, next: map<Name, seq<Name>>, cntIn: map<Name, int>, printed: seq<Name>, u: Name,
      i: nat, que: seq<Name>)
    requires IsGraph(nodes, next) && Taking(nodes, next, cntIn, printed, u, i, que) && i < |next[u]|
    ensures next[u][i] in cntIn && cntIn[next[u][i]] > 0
    ensures Taking(nodes, next, cntIn[next[u][i] := cntIn[next[u][i]] - 1], printed, u, i + 1,
                   if cntIn[next[u][i]] == 1 then que + [next[u][i]] else que)
  {
    hide Queued, AfterPredecessors, Counts;
    TakeCounts(nodes, next, cntIn, Members(printed), u, i);
    QueueKeeps(cntIn, printed + [u], que, next[u][i]);
  }

  lemma TakeCounts(nodes: seq<Name>, next: map<Name, seq<Name>>, cntIn: map<Name, int>, done: set<Name>, u: Name,
      i: nat)
    requires IsGraph(nodes, next) && u in next && u !in done && i < |next[u]|
        && Counts(nodes, next, done, next[u][..i], cntIn)
    ensures next[u][i] in cntIn && cntIn[next[u][i]] > 0
    ensures Counts(nodes, next, done, next[u][..i + 1], cntIn[next[u][i] := cntIn[next[u][i]] - 1])
  {
    var adj := next[u];
    TakesOne(adj, i);
    RemainingWithout(next, nodes, done, u, adj[i]);
    hide Remaining;
  }

  lemma TakesOne(adj: seq<Name>, i: nat)
    requires i < |adj|
    ensures multiset(adj[..i + 1]) == multiset(adj[..i]) + multiset{adj[i]}
    ensures multiset(adj)[adj[i]] > multiset(adj[..i])[adj[i]]
  {
    assert adj[..i + 1] == adj[..i] + [adj[i]];
    assert adj == adj[..i] + ([adj[i]] + adj[i + 1..]);
  }

  /** With all its edges taken away the vertex is done. */
  lemma TakenAll(nodes: seq<Name>, next: map<Name, seq<Name>>, cntIn: map<Name, int>, printed: seq<Name>, u: Name,
      que: seq<Name>)
    requires IsGraph(nodes, next) && u in next && Taking(nodes, next, cntIn, printed, u, |next[u]|, que)
    ensures Printing(nodes, next, cntIn, printed + [u], que)
  {
    var done := Members(printed);
    assert next[u][..|next[u]|] == next[u];
    MembersAppend(printed, u);
    forall v | v in cntIn ensures cntIn[v] == Remaining(next, nodes, done + {u}, v) {
      RemainingWithout(next, nodes, done, u, v);
    }
  }

  lemma MembersAppend(us: seq<Name>, u: Name)
    ensures Members(us + [u]) == Members(us) + {u}
  {}

  /** A vertex left out has a predecessor left out. */
  lemma LeftIsBacked(nodes: seq<Name>, next: map<Name, seq<Name>>, cntIn: map<Name, int>, printed: seq<Name>)
    requires IsGraph(nodes, next) && Printing(nodes, next, cntIn, printed, [])
    ensures Backed(next, next.Keys - Members(printed))
  {
    hide Edge, AfterPredecessors;
    assert printed + [] == printed;
    var r := next.Keys - Members(printed);
    forall v | v in r ensures HasPredecessor(next, r, v) {
      NoneRemaining(next, nodes, Members(printed), v);
      assert cntIn[v] != 0;
      var i :| 0 <= i < |nodes| && Edge(next, nodes[i], v) && nodes[i] !in Members(printed);
      assert nodes[i] in r;
    }
  }

  /** At the end exactly the vertices that no cycle reaches are printed. */
  lemma SortingEnds(nodes: seq<Name>, next: map<Name, seq<Name>>, cntIn: map<Name, int>, printed: seq<Name>)
    requires IsGraph(nodes, next) && Printing(nodes, next, cntIn, printed, [])
    ensures Distinct(printed) && AfterPredecessors(next, printed)
    ensures forall v :: v in printed <==> v in nodes && !AfterCycle(next, v)
  {
    LeftIsBacked(nodes, next, cntIn, printed);
    assert printed + [] == printed;
    hide Backed, AfterCycle, AfterPredecessors, Counts;
    forall v ensures v in printed <==> v in nodes && !AfterCycle(next, v) {
      if v in printed {
        PrintedIsAcyclic(next, printed, v);
      } else if v in nodes {
        BackedIsAfterCycle(next, next.Keys - Members(printed), [v]);
      }
    }
  }

  /** Everything is printed exactly when there is no cycle at all. */
  lemma AllPrinted(nodes: seq<Name>, next: map<Name, seq<Name>>, printed: seq<Name>)
    requires IsGraph(nodes, next) && forall v :: v in printed <==> v in nodes && !AfterCycle(next, v)
    ensures (forall v :: v in nodes ==> v in printed) <==> (forall v :: v in nodes ==> !OnCycle(next, v))
  {}

  // ----- the program -----

  function Successors(vertices: map<Name, seq<Name>>, v: Name): seq<Name> {
    if v in vertices then vertices[v] else []
  }

  ghost function Next(nodes: seq<Name>, vertices: map<Name, seq<Name>>): map<Name, seq<Name>> {
    map v | v in nodes :: Successors(vertices, v)
  }

  /** cntIn counts the edges from the vertices us, and those to the vertices part. */
  ghost predicate Counted(next: map<Name, seq<Name>>, us: seq<Name>, part: seq<Name>, cntIn: map<Name, int>) {
    && (forall i :: 0 <= i < |us| ==> us[i] in next)
    && cntIn.Keys == next.Keys && forall v :: v in cntIn ==> cntIn[v] == Remaining(next, us, {}, v) + multiset(part)[v]
  }

  lemma CountOne(next: map<Name, seq<Name>>, us: seq<Name>, adj: seq<Name>, j: nat, cntIn: map<Name, int>)
    requires j < |adj| && Counted(next, us, adj[..j], cntIn) && adj[j] in cntIn
    ensures Counted(next, us, adj[..j + 1], cntIn[adj[j] := cntIn[adj[j]] + 1])
  {
    TakesOne(adj, j);
  }

  lemma CountAll(next: map<Name, seq<Name>>, us: seq<Name>, u: Name, cntIn: map<Name, int>)
    requires u in next && Counted(next, us, next[u], cntIn)
    ensures Counted(next, us + [u], [], cntIn)
  {
    forall v | v in cntIn ensures cntIn[v] == Remaining(next, us + [u], {}, v) {
      RemainingAppend(next, us, u, {}, v);
    }
  }

  method CountEdges(nodes: seq<Name>, vertices: map<Name, seq<Name>>) returns (cntIn: map<Name, int>)
    requires IsGraph(nodes, Next(nodes, vertices))
    ensures Counts(nodes, Next(nodes, vertices), {}, [], cntIn)
  {
    ghost var next := Next(nodes, vertices);
    cntIn := map[];
    for i := 0 to |nodes|
      invariant cntIn.Keys == Members(nodes[..i]) && forall v :: v in cntIn ==> cntIn[v] == 0
    {
      cntIn := cntIn[nodes[i] := 0];
    }
    assert nodes[..|nodes|] == nodes;
    for i := 0 to |nodes|
      invariant Counted(next, nodes[..i], [], cntIn)
    {
      cntIn := CountOut(nodes, vertices, i, cntIn);
    }
  }

  lemma OutEdges(nodes: seq<Name>, vertices: map<Name, seq<Name>>, i: nat, cnt: map<Name, int>)
    requires IsGraph(nodes, Next(nodes, vertices)) && i < |nodes| && Counted(Next(nodes, vertices), nodes[..i], [], cnt)
    ensures nodes[i] in Next(nodes, vertices)
    ensures Next(nodes, vertices)[nodes[i]] == if nodes[i] in vertices then vertices[nodes[i]] else []
    ensures forall j :: 0 <= j < |Next(nodes, vertices)[nodes[i]]| ==> Next(nodes, vertices)[nodes[i]][j] in cnt
  {}

  /** Counts the edges out of the node number i. */
  method CountOut(nodes: seq<Name>, vertices: map<Name, seq<Name>>, i: nat, cnt: map<Name, int>)
      returns (cntIn: map<Name, int>)
    requires IsGraph(nodes, Next(nodes, vertices)) && i < |nodes| && Counted(Next(nodes, vertices), nodes[..i], [], cnt)
    ensures Counted(Next(nodes, vertices), nodes[..i + 1], [], cntIn)
  {
    hide *;
    ghost var next := Next(nodes, vertices);
    OutEdges(nodes, vertices, i, cnt);
    cntIn := cnt;
    if nodes[i] in vertices {
      var adj := vertices[nodes[i]];
      assert adj[..0] == [];
      for j := 0 to |adj|
        invariant cntIn.Keys == cnt.Keys && Counted(next, nodes[..i], adj[..j], cntIn)
      {
        CountOne(next, nodes[..i], adj, j, cntIn);
        cntIn := cntIn[adj[j] := cntIn[adj[j]] + 1];
      }
      assert adj[..|adj|] == adj;
    }
    CountAll(next, nodes[..i], nodes[i], cntIn);
    assert nodes[..i + 1] == nodes[..i] + [nodes[i]];
  }

  lemma NonePrinted(nodes: seq<Name>, next: map<Name, seq<Name>>)
    ensures AfterPredecessors(next, [])
  {}

  lemma FirstPrinting(nodes: seq<Name>, next: map<Name, seq<Name>>, cntIn: map<Name, int>)
    requires IsGraph(nodes, next) && Counts(nodes, next, {}, [], cntIn)
    ensures forall que :: Queued(cntIn, [], que) ==> Printing(nodes, next, cntIn, [], que)
  {
    assert Members([]) == {};
    NonePrinted(nodes, next);
    hide IsGraph, Counts, AfterPredecessors, Queued;
  }

  /** The vertices without predecessors, in the order of the nodes. */
  method FirstQueue(nodes: seq<Name>, vertices: map<Name, seq<Name>>, cntIn: map<Name, int>) returns (que: seq<Name>)
    requires IsGraph(nodes, Next(nodes, vertices)) && Counts(nodes, Next(nodes, vertices), {}, [], cntIn)
    ensures Printing(nodes, Next(nodes, vertices), cntIn, [], que)
  {
    ghost var next := Next(nodes, vertices);
    assert Distinct(nodes) && cntIn.Keys == next.Keys && forall v :: v in next <==> v in nodes;
    FirstPrinting(nodes, next, cntIn);
    hide IsGraph, Counts, Printing, Next;
    hide ZeroesUpTo, Queued;
    NoZeroes(nodes, cntIn);
    que := [];
    for i := 0 to |nodes|
      invariant ZeroesUpTo(nodes, cntIn, que, i)
    {
      NextZero(nodes, cntIn, que, i);
      if cntIn[nodes[i]] == 0 {
        que := que + [nodes[i]];
      }
    }
    AllZeroes(nodes, cntIn, que);
  }

  /** The queue holds those of the first i nodes whose counter is zero. */
  ghost predicate ZeroesUpTo(nodes: seq<Name>, cntIn: map<Name, int>, que: seq<Name>, i: nat) {
    && i <= |nodes| && Distinct(que) && (forall v :: v in cntIn <==> v in nodes)
    && forall v :: v in que <==> v in nodes[..i] && cntIn[v] == 0
  }

  lemma NoZeroes(nodes: seq<Name>, cntIn: map<Name, int>)
    requires forall v :: v in cntIn <==> v in nodes
    ensures ZeroesUpTo(nodes, cntIn, [], 0)
  {}

  lemma NextZero(nodes: seq<Name>, cntIn: map<Name, int>, que: seq<Name>, i: nat)
    requires ZeroesUpTo(nodes, cntIn, que, i) && i < |nodes| && Distinct(nodes)
    ensures nodes[i] in cntIn
    ensures ZeroesUpTo(nodes, cntIn, if cntIn[nodes[i]] == 0 then que + [nodes[i]] else que, i + 1)
  {
    assert nodes[..i + 1] == nodes[..i] + [nodes[i]];
  }

  lemma AllZeroes(nodes: seq<Name>, cntIn: map<Name, int>, que: seq<Name>)
    requires ZeroesUpTo(nodes, cntIn, que, |nodes|)
    ensures Queued(cntIn, [], que)
  {
    assert [] + que == que && nodes[..|nodes|] == nodes;
  }

  /** Takes the edges out of u, the vertex just printed, away. */
  method TakeEdges(nodes: seq<Name>, vertices: map<Name, seq<Name>>, ghost printed: seq<Name>, u: Name,
      cnt: map<Name, int>, que: seq<Name>)
    returns (cntIn: map<Name, int>, rest: seq<Name>)
    requires IsGraph(nodes, Next(nodes, vertices)) && Taking(nodes, Next(nodes, vertices), cnt, printed, u, 0, que)
    ensures u !in printed && u in nodes && Printing(nodes, Next(nodes, vertices), cntIn, printed + [u], rest)
  {
    ghost var next := Next(nodes, vertices);
    cntIn, rest := cnt, que;
    assert u in next && u !in printed && next[u] == Successors(vertices, u);
    hide Taking, Printing, IsGraph;
    if u in vertices {
      for i := 0 to |vertices[u]|
        invariant Taking(nodes, next, cntIn, printed, u, i, rest)
      {
        var v := vertices[u][i];
        TakeEdge(nodes, next, cntIn, printed, u, i, rest);
        cntIn := cntIn[v := cntIn[v] - 1];
        if cntIn[v] == 0 {
          rest := rest + [v];
        }
      }
    }
    TakenAll(nodes, next, cntIn, printed, u, rest);
  }

  lemma Shrinks(next: map<Name, seq<Name>>, printed: seq<Name>, u: Name)
    requires u in next && u !in printed
    ensures next.Keys - Members(printed + [u]) < next.Keys - Members(printed)
  {
    assert u !in next.Keys - Members(printed + [u]);
  }

  /** Prints the vertices that no cycle reaches, each once and after all its predecessors. */
  method TopoSort(nodes: seq<Name>, vertices: map<Name, seq<Name>>) returns (printed: seq<Name>)
    requires IsGraph(nodes, Next(nodes, vertices))
    ensures Distinct(printed)
    ensures AfterPredecessors(Next(nodes, vertices), printed)
    ensures forall v :: v in printed <==> v in nodes && !AfterCycle(Next(nodes, vertices), v)
  {
    ghost var next := Next(nodes, vertices);
    var cntIn := CountEdges(nodes, vertices);
    var que := FirstQueue(nodes, vertices, cntIn);
    printed := [];
    hide *;
    while |que| > 0
      invariant Printing(nodes, next, cntIn, printed, que)
      decreases next.Keys - Members(printed)
    {
      var u := que[0];
      TakeFirst(nodes, next, cntIn, printed, que);
      cntIn, que := TakeEdges(nodes, vertices, printed, u, cntIn, que[1..]);
      Shrinks(next, printed, u);
      printed := printed + [u];
    }
    SortingEnds(nodes, next, cntIn, printed);
  }
}
