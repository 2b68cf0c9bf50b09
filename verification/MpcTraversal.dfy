/** The tree iterators of mpc: a stack of frames that is pushed and popped from call to call,
    against the recursive orders. */
module MpcTraversal {
  import opened Slices
  import opened MpcAst

  function Preorder(a: Ast): seq<Ast> {
    [a] + PreorderAll(a.children)
  }

  function PreorderAll(cs: seq<Ast>): seq<Ast> {
    if cs == [] then [] else Preorder(cs[0]) + PreorderAll(cs[1..])
  }

  function Postorder(a: Ast): seq<Ast> {
    PostorderAll(a.children) + [a]
  }

  function PostorderAll(cs: seq<Ast>): seq<Ast> {
    if cs == [] then [] else Postorder(cs[0]) + PostorderAll(cs[1..])
  }

  function Nodes(a: Ast): nat {
    1 + NodesAll(a.children)
  }

  function NodesAll(cs: seq<Ast>): nat {
    if cs == [] then 0 else Nodes(cs[0]) + NodesAll(cs[1..])
  }

  /** Both orders list the same nodes, each as often as it stands in the tree. */
  lemma {:induction false} OrdersAgree(a: Ast)
    ensures |Preorder(a)| == |Postorder(a)| == Nodes(a)
    ensures multiset(Preorder(a)) == multiset(Postorder(a))
    decreases a, 1
  {
    OrdersAgreeAll(a.children);
  }

  lemma {:induction false} OrdersAgreeAll(cs: seq<Ast>)
    ensures |PreorderAll(cs)| == |PostorderAll(cs)| == NodesAll(cs)
    ensures multiset(PreorderAll(cs)) == multiset(PostorderAll(cs))
    decreases cs, 0
  {
    if cs != [] {
      OrdersAgree(cs[0]);
      OrdersAgreeAll(cs[1..]);
    }
  }

  datatype Order = Pre | Post

  /** The list begins or ends with the tree's own node, and between stand the trees of the children one after
      the other, each in its own order. */
  ghost predicate Lists(order: Order, a: Ast, s: seq<Ast>)
    decreases a, 1
  {
    && |s| == Nodes(a)
    && if order.Pre? then s[0] == a && ChildrenStand(order, a.children, |a.children|, s[1..])
       else s[|s| - 1] == a && ChildrenStand(order, a.children, |a.children|, s[..|s| - 1])
  }

  ghost predicate ChildrenStand(order: Order, cs: seq<Ast>, n: nat, s: seq<Ast>)
    requires n <= |cs|
    decreases cs, 0
  {
    forall k | 0 <= k < n ::
      var at := NodesAll(cs[..k]);
      at + Nodes(cs[k]) <= |s| && Lists(order, cs[k], s[at..at + Nodes(cs[k])])
  }

  function Listed(a: Ast, order: Order): seq<Ast> {
    if order.Pre? then Preorder(a) else Postorder(a)
  }

  function ListedAll(cs: seq<Ast>, order: Order): seq<Ast> {
    if order.Pre? then PreorderAll(cs) else PostorderAll(cs)
  }

  lemma {:induction false} ListedAppend(xs: seq<Ast>, ys: seq<Ast>, order: Order)
    ensures ListedAll(xs + ys, order) == ListedAll(xs, order) + ListedAll(ys, order)
    ensures NodesAll(xs + ys) == NodesAll(xs) + NodesAll(ys)
  {
    if xs == [] {
      assert xs + ys == ys;
    } else {
      assert (xs + ys)[1..] == xs[1..] + ys;
      ListedAppend(xs[1..], ys, order);
    }
  }

  lemma ListedNext(cs: seq<Ast>, order: Order, k: nat)
    requires k < |cs|
    ensures ListedAll(cs[..k + 1], order) == ListedAll(cs[..k], order) + Listed(cs[k], order)
    ensures NodesAll(cs[..k + 1]) == NodesAll(cs[..k]) + Nodes(cs[k])
    ensures |Listed(cs[k], order)| == Nodes(cs[k]) && |ListedAll(cs[..k], order)| == NodesAll(cs[..k])
  {
    assert cs[..k + 1] == cs[..k] + [cs[k]];
    ListedAppend(cs[..k], [cs[k]], order);
    OneListed(cs[k], order);
    OrdersAgree(cs[k]);
    OrdersAgreeAll(cs[..k]);
  }

  lemma OneListed(a: Ast, order: Order)
    ensures ListedAll([a], order) == Listed(a, order) && NodesAll([a]) == Nodes(a)
  {
    hide Preorder, Postorder, Nodes;
    var none: seq<Ast> := [];
    assert [a][1..] == none && PreorderAll(none) == none && PostorderAll(none) == none;
    assert PreorderAll([a]) == Preorder(a) + none;
    assert PostorderAll([a]) == Postorder(a) + none;
    assert NodesAll([a]) == Nodes(a) + NodesAll(none);
  }

  lemma OneMoreStands(order: Order, cs: seq<Ast>, n: nat, s: seq<Ast>)
    requires 0 < n <= |cs|
    ensures ChildrenStand(order, cs, n, s) <==>
      var at := NodesAll(cs[..n - 1]);
      && ChildrenStand(order, cs, n - 1, s)
      && at + Nodes(cs[n - 1]) <= |s| && Lists(order, cs[n - 1], s[at..at + Nodes(cs[n - 1])])
  {
    hide Lists, Nodes, NodesAll;
  }

  lemma NoneStands(order: Order, cs: seq<Ast>, s: seq<Ast>)
    ensures ChildrenStand(order, cs, 0, s) && NodesAll(cs[..0]) == 0 && ListedAll(cs[..0], order) == []
  {}

  lemma {:induction false} ChildrenListed(order: Order, cs: seq<Ast>, n: nat, s: seq<Ast>)
    requires n <= |cs| && NodesAll(cs[..n]) <= |s|
    ensures ChildrenStand(order, cs, n, s) <==> s[..NodesAll(cs[..n])] == ListedAll(cs[..n], order)
    decreases cs, 0, n
  {
    hide ChildrenStand, Lists, Listed, ListedAll, Nodes, NodesAll;
    if n == 0 {
      NoneStands(order, cs, s);
    } else {
      var m := n - 1;
      ListedNext(cs, order, m);
      OneMoreStands(order, cs, n, s);
      var at, next := NodesAll(cs[..m]), NodesAll(cs[..n]);
      ChildrenListed(order, cs, m, s);
      ListedStands(order, cs[m], s[at..next]);
      SameHalves(s, at, next, ListedAll(cs[..m], order), Listed(cs[m], order));
    }
  }

  /** Each order is the only list in which the nodes stand in this way. */
  lemma {:induction false} ListedStands(order: Order, a: Ast, s: seq<Ast>)
    ensures Lists(order, a, s) <==> s == Listed(a, order)
    decreases a, 1
  {
    OrdersAgree(a);
    OrdersAgreeAll(a.children);
    var cs, n := a.children, |s|;
    assert cs[..|cs|] == cs;
    if n == Nodes(a) {
      var rest := if order.Pre? then s[1..] else s[..n - 1];
      ChildrenListed(order, cs, |cs|, rest);
      assert rest[..|rest|] == rest;
      assert s == if order.Pre? then [s[0]] + rest else rest + [s[n - 1]];
    }
    hide ChildrenStand, ListedAll;
    if s == Listed(a, order) { assert n == Nodes(a); }
  }

  /** The chain of frames from the current node up to the root, each with the index of the
      child that is next or in progress. */
  datatype Frames = Done | Frame(node: Ast, child: nat, parent: Frames)

  /** What preorder still has to list below and beside nodes that were listed already. */
  ghost function Unvisited(t: Frames): seq<Ast> {
    if t.Done? then []
    else (if t.child <= |t.node.children| then PreorderAll(t.node.children[t.child..]) else []) + Unvisited(t.parent)
  }

  /** What postorder still has to list after the child in progress of the first frame. */
  ghost function Unfinished(t: Frames): seq<Ast> {
    if t.Done? then []
    else
      var rest := if t.child < |t.node.children| then PostorderAll(t.node.children[t.child + 1..]) else [];
      rest + [t.node] + Unfinished(t.parent)
  }

  /** Every frame stands at an existing child. */
  predicate InProgress(t: Frames) {
    t.Frame? ==> t.child < |t.node.children| && InProgress(t.parent)
  }

  /** The first frame is about to enter its next child: what follows it in preorder. */
  lemma EnterPre(t: Frames)
    requires t.Frame? && t.child < |t.node.children|
    ensures var c := t.node.children[t.child];
            Unvisited(t) == [c] + Unvisited(Frame(c, 0, t.(child := t.child + 1)))
  {
    var cs := t.node.children;
    var c := cs[t.child];
    assert cs[t.child..][1..] == cs[t.child + 1..];
    assert c.children[0..] == c.children;
    var a, b, u := PreorderAll(c.children), PreorderAll(cs[t.child + 1..]), Unvisited(t.parent);
    assert PreorderAll(cs[t.child..]) == Preorder(c) + b;
    assert Unvisited(t) == ([c] + a) + b + u;
    assert Unvisited(t.(child := t.child + 1)) == b + u;
    assert ([c] + a) + b + u == [c] + (a + (b + u));
  }

  /** What postorder lists from the first frame on, its next child not yet entered. */
  ghost function Pending(t: Frames): seq<Ast>
    requires t.Frame? && t.child <= |t.node.children|
  {
    PostorderAll(t.node.children[t.child..]) + [t.node] + Unfinished(t.parent)
  }

  lemma EnterPost(t: Frames)
    requires t.Frame? && t.child < |t.node.children|
    ensures Pending(t) == Pending(Frame(t.node.children[t.child], 0, t))
  {
    var cs := t.node.children;
    var c := cs[t.child];
    assert cs[t.child..][1..] == cs[t.child + 1..];
    assert c.children[0..] == c.children;
    var a, b, u := PostorderAll(c.children), PostorderAll(cs[t.child + 1..]), Unfinished(t.parent);
    assert PostorderAll(cs[t.child..]) == Postorder(c) + b;
    assert Pending(t) == ((a + [c]) + b) + [t.node] + u;
    assert Unfinished(t) == b + [t.node] + u;
    assert ((a + [c]) + b) + [t.node] + u == a + [c] + (b + [t.node] + u);
  }

  lemma PendingAtStart(ast: Ast)
    ensures Pending(Frame(ast, 0, Done)) == Postorder(ast)
  {}

  class Traversal {
    const order: Order
    var trav: Frames

    /** The nodes the coming calls will return, in order. */
    ghost function Remaining(): seq<Ast>
      reads this`trav
    {
      if trav.Done? then []
      else [trav.node] + if order.Pre? then Unvisited(trav) else Unfinished(trav.parent)
    }

    ghost predicate Valid()
      reads this`trav
    {
      trav.Frame? && order.Post? ==> InProgress(trav.parent)
    }

    constructor Start(ast: Ast, order: Order)
      ensures Valid() && this.order == order
      ensures Remaining() == Listed(ast, order)
    {
      this.order := order;
      trav := Frame(ast, 0, Done);
      new;
      assert ast.children[0..] == ast.children;
      if order.Pre? {
        assert Unvisited(trav) == PreorderAll(ast.children) + [];
      } else {
        PendingAtStart(ast);
        Descend();
      }
    }

    /** Enters first children until a leaf is on top. */
    method Descend()
      requires order.Post? && trav.Frame? && trav.child <= |trav.node.children| && InProgress(trav.parent)
      requires trav.node.children != [] ==> trav.child < |trav.node.children|
      modifies this
      ensures Valid() && Remaining() == old(Pending(trav))
    {
      ghost var all := Pending(trav);
      while |trav.node.children| > 0
        invariant trav.Frame? && trav.child <= |trav.node.children| && InProgress(trav.parent)
        invariant trav.node.children != [] ==> trav.child < |trav.node.children|
        invariant Pending(trav) == all
        decreases trav.node
      {
        EnterPost(trav);
        trav := Frame(trav.node.children[trav.child], 0, trav);
      }
    }

    method Next() returns (node: Part)
      requires Valid()
      modifies this
      ensures Valid()
      ensures old(Remaining()) == [] ==> node == Absent && Remaining() == []
      ensures old(Remaining()) != [] ==> node == Present(old(Remaining())[0]) && Remaining() == old(Remaining())[1..]
    {
      if trav.Done? { return Absent; }
      node := Present(trav.node);
      if order.Pre? {
        NextPre();
      } else {
        NextPost();
      }
    }

    method NextPre()
      requires order.Pre? && trav.Frame?
      modifies this
      ensures Valid() && Remaining() == old(Unvisited(trav))
    {
      ghost var rest := Unvisited(trav);
      while trav.Frame? && trav.child >= |trav.node.children|
        invariant Unvisited(trav) == rest
        decreases trav
      {
        trav := trav.parent;
      }
      if trav.Done? { return; }
      EnterPre(trav);
      trav := Frame(trav.node.children[trav.child], 0, trav.(child := trav.child + 1));
    }

    method NextPost()
      requires Valid() && order.Post? && trav.Frame?
      modifies this
      ensures Valid() && Remaining() == old(Unfinished(trav.parent))
    {
      trav := trav.parent;
      if trav.Done? { return; }
      trav := trav.(child := trav.child + 1);
      if trav.child >= |trav.node.children| { return; }
      Descend();
    }
  }

  lemma SplitAt<T>(s: seq<T>, k: nat)
    requires k <= |s|
    ensures s[k..] == [] <==> k == |s|
    ensures k == |s| ==> s[..k] == s
    ensures k < |s| ==> s[k..][0] == s[k] && s[k..][1..] == s[k + 1..] && s[..k + 1] == s[..k] + [s[k]]
  {}

  /** Calling the iterator until it returns NULL lists the tree in its order: one call for
      every node, and one more. */
  method ListAll(ast: Ast, order: Order) returns (nodes: seq<Ast>, calls: nat)
    ensures nodes == Listed(ast, order) && Lists(order, ast, nodes)
    ensures calls == Nodes(ast) + 1
  {
    ghost var all := Listed(ast, order);
    OrdersAgree(ast);
    ListedStands(order, ast, all);
    assert |all| == Nodes(ast);
    hide *;
    var t := new Traversal.Start(ast, order);
    nodes, calls := [], 0;
    while true
      invariant t.Valid() && fresh(t)
      invariant calls <= |all| && nodes == all[..calls] && t.Remaining() == all[calls..]
      decreases |all| - calls
    {
      SplitAt(all, calls);
      var node := t.Next();
      if node.Absent? { return nodes, calls + 1; }
      nodes := nodes + [node.tree];
      calls := calls + 1;
    }
  }
}
