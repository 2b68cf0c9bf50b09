/** Optimal binary search trees: the tables filled in order of length hold the least cost over
    all trees, and the roots lead to a tree of that cost. */
module OptimalBst {

  /** Keys are the inner nodes, dummy keys the leaves. */
  datatype Bst = Leaf(d: int) | Node(left: Bst, k: int, right: Bst)

  datatype Item = Key(k: int) | Dummy(d: int)

  function Inorder(t: Bst): seq<Item> {
    match t
    case Leaf(d) => [Dummy(d)]
    case Node(l, k, r) => Inorder(l) + [Key(k)] + Inorder(r)
  }

  /** d(i-1), k(i), d(i), ..., k(j), d(j). */
  function Items(i: int, j: int): (s: seq<Item>)
    requires i <= j + 1
    ensures |s| == 2 * (j - i + 1) + 1
  {
    seq(2 * (j - i + 1) + 1, x => if x % 2 == 0 then Dummy(i - 1 + x / 2) else Key(i + x / 2))
  }

  /** t is a search tree on the keys i to j: read from left to right it gives them in order. */
  predicate IsBst(t: Bst, i: int, j: int) {
    i <= j + 1 && Inorder(t) == Items(i, j)
  }

  lemma BstLeaf(t: Bst, i: int, j: int)
    requires IsBst(t, i, j)
    ensures i == j + 1 <==> t.Leaf?
    ensures t.Leaf? ==> t.d == j
  {
    if t.Node? {
      assert |Inorder(t)| > 1 by { InorderNonempty(t.left); }
    } else {
      assert Inorder(t)[0] == Items(i, j)[0];
    }
  }

  lemma InorderNonempty(t: Bst)
    ensures Inorder(t) != []
  {}

  /** The root splits the keys. */
  lemma BstSplit(t: Bst, i: int, j: int)
    requires IsBst(t, i, j) && t.Node?
    ensures i <= t.k <= j && IsBst(t.left, i, t.k - 1) && IsBst(t.right, t.k + 1, j)
  {
    var s, l, r := Items(i, j), Inorder(t.left), Inorder(t.right);
    InorderNonempty(t.right);
    assert s == l + [Key(t.k)] + r;
    assert s[|l|] == Key(t.k);
    assert |l| == 2 * (t.k - i) + 1;
    forall x | 0 <= x < |l| ensures l[x] == Items(i, t.k - 1)[x] {
      assert s[x] == l[x];
    }
    assert l == Items(i, t.k - 1);
    forall x | 0 <= x < |r| ensures r[x] == Items(t.k + 1, j)[x] {
      assert s[|l| + 1 + x] == r[x];
    }
    assert r == Items(t.k + 1, j);
  }

  lemma BstJoin(l: Bst, k: int, r: Bst, i: int, j: int)
    requires i <= k <= j && IsBst(l, i, k - 1) && IsBst(r, k + 1, j)
    ensures IsBst(Node(l, k, r), i, j)
  {}

  // ----- costs -----

  predicate Keys(p: seq<real>, q: seq<real>, i: int, j: int) {
    1 <= i <= j + 1 && j < |p| && j < |q|
  }

  /** A key or dummy key costs its weight times one more than its depth. */
  function Charge(depth: nat, x: real): real {
    (depth + 1) as real * x
  }

  lemma ChargeDeeper(depth: nat, x: real)
    ensures Charge(depth + 1, x) == Charge(depth, x) + x
  {}

  function Cost(p: seq<real>, q: seq<real>, t: Bst, depth: nat): real {
    match t
    case Leaf(d) => if 0 <= d < |q| then Charge(depth, q[d]) else 0.0
    case Node(l, k, r) =>
      (if 0 <= k < |p| then Charge(depth, p[k]) else 0.0) + Cost(p, q, l, depth + 1) + Cost(p, q, r, depth + 1)
  }

  /** The weights from d(i-1) to d(j). */
  function Weight(p: seq<real>, q: seq<real>, i: int, j: int): real
    requires Keys(p, q, i, j)
    decreases j - i + 1
  {
    if j < i then q[i - 1] else Weight(p, q, i, j - 1) + p[j] + q[j]
  }

  lemma {:induction false} WeightSplit(p: seq<real>, q: seq<real>, i: int, r: int, j: int)
    requires Keys(p, q, i, j) && i <= r <= j
    ensures Weight(p, q, i, j) == Weight(p, q, i, r - 1) + p[r] + Weight(p, q, r + 1, j)
    decreases j - r
  {
    if r < j {
      WeightSplit(p, q, i, r, j - 1);
    }
  }

  lemma {:induction false} CostDeeper(p: seq<real>, q: seq<real>, t: Bst, i: int, j: int, depth: nat)
    requires Keys(p, q, i, j) && IsBst(t, i, j)
    ensures Cost(p, q, t, depth + 1) == Cost(p, q, t, depth) + Weight(p, q, i, j)
  {
    BstLeaf(t, i, j);
    CostUnfolds(p, q, t, depth);
    CostUnfolds(p, q, t, depth + 1);
    if t.Node? {
      BstSplit(t, i, j);
      hide *;
      CostDeeper(p, q, t.left, i, t.k - 1, depth + 1);
      CostDeeper(p, q, t.right, t.k + 1, j, depth + 1);
      WeightSplit(p, q, i, t.k, j);
      ChargeDeeper(depth, p[t.k]);
    } else {
      hide Charge;
      ChargeDeeper(depth, q[j]);
    }
  }

  lemma CostUnfolds(p: seq<real>, q: seq<real>, t: Bst, depth: nat)
    ensures t.Leaf? && 0 <= t.d < |q| ==> Cost(p, q, t, depth) == Charge(depth, q[t.d])
    ensures t.Node? && 0 <= t.k < |p| ==>
      Cost(p, q, t, depth) == Charge(depth, p[t.k]) + Cost(p, q, t.left, depth + 1) + Cost(p, q, t.right, depth + 1)
  {}

  lemma CostOfNode(p: seq<real>, q: seq<real>, t: Bst, i: int, j: int)
    requires Keys(p, q, i, j) && IsBst(t, i, j) && t.Node?
    ensures i <= t.k <= j && IsBst(t.left, i, t.k - 1) && IsBst(t.right, t.k + 1, j)
    ensures Cost(p, q, t, 0) == Cost(p, q, t.left, 0) + Cost(p, q, t.right, 0) + Weight(p, q, i, j)
  {
    BstSplit(t, i, j);
    CostDeeper(p, q, t.left, i, t.k - 1, 0);
    CostDeeper(p, q, t.right, t.k + 1, j, 0);
    WeightSplit(p, q, i, t.k, j);
  }

  // ----- the recurrence -----

  /** The least cost found by trying every root. */
  function Opt(p: seq<real>, q: seq<real>, i: int, j: int): real
    requires Keys(p, q, i, j)
    decreases j - i + 1, 1, 0
  {
    if j < i then q[i - 1] else OptUpTo(p, q, i, j, j)
  }

  function Via(p: seq<real>, q: seq<real>, i: int, j: int, r: int): real
    requires Keys(p, q, i, j) && i <= r <= j
    decreases j - i + 1, 0, 0
  {
    Opt(p, q, i, r - 1) + Opt(p, q, r + 1, j) + Weight(p, q, i, j)
  }

  /** The least over the roots i to r. */
  function OptUpTo(p: seq<real>, q: seq<real>, i: int, j: int, r: int): real
    requires Keys(p, q, i, j) && i <= r <= j
    decreases j - i + 1, 0, r - i + 1
  {
    if r == i then Via(p, q, i, j, i)
    else if Via(p, q, i, j, r) < OptUpTo(p, q, i, j, r - 1) then Via(p, q, i, j, r)
    else OptUpTo(p, q, i, j, r - 1)
  }

  /** The first root that gives it. */
  function RootUpTo(p: seq<real>, q: seq<real>, i: int, j: int, r: int): (root: int)
    requires Keys(p, q, i, j) && i <= r <= j
    ensures i <= root <= r
    ensures Via(p, q, i, j, root) == OptUpTo(p, q, i, j, r)
  {
    if r == i then i
    else if Via(p, q, i, j, r) < OptUpTo(p, q, i, j, r - 1) then r
    else RootUpTo(p, q, i, j, r - 1)
  }

  lemma {:induction false} OptIsLeast(p: seq<real>, q: seq<real>, i: int, j: int, r: int, k: int)
    requires Keys(p, q, i, j) && i <= k <= r <= j
    ensures OptUpTo(p, q, i, j, r) <= Via(p, q, i, j, k)
    decreases r
  {
    if k < r {
      OptIsLeast(p, q, i, j, r - 1, k);
    }
  }

  /** No search tree is cheaper. */
  lemma {:induction false} NoTreeIsCheaper(p: seq<real>, q: seq<real>, t: Bst, i: int, j: int)
    requires Keys(p, q, i, j) && IsBst(t, i, j)
    ensures Opt(p, q, i, j) <= Cost(p, q, t, 0)
  {
    BstLeaf(t, i, j);
    if t.Node? {
      CostOfNode(p, q, t, i, j);
      NoTreeIsCheaper(p, q, t.left, i, t.k - 1);
      NoTreeIsCheaper(p, q, t.right, t.k + 1, j);
      OptIsLeast(p, q, i, j, j, t.k);
    }
  }

  /** The tree that the best roots give. */
  function BestTree(p: seq<real>, q: seq<real>, i: int, j: int): Bst
    requires Keys(p, q, i, j)
    decreases j - i + 1
  {
    if j < i then Leaf(j)
    else
      var r := RootUpTo(p, q, i, j, j);
      Node(BestTree(p, q, i, r - 1), r, BestTree(p, q, r + 1, j))
  }

  lemma {:induction false} BestTreeAttains(p: seq<real>, q: seq<real>, i: int, j: int)
    requires Keys(p, q, i, j)
    ensures IsBst(BestTree(p, q, i, j), i, j) && Cost(p, q, BestTree(p, q, i, j), 0) == Opt(p, q, i, j)
    decreases j - i + 1
  {
    var t := BestTree(p, q, i, j);
    if j < i {
      assert Inorder(t) == Items(i, j);
    } else {
      var r := RootUpTo(p, q, i, j, j);
      BestTreeAttains(p, q, i, r - 1);
      BestTreeAttains(p, q, r + 1, j);
      BstJoin(t.left, r, t.right, i, j);
      CostOfNode(p, q, t, i, j);
    }
  }

  /** c is the least cost over all search trees on the keys i to j. */
  ghost predicate IsLeastCost(p: seq<real>, q: seq<real>, i: int, j: int, c: real) {
    && (exists t :: IsBst(t, i, j) && Cost(p, q, t, 0) == c)
    && (forall t :: IsBst(t, i, j) ==> c <= Cost(p, q, t, 0))
  }

  lemma OptIsLeastCost(p: seq<real>, q: seq<real>, i: int, j: int)
    requires Keys(p, q, i, j)
    ensures IsLeastCost(p, q, i, j, Opt(p, q, i, j))
  {
    BestTreeAttains(p, q, i, j);
    forall t | IsBst(t, i, j) ensures Opt(p, q, i, j) <= Cost(p, q, t, 0) {
      NoTreeIsCheaper(p, q, t, i, j);
    }
  }

  // ----- the tables -----

  datatype Number = Infinite | Finite(x: real)

  predicate Less(a: Number, b: Number) {
    a.Finite? && (b.Infinite? || a.x < b.x)
  }

  ghost predicate Tables(p: seq<real>, q: seq<real>, n: nat, e: array2<Number>, w: array2<real>, root: array2<int>) {
    && n < |p| && n < |q|
    && e.Length0 == n + 2 && e.Length1 == n + 1 && w.Length0 == n + 2 && w.Length1 == n + 1
    && root.Length0 == n + 1 && root.Length1 == n + 1
  }

  ghost predicate CellDone(p: seq<real>, q: seq<real>, n: nat, e: array2<Number>, w: array2<real>, root: array2<int>,
      i: int, j: int)
    requires Tables(p, q, n, e, w, root) && 1 <= i <= j + 1 <= n + 1
    reads e, w, root
  {
    && e[i, j] == Finite(Opt(p, q, i, j)) && w[i, j] == Weight(p, q, i, j)
    && (i <= j ==> root[i, j] == RootUpTo(p, q, i, j, j))
  }

  /** The cells for stretches shorter than l keys are done, and of those with l keys the ones that
      begin before key. */
  ghost predicate Done(p: seq<real>, q: seq<real>, n: nat, e: array2<Number>, w: array2<real>, root: array2<int>,
      l: nat, key: int)
    requires Tables(p, q, n, e, w, root)
    reads e, w, root
  {
    forall i, j :: 1 <= i <= j + 1 <= n + 1 && (j - i + 1 < l || (j - i + 1 == l && i < key)) ==>
        CellDone(p, q, n, e, w, root, i, j)
  }

  method OptimalBst(p: seq<real>, q: seq<real>, n: nat) returns (e: array2<Number>, root: array2<int>)
    requires n < |p| && n < |q|
    ensures e.Length0 == n + 2 && e.Length1 == n + 1 && root.Length0 == n + 1 && root.Length1 == n + 1
    ensures forall i, j :: 1 <= i <= j + 1 <= n + 1 ==> e[i, j].Finite? && IsLeastCost(p, q, i, j, e[i, j].x)
    ensures forall i, j :: 1 <= i <= j <= n ==> root[i, j] == RootUpTo(p, q, i, j, j)
  {
    e := new Number[n + 2, n + 1]((i, j) => Finite(0.0));
    var w := new real[n + 2, n + 1]((i, j) => 0.0);
    root := new int[n + 1, n + 1]((i, j) => 0);
    for i := 1 to n + 2
      invariant Done(p, q, n, e, w, root, 0, i)
    {
      FillEmpty(p, q, n, e, w, root, i);
    }
    for l := 1 to n + 1
      invariant Done(p, q, n, e, w, root, l, 1)
    {
      for i := 1 to n - l + 2
        invariant Done(p, q, n, e, w, root, l, i)
      {
        FillCell(p, q, n, e, w, root, i, i + l - 1);
      }
    }
    forall i, j | 1 <= i <= j + 1 <= n + 1 ensures e[i, j].Finite? && IsLeastCost(p, q, i, j, e[i, j].x) {
      assert CellDone(p, q, n, e, w, root, i, j);
      OptIsLeastCost(p, q, i, j);
    }
    forall i, j | 1 <= i <= j <= n ensures root[i, j] == RootUpTo(p, q, i, j, j) {
      assert CellDone(p, q, n, e, w, root, i, j);
    }
  }

  lemma DoneNext(p: seq<real>, q: seq<real>, n: nat, e: array2<Number>, w: array2<real>, root: array2<int>, i: int,
      j: int)
    requires Tables(p, q, n, e, w, root) && 1 <= i <= j + 1 <= n + 1
    requires Done(p, q, n, e, w, root, j - i + 1, i) && CellDone(p, q, n, e, w, root, i, j)
    ensures Done(p, q, n, e, w, root, j - i + 1, i + 1)
  {}

  /** The cell for no keys at all. */
  method FillEmpty(p: seq<real>, q: seq<real>, n: nat, e: array2<Number>, w: array2<real>, root: array2<int>, i: int)
    requires Tables(p, q, n, e, w, root) && 1 <= i <= n + 1 && Done(p, q, n, e, w, root, 0, i)
    modifies e, w
    ensures Done(p, q, n, e, w, root, 0, i + 1)
  {
    e[i, i - 1] := Finite(q[i - 1]);
    w[i, i - 1] := q[i - 1];
    forall a, b | 1 <= a <= b + 1 <= n + 1 && b - a + 1 == 0 && a < i ensures CellDone(p, q, n, e, w, root, a, b) {
      assert old(CellDone(p, q, n, e, w, root, a, b));
    }
  }

  /** The cell for the keys i to j: every root is tried. */
  method FillCell(p: seq<real>, q: seq<real>, n: nat, e: array2<Number>, w: array2<real>, root: array2<int>, i: int,
      j: int)
    requires Tables(p, q, n, e, w, root) && 1 <= i <= j <= n && Done(p, q, n, e, w, root, j - i + 1, i)
    modifies e, w, root
    ensures Done(p, q, n, e, w, root, j - i + 1, i + 1)
  {
    StartCell(p, q, n, e, w, root, i, j);
    hide Done;
    for r := i to j + 1
      invariant TriedUpTo(p, q, n, e, w, root, i, j, r)
      invariant Done(p, q, n, e, w, root, j - i + 1, i)
    {
      TryRoot(p, q, n, e, w, root, i, j, r);
    }
    DoneNext(p, q, n, e, w, root, i, j);
  }

  method StartCell(p: seq<real>, q: seq<real>, n: nat, e: array2<Number>, w: array2<real>, root: array2<int>, i: int,
      j: int)
    requires Tables(p, q, n, e, w, root) && 1 <= i <= j <= n && Done(p, q, n, e, w, root, j - i + 1, i)
    modifies e, w
    ensures Done(p, q, n, e, w, root, j - i + 1, i) && TriedUpTo(p, q, n, e, w, root, i, j, i)
  {
    assert CellDone(p, q, n, e, w, root, i, j - 1);
    assert Weight(p, q, i, j) == Weight(p, q, i, j - 1) + p[j] + q[j];
    e[i, j] := Infinite;
    w[i, j] := w[i, j - 1] + p[j] + q[j];
    hide Opt, OptUpTo, RootUpTo, Weight;
    forall a, b | 1 <= a <= b + 1 <= n + 1 && (b - a < j - i || (b - a == j - i && a < i))
        ensures CellDone(p, q, n, e, w, root, a, b) {
      assert old(CellDone(p, q, n, e, w, root, a, b));
    }
  }

  /** The cell holds the best of the roots before r. */
  ghost predicate TriedUpTo(p: seq<real>, q: seq<real>, n: nat, e: array2<Number>, w: array2<real>, root: array2<int>,
      i: int, j: int, r: int)
    requires Tables(p, q, n, e, w, root) && 1 <= i <= j <= n && i <= r <= j + 1
    reads e, w, root
  {
    && w[i, j] == Weight(p, q, i, j)
    && (r == i ==> e[i, j] == Infinite)
    && (r != i ==> e[i, j] == Finite(OptUpTo(p, q, i, j, r - 1)) && root[i, j] == RootUpTo(p, q, i, j, r - 1))
  }

  method TryRoot(p: seq<real>, q: seq<real>, n: nat, e: array2<Number>, w: array2<real>, root: array2<int>, i: int,
      j: int, r: int)
    requires Tables(p, q, n, e, w, root) && 1 <= i <= j <= n && i <= r <= j
    requires Done(p, q, n, e, w, root, j - i + 1, i) && TriedUpTo(p, q, n, e, w, root, i, j, r)
    modifies e, root
    ensures Done(p, q, n, e, w, root, j - i + 1, i) && TriedUpTo(p, q, n, e, w, root, i, j, r + 1)
  {
    assert CellDone(p, q, n, e, w, root, i, r - 1) && CellDone(p, q, n, e, w, root, r + 1, j);
    var best := Finite(e[i, r - 1].x + e[r + 1, j].x + w[i, j]);
    assert Finite(OptUpTo(p, q, i, j, r)) == if Less(best, e[i, j]) then best else e[i, j];
    assert RootUpTo(p, q, i, j, r) == if Less(best, e[i, j]) then r else root[i, j];
    if Less(best, e[i, j]) {
      e[i, j] := best;
      root[i, j] := r;
      hide Opt, OptUpTo, RootUpTo, Weight;
      forall a, b | 1 <= a <= b + 1 <= n + 1 && (b - a < j - i || (b - a == j - i && a < i))
          ensures CellDone(p, q, n, e, w, root, a, b) {
        assert old(CellDone(p, q, n, e, w, root, a, b));
      }
    }
  }

  // ----- the tree as it is printed -----

  datatype Dir = Root | LeftChild | RightChild

  datatype Line = Line(item: Item, dir: Dir, parent: int)

  /** One line for every node, before those of its children. */
  function Describe(t: Bst, parent: int, dir: Dir): (s: seq<Line>)
    ensures s != []
  {
    match t
    case Leaf(d) => [Line(Dummy(d), dir, parent)]
    case Node(l, k, r) =>
      [Line(Key(k), dir, if dir == Root then 0 else parent)] + Describe(l, k, LeftChild) + Describe(r, k, RightChild)
  }

  /** The tree s stands somewhere in t. */
  predicate Within(t: Bst, s: Bst) {
    t == s || (t.Node? && (Within(t.left, s) || Within(t.right, s)))
  }

  function Top(t: Bst): Item {
    if t.Node? then Key(t.k) else Dummy(t.d)
  }

  /** The item is on top of the left or the right subtree of the key's node. */
  ghost predicate IsChild(t: Bst, item: Item, dir: Dir, key: int) {
    exists s ::
      && Within(t, s) && s.Node? && s.k == key
      && ((dir == LeftChild && item == Top(s.left)) || (dir == RightChild && item == Top(s.right)))
  }

  /** There is a line for the tree itself, and one for every child in it, and no other. */
  ghost predicate Tells(t: Bst, parent: int, dir: Dir, lines: seq<Line>) {
    forall line :: line in lines <==>
      || line == Line(Top(t), dir, if dir == Root && t.Node? then 0 else parent)
      || IsChild(t, line.item, line.dir, line.parent)
  }

  lemma AllLinesTell(t: Bst, parent: int, dir: Dir)
    ensures Tells(t, parent, dir, Describe(t, parent, dir))
  {
    forall line ensures line in Describe(t, parent, dir) <==>
        line == Line(Top(t), dir, if dir == Root && t.Node? then 0 else parent)
          || IsChild(t, line.item, line.dir, line.parent) {
      LinesTell(t, parent, dir, line);
    }
  }

  lemma DescribeUnfolds(t: Bst, parent: int, dir: Dir)
    ensures Describe(t, parent, dir) ==
      if t.Leaf? then [Line(Dummy(t.d), dir, parent)]
      else
        var first := Line(Key(t.k), dir, if dir == Root then 0 else parent);
        [first] + Describe(t.left, t.k, LeftChild) + Describe(t.right, t.k, RightChild)
  {}

  lemma BestTreeUnfolds(p: seq<real>, q: seq<real>, i: int, j: int)
    requires Keys(p, q, i, j)
    ensures BestTree(p, q, i, j) ==
      if j < i then Leaf(j)
      else
        var r := RootUpTo(p, q, i, j, j);
        Node(BestTree(p, q, i, r - 1), r, BestTree(p, q, r + 1, j))
  {}

  lemma {:induction false} LinesTell(t: Bst, parent: int, dir: Dir, line: Line)
    ensures line in Describe(t, parent, dir) <==>
        line == Line(Top(t), dir, if dir == Root && t.Node? then 0 else parent)
            || IsChild(t, line.item, line.dir, line.parent)
  {
    ChildrenBelow(t, line.item, line.dir, line.parent);
    if t.Node? {
      LinesTell(t.left, t.k, LeftChild, line);
      LinesTell(t.right, t.k, RightChild, line);
    }
    hide IsChild;
  }

  lemma ChildrenBelow(t: Bst, item: Item, dir: Dir, key: int)
    ensures IsChild(t, item, dir, key) <==>
        && t.Node?
        && (IsChild(t.left, item, dir, key) || IsChild(t.right, item, dir, key)
            || (key == t.k && dir == LeftChild && item == Top(t.left))
            || (key == t.k && dir == RightChild && item == Top(t.right)))
  {
    if IsChild(t, item, dir, key) {
      var s :| Within(t, s) && s.Node? && s.k == key
        && ((dir == LeftChild && item == Top(s.left)) || (dir == RightChild && item == Top(s.right)));
      assert s == t || Within(t.left, s) || Within(t.right, s);
    } else if t.Node? {
      forall s | Within(t.left, s) || Within(t.right, s) ensures Within(t, s) {}
      assert Within(t, t);
    }
  }

  /** The lines tell the tree. */
  lemma {:induction false} DescribeTells(t: Bst, u: Bst, parent: int, dir: Dir, x: seq<Line>, y: seq<Line>)
    requires Describe(t, parent, dir) + x == Describe(u, parent, dir) + y
    ensures t == u && x == y
  {
    DescribeSplits(t, parent, dir, x);
    DescribeSplits(u, parent, dir, y);
    if t.Node? {
      hide Describe;
      DescribeTells(t.left, u.left, t.k, LeftChild, Describe(t.right, t.k, RightChild) + x,
          Describe(u.right, u.k, RightChild) + y);
      DescribeTells(t.right, u.right, t.k, RightChild, x, y);
    }
  }

  /** The first line and the others, in front of x. */
  lemma DescribeSplits(t: Bst, parent: int, dir: Dir, x: seq<Line>)
    ensures var a := Describe(t, parent, dir) + x;
      match t
      case Leaf(d) => a[0] == Line(Dummy(d), dir, parent) && a[1..] == x
      case Node(l, k, r) =>
        && a[0] == Line(Key(k), dir, if dir == Root then 0 else parent)
        && a[1..] == Describe(l, k, LeftChild) + (Describe(r, k, RightChild) + x)
  {
    if t.Node? {
      FirstOfFour(Line(Key(t.k), dir, if dir == Root then 0 else parent), Describe(t.left, t.k, LeftChild),
          Describe(t.right, t.k, RightChild), x);
    }
  }

  lemma FirstOfFour<T>(a: T, b: seq<T>, c: seq<T>, d: seq<T>)
    ensures ([a] + b + c + d)[0] == a && ([a] + b + c + d)[1..] == b + (c + d)
  {}

  /** Prints the tree for the keys i to j: a search tree of least cost. */
  method ConstructOptimalBst(p: seq<real>, q: seq<real>, n: nat, i: int, j: int, root: array2<int>, parent: int,
      dir: Dir) returns (lines: seq<Line>)
    requires n < |p| && n < |q| && 1 <= i <= j + 1 <= n + 1 && root.Length0 == n + 1 && root.Length1 == n + 1
    requires forall a, b :: 1 <= a <= b <= n ==> root[a, b] == RootUpTo(p, q, a, b, b)
    ensures lines == Describe(BestTree(p, q, i, j), parent, dir)
    ensures Tells(BestTree(p, q, i, j), parent, dir, lines)
    decreases j - i + 1
  {
    hide Tells, BestTree, Opt, OptUpTo, Via, RootUpTo, Weight, Describe;
    BestTreeUnfolds(p, q, i, j);
    AllLinesTell(BestTree(p, q, i, j), parent, dir);
    DescribeUnfolds(BestTree(p, q, i, j), parent, dir);
    if i > j {
      return [Line(Dummy(j), dir, parent)];
    }
    var childIdx := root[i, j];
    var out := [Line(Key(childIdx), dir, if dir == Root then 0 else parent)];
    var left := ConstructOptimalBst(p, q, n, i, childIdx - 1, root, childIdx, LeftChild);
    var right := ConstructOptimalBst(p, q, n, childIdx + 1, j, root, childIdx, RightChild);
    return out + left + right;
  }
}
