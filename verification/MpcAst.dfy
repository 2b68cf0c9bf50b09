/** The syntax trees of mpc and the fold that glues the results of a sequence into one tree. */
module MpcAst {
  import opened Slices

  datatype Position = Position(pos: nat, row: nat, col: nat)

  const START: Position := Position(0, 0, 0)

  datatype Ast = Ast(tag: string, contents: string, state: Position, children: seq<Ast>)

  /** A tree pointer that may be NULL. */
  datatype Part = Absent | Present(tree: Ast)

  /** Glues all but the last character of t in front of the tag. The source computes
      strlen(t) - 1 in an unsigned type, so it has no meaning for an empty t: see Foldable. */
  function AddRootTag(a: Ast, t: string): Ast {
    if t == "" then a else a.(tag := t[..|t| - 1] + a.tag)
  }

  /** A part whose tree may be glued: an only child takes its prefix from a non-empty tag. */
  predicate Foldable(part: Part) {
    part.Present? && |part.tree.children| == 1 ==> part.tree.tag != ""
  }

  predicate AllFoldable(parts: seq<Part>) {
    forall part | part in parts :: Foldable(part)
  }

  /** The trees one part contributes to the list of children. */
  function Flatten(part: Part): seq<Ast> {
    if part.Absent? then []
    else if |part.tree.children| == 0 then [part.tree]
    else if |part.tree.children| == 1 then [AddRootTag(part.tree.children[0], part.tree.tag)]
    else part.tree.children
  }

  function FlattenAll(parts: seq<Part>): seq<Ast> {
    if parts == [] then [] else Flatten(parts[0]) + FlattenAll(parts[1..])
  }

  function Root(children: seq<Ast>): Ast {
    Ast(">", "", if children == [] then START else children[0].state, children)
  }

  /** No more than one part can matter: the fold returns a part unchanged. */
  predicate Short(parts: seq<Part>) {
    |parts| <= 1 || (|parts| == 2 && (parts[0].Absent? || parts[1].Absent?))
  }

  function FoldAst(parts: seq<Part>): Part {
    if |parts| == 0 then Absent
    else if |parts| == 1 then parts[0]
    else if |parts| == 2 && parts[1].Absent? then parts[0]
    else if |parts| == 2 && parts[0].Absent? then parts[1]
    else Present(Root(FlattenAll(parts)))
  }

  // ----- where the parts stand in the fold -----

  /** How many children a part leaves in the new root. */
  function Width(part: Part): nat {
    if part.Absent? then 0 else if part.tree.children == [] then 1 else |part.tree.children|
  }

  /** The index of the first child that the part i leaves. */
  function Offset(parts: seq<Part>, i: nat): nat
    requires i <= |parts|
  {
    if i == 0 then 0 else Offset(parts, i - 1) + Width(parts[i - 1])
  }

  /** The tree b is the child with all but the last character of t before its tag, and otherwise as it was. */
  predicate Glued(b: Ast, t: string, child: Ast) {
    && t != "" && b.contents == child.contents && b.state == child.state && b.children == child.children
    && |b.tag| + 1 == |t| + |child.tag|
    && (forall k | 0 <= k < |t| - 1 :: b.tag[k] == t[k])
    && (forall k | 0 <= k < |child.tag| :: b.tag[|t| - 1 + k] == child.tag[k])
  }

  /** What the part leaves stands in a list of children from the index at on: a leaf itself, an only
      child with its parent's tag glued on, or more children one after the other. */
  predicate StandsAt(part: Part, children: seq<Ast>, at: nat) {
    && at + Width(part) <= |children|
    && (part.Present? ==>
          var a := part.tree;
          && (|a.children| == 0 ==> children[at] == a)
          && (|a.children| == 1 ==> Glued(children[at], a.tag, a.children[0]))
          && (|a.children| >= 2 ==> forall k | 0 <= k < |a.children| :: children[at + k] == a.children[k]))
  }

  predicate AllStand(parts: seq<Part>, children: seq<Ast>, n: nat)
    requires n <= |parts|
  {
    forall i | 0 <= i < n :: StandsAt(parts[i], children, Offset(parts, i))
  }

  /** The tree r is the fold of the parts: the only one that can matter, or a root in which every part
      has its place and nothing else stands. */
  predicate IsFold(parts: seq<Part>, r: Part) {
    if |parts| == 0 then r.Absent?
    else if |parts| == 1 then r == parts[0]
    else if |parts| == 2 && parts[1].Absent? then r == parts[0]
    else if |parts| == 2 && parts[0].Absent? then r == parts[1]
    else
      && r.Present? && r.tree.tag == ">" && r.tree.contents == ""
      && |r.tree.children| == Offset(parts, |parts|)
      && AllStand(parts, r.tree.children, |parts|)
      && r.tree.state == if r.tree.children == [] then START else r.tree.children[0].state
  }

  lemma GluedIsAdded(b: Ast, t: string, child: Ast)
    requires t != ""
    ensures Glued(b, t, child) <==> b == AddRootTag(child, t)
  {
    var tag := t[..|t| - 1] + child.tag;
    if Glued(b, t, child) {
      forall k | 0 <= k < |b.tag| ensures b.tag[k] == tag[k] {
        if k >= |t| - 1 { assert b.tag[|t| - 1 + (k - (|t| - 1))] == child.tag[k - (|t| - 1)]; }
      }
      assert b.tag == tag;
    }
  }

  lemma PartStands(part: Part, children: seq<Ast>, at: nat)
    requires Foldable(part) && at + Width(part) <= |children|
    ensures |Flatten(part)| == Width(part)
    ensures StandsAt(part, children, at) <==> children[at..at + Width(part)] == Flatten(part)
  {
    if part.Present? && |part.tree.children| == 1 {
      GluedIsAdded(children[at], part.tree.tag, part.tree.children[0]);
      hide Glued, AddRootTag;
    }
  }

  lemma {:induction false} PartsStand(parts: seq<Part>, children: seq<Ast>, n: nat)
    requires n <= |parts| && AllFoldable(parts) && Offset(parts, n) <= |children|
    ensures |FlattenAll(parts[..n])| == Offset(parts, n)
    ensures AllStand(parts, children, n) <==> children[..Offset(parts, n)] == FlattenAll(parts[..n])
    decreases n
  {
    hide AllStand, StandsAt, Flatten, FlattenAll, Width;
    OneMoreStands(parts, children, n);
    if n == 0 {
      NothingFlattened();
    } else {
      var m := n - 1;
      PartsStand(parts, children, m);
      FlattenNext(parts, m);
      assert parts[m] in parts;
      PartStands(parts[m], children, Offset(parts, m));
      hide *;
      SameHalves(children, Offset(parts, m), Offset(parts, n), FlattenAll(parts[..m]), Flatten(parts[m]));
    }
  }

  lemma OneMoreStands(parts: seq<Part>, children: seq<Ast>, n: nat)
    requires n <= |parts|
    ensures AllStand(parts, children, n) <==>
        n == 0 || (AllStand(parts, children, n - 1) && StandsAt(parts[n - 1], children, Offset(parts, n - 1)))
  {
    hide StandsAt, Offset;
  }

  /** The fold is the only tree in which the parts stand in this way. */
  lemma FoldStands(parts: seq<Part>, r: Part)
    requires Short(parts) || AllFoldable(parts)
    ensures IsFold(parts, r) <==> r == FoldAst(parts)
  {
    if !Short(parts) {
      LengthStands(parts);
      if r.Present? && |r.tree.children| == Offset(parts, |parts|) { WholeStands(parts, r.tree.children); }
      hide AllStand, FlattenAll, AllFoldable, Offset;
    }
  }

  lemma WholeStands(parts: seq<Part>, children: seq<Ast>)
    requires AllFoldable(parts) && |children| == Offset(parts, |parts|)
    ensures AllStand(parts, children, |parts|) <==> children == FlattenAll(parts)
  {
    PartsStand(parts, children, |parts|);
    hide *;
    assert parts[..|parts|] == parts && children[..|children|] == children;
  }

  lemma LengthStands(parts: seq<Part>)
    requires AllFoldable(parts)
    ensures |FlattenAll(parts)| == Offset(parts, |parts|)
  {
    var some := seq(Offset(parts, |parts|), _ => Ast("", "", START, []));
    PartsStand(parts, some, |parts|);
    assert parts[..|parts|] == parts;
  }

  /** The inner loop: the trees of one part, behind those there already. */
  method AppendPart(before: seq<Ast>, a: Ast) returns (children: seq<Ast>)
    ensures children == before + Flatten(Present(a))
  {
    if |a.children| == 0 { return before + [a]; }
    if |a.children| == 1 { return before + [AddRootTag(a.children[0], a.tag)]; }
    children := before;
    var j := 0;
    while j < |a.children|
      invariant 0 <= j <= |a.children|
      invariant children == before + a.children[..j]
    {
      children := children + [a.children[j]];
      j := j + 1;
    }
    assert a.children[..j] == a.children;
  }

  /** The fold as the loops that append children to the new root. */
  method FoldAstLoop(parts: seq<Part>) returns (r: Part)
    requires Short(parts) || AllFoldable(parts)
    ensures r == FoldAst(parts) && IsFold(parts, r)
  {
    hide IsFold, FlattenAll, AllFoldable;
    FoldStands(parts, FoldAst(parts));
    var n := |parts|;
    if n == 0 { return Absent; }
    if n == 1 { return parts[0]; }
    if n == 2 && parts[1].Absent? { return parts[0]; }
    if n == 2 && parts[0].Absent? { return parts[1]; }
    var root := Ast(">", "", START, []);
    NothingFlattened();
    var i := 0;
    while i < n
      invariant 0 <= i <= n
      invariant root == Ast(">", "", START, FlattenAll(parts[..i]))
    {
      FlattenNext(parts, i);
      if parts[i].Present? {
        var after := AppendPart(root.children, parts[i].tree);
        root := root.(children := after);
      }
      i := i + 1;
    }
    assert parts[..n] == parts;
    if root.children != [] {
      root := root.(state := root.children[0].state);
    }
    return Present(root);
  }

  lemma NothingFlattened()
    ensures FlattenAll([]) == []
  {}

  lemma {:induction false} FlattenAllAppend(a: seq<Part>, b: seq<Part>)
    ensures FlattenAll(a + b) == FlattenAll(a) + FlattenAll(b)
  {
    if a == [] {
      assert a + b == b;
    } else {
      assert (a + b)[1..] == a[1..] + b;
      FlattenAllAppend(a[1..], b);
    }
  }

  lemma FlattenNext(parts: seq<Part>, i: nat)
    requires i < |parts|
    ensures FlattenAll(parts[..i + 1]) == FlattenAll(parts[..i]) + Flatten(parts[i])
  {
    assert parts[..i + 1] == parts[..i] + [parts[i]];
    FlattenAllAppend(parts[..i], [parts[i]]);
    FlattenOne(parts[i]);
  }

  predicate AllAbsent(parts: seq<Part>) {
    forall part | part in parts :: part.Absent?
  }

  lemma {:induction false} FlattenAllEmpty(parts: seq<Part>)
    ensures FlattenAll(parts) == [] <==> AllAbsent(parts)
  {
    if parts != [] {
      FlattenAllEmpty(parts[1..]);
      assert parts == [parts[0]] + parts[1..];
    }
  }

  /** The tree a fold would build from this tree alone is this very tree. */
  predicate IsPlainRoot(a: Ast) {
    a.tag == ">" && a.contents == "" && a.children != [] && a.state == a.children[0].state
  }

  /** A plain root is what a fold over one part rebuilds, and nothing else is. */
  lemma RootRebuilds(a: Ast)
    ensures Root(Flatten(Present(a))) == a <==> IsPlainRoot(a)
  {
    var r := Root(Flatten(Present(a)));
    if |a.children| == 0 {
      assert r.children != a.children;
    } else if |a.children| == 1 {
      var c := a.children[0];
      if a.tag == ">" {
        assert AddRootTag(c, a.tag) == c;
        assert r.children == a.children;
      }
    } else {
      assert r.children == a.children;
    }
  }

  lemma FlattenOne(a: Part)
    ensures FlattenAll([a]) == Flatten(a)
  {}

  lemma FlattenTwo(a: Part, b: Part)
    ensures FlattenAll([a, b]) == Flatten(a) + Flatten(b)
  {
    assert [a, b][1..] == [b];
    FlattenOne(b);
  }

  lemma FlattenThree(a: Part, b: Part, c: Part)
    ensures FlattenAll([a, b, c]) == Flatten(a) + Flatten(b) + Flatten(c)
  {
    assert [a, b, c][1..] == [b, c];
    FlattenTwo(b, c);
  }

  lemma FlattenOfRoot(children: seq<Ast>)
    ensures Flatten(Present(Root(children))) == if children == [] then [Root([])] else children
  {
    if |children| == 1 {
      assert AddRootTag(children[0], ">") == children[0];
    }
  }

  /** A folded group contributes the same children as its parts did, except when three or
      more parts were all absent: then the group is an empty root and counts as a leaf. */
  lemma FoldContributes(parts: seq<Part>)
    ensures Flatten(FoldAst(parts)) ==
            if |parts| >= 3 && AllAbsent(parts) then [Root([])] else FlattenAll(parts)
  {
    hide FlattenAll, AllAbsent;
    FlattenAllEmpty(parts);
    if |parts| == 0 {
      assert parts == [];
      NothingFlattened();
    } else if |parts| == 1 {
      assert parts == [parts[0]];
      FlattenOne(parts[0]);
    } else if |parts| == 2 {
      assert parts == [parts[0], parts[1]];
      PairContributes(parts[0], parts[1]);
    } else {
      hide Flatten;
      FlattenOfRoot(FlattenAll(parts));
    }
  }

  lemma PairContributes(a: Part, b: Part)
    ensures Flatten(FoldAst([a, b])) == FlattenAll([a, b])
  {
    hide FlattenAll;
    FlattenTwo(a, b);
    if a.Present? && b.Present? {
      NotEmpty(a.tree);
      hide Flatten;
      FlattenOfRoot(FlattenAll([a, b]));
    }
  }

  lemma NotEmpty(a: Ast)
    ensures Flatten(Present(a)) != []
  {}

  /** How many parts are present. */
  function Presents(parts: seq<Part>): nat {
    if parts == [] then 0 else (if parts[0].Present? then 1 else 0) + Presents(parts[1..])
  }

  /** A pair inside a pair with at most one present part: both folds return that part as it
      is, the flat fold of three parts wraps it in a root. */
  predicate WrapsLoneTree(pre: seq<Part>, group: seq<Part>, post: seq<Part>) {
    |group| == 2 && |pre + post| == 1 && Lone(pre + group + post)
  }

  /** At most one part is present, and it is not a plain root. */
  predicate Lone(parts: seq<Part>) {
    Presents(parts) <= 1 && forall part | part in parts && part.Present? :: !IsPlainRoot(part.tree)
  }

  /** Three or more absent parts inside a larger sequence: the nested fold leaves an empty
      root behind that the flat fold never builds. */
  predicate LeavesEmptyRoot(pre: seq<Part>, group: seq<Part>, post: seq<Part>) {
    |group| >= 3 && AllAbsent(group) && pre + post != [] && pre + post != [Absent]
  }

  /** Flattening a nested group gives the identical tree exactly outside the two cases above. */
  lemma RegroupExactly(pre: seq<Part>, group: seq<Part>, post: seq<Part>)
    requires group != []
    ensures FoldAst(pre + [FoldAst(group)] + post) == FoldAst(pre + group + post)
       <==> !WrapsLoneTree(pre, group, post) && !LeavesEmptyRoot(pre, group, post)
  {
    var inner := FoldAst(group);
    if |group| == 1 {
      assert pre + [inner] + post == pre + group + post;
    } else if pre + post == [] {
      assert pre + [inner] + post == [inner] && pre + group + post == group;
    } else if |pre + post| == 1 {
      RegroupBesideOne(pre, group, post);
    } else {
      FlattenSplit(pre, group, post);
      FlattenSplit(pre, [inner], post);
      FoldContributes(group);
      FlattenOne(inner);
      if |group| >= 3 && AllAbsent(group) {
        FlattenAllEmpty(group);
        assert |FlattenAll(pre + [inner] + post)| == |FlattenAll(pre + group + post)| + 1;
      }
    }
  }

  lemma FlattenSplit(pre: seq<Part>, mid: seq<Part>, post: seq<Part>)
    ensures FlattenAll(pre + mid + post) == FlattenAll(pre) + FlattenAll(mid) + FlattenAll(post)
  {
    FlattenAllAppend(pre, mid);
    FlattenAllAppend(pre + mid, post);
  }

  lemma RegroupBesideOne(pre: seq<Part>, group: seq<Part>, post: seq<Part>)
    requires |group| >= 2 && |pre + post| == 1
    ensures FoldAst(pre + [FoldAst(group)] + post) == FoldAst(pre + group + post)
       <==> !WrapsLoneTree(pre, group, post) && !LeavesEmptyRoot(pre, group, post)
  {
    hide FoldAst, Presents, IsPlainRoot;
    var side := (pre + post)[0];
    assert (pre == [side] && post == []) || (pre == [] && post == [side]);
    if |group| == 2 {
      FoldContributes(group);
      var a, b := group[0], group[1];
      assert group == [a, b];
      RegroupPair(side, a, b);
      var nested, flat := pre + [FoldAst(group)] + post, pre + group + post;
      assert nested == if pre == [] then [FoldAst([a, b]), side] else [side, FoldAst([a, b])];
      assert flat == if pre == [] then [a, b, side] else [side, a, b];
      assert FoldAst(nested) == FoldAst(flat) <==> !Lone(flat);
    } else {
      RegroupLongBesideOne(group, side);
      assert pre + [FoldAst(group)] + post == if pre == [] then [FoldAst(group), side] else [side, FoldAst(group)];
      assert pre + group + post == if pre == [] then group + [side] else [side] + group;
    }
  }

  lemma RegroupLongBesideOne(group: seq<Part>, side: Part)
    requires |group| >= 3
    ensures FoldAst([FoldAst(group), side]) == FoldAst(group + [side]) <==> !(AllAbsent(group) && side.Present?)
    ensures FoldAst([side, FoldAst(group)]) == FoldAst([side] + group) <==> !(AllAbsent(group) && side.Present?)
  {
    FoldContributes(group);
    FlattenAllEmpty(group);
    FlattenOne(side);
    FlattenAllAppend(group, [side]);
    FlattenAllAppend([side], group);
    FlattenTwo(side, FoldAst(group));
    FlattenTwo(FoldAst(group), side);
    if side.Present? && AllAbsent(group) {
      assert |FoldAst(group + [side]).tree.children| != |FoldAst([FoldAst(group), side]).tree.children|;
      assert |FoldAst([side] + group).tree.children| != |FoldAst([side, FoldAst(group)]).tree.children|;
    }
  }

  /** A pair beside one more part, on either side. */
  lemma RegroupPair(side: Part, a: Part, b: Part)
    requires Flatten(FoldAst([a, b])) == FlattenAll([a, b])
    ensures FoldAst([side, FoldAst([a, b])]) == FoldAst([side, a, b]) <==> !Lone([side, a, b])
    ensures FoldAst([FoldAst([a, b]), side]) == FoldAst([a, b, side]) <==> !Lone([a, b, side])
  {
    ThreePresents([side, a, b]);
    ThreePresents([a, b, side]);
    FlattenTwo(a, b);
    FlattenThree(side, a, b); FlattenThree(a, b, side);
    FlattenTwo(side, FoldAst([a, b])); FlattenTwo(FoldAst([a, b]), side);
    if side.Present? { RootRebuilds(side.tree); }
    if a.Present? { RootRebuilds(a.tree); }
    if b.Present? { RootRebuilds(b.tree); }
  }

  lemma ThreePresents(parts: seq<Part>)
    requires |parts| == 3
    ensures Presents(parts) == (if parts[0].Present? then 1 else 0)
                             + (if parts[1].Present? then 1 else 0)
                             + (if parts[2].Present? then 1 else 0)
    ensures forall part :: part in parts <==> part == parts[0] || part == parts[1] || part == parts[2]
  {
    assert Presents(parts[2..]) == (if parts[2].Present? then 1 else 0) + Presents(parts[2..][1..]);
    assert parts[1..][1..] == parts[2..];
  }

  lemma {:induction false} PresentsAppend(a: seq<Part>, b: seq<Part>)
    ensures Presents(a + b) == Presents(a) + Presents(b)
  {
    if a == [] {
      assert a + b == b;
    } else {
      assert (a + b)[1..] == a[1..] + b;
      PresentsAppend(a[1..], b);
    }
  }

  lemma {:induction false} NonePresent(parts: seq<Part>)
    ensures Presents(parts) == 0 <==> AllAbsent(parts)
  {
    if parts != [] {
      NonePresent(parts[1..]);
      assert parts == [parts[0]] + parts[1..];
      assert AllAbsent(parts) <==> parts[0].Absent? && AllAbsent(parts[1..]);
    }
  }

  /** Enough of the n parts of a group are present, k of them, to flatten it anywhere: two, or
      one of three or more; a group of one part is no group. */
  predicate Enough(n: nat, k: nat) {
    n == 1 || k >= 2 || (n >= 3 && k >= 1)
  }

  /** A group with enough present parts may be flattened whatever stands around it. */
  lemma RegroupWithEnough(pre: seq<Part>, group: seq<Part>, post: seq<Part>)
    requires group != [] && Enough(|group|, Presents(group))
    ensures FoldAst(pre + [FoldAst(group)] + post) == FoldAst(pre + group + post)
  {
    RegroupExactly(pre, group, post);
    NonePresent(group);
    PresentsAppend(pre, group);
    PresentsAppend(pre + group, post);
  }
}
