/** Folding results group by group and folding them all at once, for any nesting of groups. */
module MpcNear {
  import opened Options
  import opened MpcAst
  import opened MpcParser
  import opened MpcRules

  /** The first result that is not NULL, if there is one. */
  function Only(vs: seq<Val>): Val {
    if vs == [] then Null else if vs[0].Null? then Only(vs[1..]) else vs[0]
  }

  /** v is the root over all that the results vs contribute. */
  ghost predicate IsRootOf(v: Val, vs: seq<Val>) {
    AllTreeOrNull(vs) && v == Tree(Root(FlattenAll(AsParts(vs))))
  }

  /** v may come from folding vs in nested groups: NULL for nothing, a lone result itself or, when
      there are three or more, a root around it, and the root over all for two and more. */
  ghost predicate NearTree(v: Val, vs: seq<Val>) {
    if NonNulls(vs) == 0 then v == Null
    else if NonNulls(vs) == 1 then v == Only(vs) || (|vs| >= 3 && IsRootOf(v, vs))
    else IsRootOf(v, vs)
  }

  ghost predicate NearStr(v: Val, vs: seq<Val>) {
    if v.Str? then AllStr(vs) && v.s == Concat(vs) else vs == [v]
  }

  ghost predicate Near(f: Fold, v: Val, vs: seq<Val>) {
    if f.FoldTree? then NearTree(v, vs) else NearStr(v, vs)
  }

  function Joined(vss: seq<seq<Val>>): seq<Val> {
    if vss == [] then [] else vss[0] + Joined(vss[1..])
  }

  lemma JoinedShort(vss: seq<seq<Val>>)
    requires 1 <= |vss| <= 2
    ensures Joined(vss) == if |vss| == 1 then vss[0] else vss[0] + vss[1]
  {
    assert Joined(vss) == vss[0] + Joined(vss[1..]);
    if |vss| == 2 { assert Joined(vss[1..]) == vss[1] + Joined(vss[1..][1..]); }
  }

  // ----- appending -----

  lemma {:induction false} NonNullsAppend(a: seq<Val>, b: seq<Val>)
    ensures NonNulls(a + b) == NonNulls(a) + NonNulls(b)
    ensures Only(a + b) == if NonNulls(a) == 0 then Only(b) else Only(a)
    ensures NonNulls(a) == 0 ==> Only(a) == Null
  {
    if a == [] {
      assert a + b == b;
    } else {
      assert (a + b)[1..] == a[1..] + b;
      NonNullsAppend(a[1..], b);
    }
  }

  lemma TreesAppend(a: seq<Val>, b: seq<Val>)
    ensures AllTreeOrNull(a + b) <==> AllTreeOrNull(a) && AllTreeOrNull(b)
    ensures FlattenAll(AsParts(a + b)) == FlattenAll(AsParts(a)) + FlattenAll(AsParts(b))
  {
    hide TreeOrNull;
    assert AsParts(a + b) == AsParts(a) + AsParts(b);
    FlattenAllAppend(AsParts(a), AsParts(b));
    if AllTreeOrNull(a + b) {
      assert forall i | 0 <= i < |a| :: a[i] == (a + b)[i];
      assert forall i | 0 <= i < |b| :: b[i] == (a + b)[|a| + i];
    }
  }

  lemma {:induction false} NullsContributeNothing(vs: seq<Val>)
    requires NonNulls(vs) == 0
    ensures AllTreeOrNull(vs) && FlattenAll(AsParts(vs)) == []
  {
    if vs != [] {
      NullsContributeNothing(vs[1..]);
      TreesAppend([vs[0]], vs[1..]);
      assert vs == [vs[0]] + vs[1..];
      OneContributes(vs[0]);
    }
  }

  lemma OneContributes(v: Val)
    ensures FlattenAll(AsParts([v])) == Flatten(AsPart(v)) && (AllTreeOrNull([v]) <==> TreeOrNull(v))
    ensures NonNulls([v]) == (if v.Null? then 0 else 1) && Only([v]) == v
  {
    assert AsParts([v]) == [AsPart(v)];
    FlattenOne(AsPart(v));
    assert [v][1..] == [];
    assert NonNulls([v]) == (if v.Null? then 0 else 1) + NonNulls([v][1..]);
    assert [v][0] == v;
  }

  /** A lone result contributes all there is. */
  lemma {:induction false} OnlyContributes(vs: seq<Val>)
    requires NonNulls(vs) == 1
    ensures !Only(vs).Null? && (TreeOrNull(Only(vs)) <==> AllTreeOrNull(vs))
    ensures FlattenAll(AsParts(vs)) == Flatten(AsPart(Only(vs)))
  {
    hide TreeOrNull;
    assert vs == [vs[0]] + vs[1..];
    TreesAppend([vs[0]], vs[1..]);
    OneContributes(vs[0]);
    if vs[0].Null? {
      OnlyContributes(vs[1..]);
      NullsContributeNothing([vs[0]]);
    } else {
      NullsContributeNothing(vs[1..]);
    }
  }

  // ----- what a near value contributes -----

  lemma RootContributes(v: Val, vs: seq<Val>)
    requires IsRootOf(v, vs) && NonNulls(vs) > 0
    ensures TreeOrNull(v) && Flatten(AsPart(v)) == FlattenAll(AsParts(vs))
  {
    PresentsAreNonNulls(vs);
    NonePresent(AsParts(vs));
    FlattenAllEmpty(AsParts(vs));
    FlattenOfRoot(FlattenAll(AsParts(vs)));
  }

  lemma NearNull(v: Val, vs: seq<Val>)
    requires NearTree(v, vs)
    ensures v == Null <==> NonNulls(vs) == 0
  {
    if NonNulls(vs) == 1 { OnlyContributes(vs); }
  }

  lemma NearContributes(v: Val, vs: seq<Val>)
    requires NearTree(v, vs) && TreeOrNull(v)
    ensures AllTreeOrNull(vs) && Flatten(AsPart(v)) == FlattenAll(AsParts(vs))
  {
    if NonNulls(vs) == 0 {
      NullsContributeNothing(vs);
    } else if NonNulls(vs) == 1 && v == Only(vs) {
      OnlyContributes(vs);
    } else {
      RootContributes(v, vs);
    }
  }

  /** The values us are near the groups vss, one by one. */
  ghost predicate AllNear(f: Fold, us: seq<Val>, vss: seq<seq<Val>>) {
    |us| == |vss| && forall i :: 0 <= i < |us| ==> vss[i] != [] && Near(f, us[i], vss[i])
  }

  lemma {:induction false} AllContribute(us: seq<Val>, vss: seq<seq<Val>>)
    requires AllNear(FoldTree, us, vss) && AllTreeOrNull(us)
    ensures AllTreeOrNull(Joined(vss)) && FlattenAll(AsParts(us)) == FlattenAll(AsParts(Joined(vss)))
    ensures NonNulls(us) == 0 <==> NonNulls(Joined(vss)) == 0
    ensures |Joined(vss)| >= |us| && NonNulls(us) <= NonNulls(Joined(vss))
  {
    hide TreeOrNull, NearTree;
    if us != [] {
      AllContribute(us[1..], vss[1..]);
      assert us == [us[0]] + us[1..];
      TreesAppend([us[0]], us[1..]);
      OneContributes(us[0]);
      NearContributes(us[0], vss[0]);
      NearNull(us[0], vss[0]);
      TreesAppend(vss[0], Joined(vss[1..]));
      NonNullsAppend(vss[0], Joined(vss[1..]));
      NonNullsAppend([us[0]], us[1..]);
    }
  }

  // ----- folding near values -----

  /** Nulls beside a group change nothing. */
  lemma NearBesideNulls(v: Val, vs: seq<Val>, nulls: seq<Val>)
    requires NearTree(v, vs) && NonNulls(nulls) == 0
    ensures NearTree(v, vs + nulls) && NearTree(v, nulls + vs)
    ensures IsRootOf(v, vs) ==> IsRootOf(v, vs + nulls) && IsRootOf(v, nulls + vs)
  {
    hide TreeOrNull;
    NonNullsAppend(vs, nulls);
    NonNullsAppend(nulls, vs);
    TreesAppend(vs, nulls);
    TreesAppend(nulls, vs);
    NullsContributeNothing(nulls);
  }

  lemma LongFoldNear(us: seq<Val>, vss: seq<seq<Val>>, v: Val)
    requires AllNear(FoldTree, us, vss) && AllTreeOrNull(us) && v == Tree(Root(FlattenAll(AsParts(us))))
    requires |us| >= 3 || NonNulls(us) >= 2
    ensures IsRootOf(v, Joined(vss)) && (NonNulls(Joined(vss)) > 0 ==> NearTree(v, Joined(vss)))
  {
    AllContribute(us, vss);
  }

  lemma PairFoldNear(us: seq<Val>, vss: seq<seq<Val>>, v: Val)
    requires AllNear(FoldTree, us, vss) && |us| == 2 && FoldTreeVals(us) == Some(v)
    ensures NearTree(v, vss[0] + vss[1])
    ensures forall i :: 0 <= i < 2 && IsRootOf(us[i], vss[i]) && NonNulls(vss[i]) > 0 ==> IsRootOf(v, vss[0] + vss[1])
  {
    hide TreeOrNull, NearTree, IsRootOf, AllTreeOrNull;
    NearNull(us[0], vss[0]);
    NearNull(us[1], vss[1]);
    PairOfNonNulls(us[0], us[1]);
    assert us == [us[0], us[1]];
    if us[1].Null? {
      NearBesideNulls(us[0], vss[0], vss[1]);
    } else if us[0].Null? {
      NearBesideNulls(us[1], vss[1], vss[0]);
    } else {
      JoinedShort(vss);
      NonNullsAppend(vss[0], vss[1]);
      LongFoldNear(us, vss, v);
    }
  }

  /** Whatever the nesting inside the groups, folding their values is near to folding all the
      results at once: except that three or more groups without any result leave a root. */
  lemma FoldNear(f: Fold, us: seq<Val>, vss: seq<seq<Val>>, v: Val)
    requires (f.FoldTree? || f.StrFold?) && AllNear(f, us, vss) && us != [] && ApplyFold(f, us) == Some(v)
    ensures f.StrFold? ==> v.Str? && Near(f, v, Joined(vss))
    ensures f.FoldTree? && (|us| < 3 || NonNulls(Joined(vss)) > 0) ==> Near(f, v, Joined(vss))
    ensures f.FoldTree? && |us| >= 3 ==> IsRootOf(v, Joined(vss))
    ensures f.FoldTree? ==> forall i :: 0 <= i < |us| < 3 && IsRootOf(us[i], vss[i]) && NonNulls(vss[i]) > 0 ==>
        IsRootOf(v, Joined(vss))
  {
    hide NearTree, IsRootOf;
    if f.StrFold? {
      StrFoldNear(us, vss);
    } else if |us| == 1 {
      JoinedShort(vss);
    } else if |us| == 2 {
      JoinedShort(vss);
      PairFoldNear(us, vss, v);
    } else {
      LongFoldNear(us, vss, v);
    }
  }

  lemma {:induction false} StrFoldNear(us: seq<Val>, vss: seq<seq<Val>>)
    requires AllNear(StrFold, us, vss) && AllStr(us)
    ensures AllStr(Joined(vss)) && Concat(us) == Concat(Joined(vss))
  {
    if us != [] {
      StrFoldNear(us[1..], vss[1..]);
      assert NearStr(us[0], vss[0]);
      ConcatAppend(vss[0], Joined(vss[1..]));
    }
  }

  /** A near value of at most two results, or with two that are not NULL, is the flat fold. */
  lemma NearIsFlat(v: Val, vs: seq<Val>)
    requires vs != [] && NearTree(v, vs) && (|vs| <= 2 || NonNulls(vs) >= 2)
    ensures FoldTreeVals(vs) == Some(v)
  {
    if |vs| == 1 {
      assert vs == [vs[0]];
      OneContributes(vs[0]);
    } else if |vs| == 2 {
      PairOfNonNulls(vs[0], vs[1]);
      assert vs == [vs[0]] + [vs[1]];
      NonNullsAppend([vs[0]], [vs[1]]);
      OneContributes(vs[0]);
      OneContributes(vs[1]);
    }
  }

  lemma RootIsFlat(v: Val, vs: seq<Val>)
    requires IsRootOf(v, vs) && |vs| >= 3
    ensures FoldTreeVals(vs) == Some(v)
  {}

  lemma NearItself(f: Fold, v: Val)
    requires f.FoldTree? || f.StrFold?
    ensures Near(f, v, [v])
  {
    OneContributes(v);
    if v.Str? { assert Concat([v]) == v.s + Concat([v][1..]); }
  }
}
