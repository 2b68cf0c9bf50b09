/** Longest common subsequences by tables, and longest non-decreasing subsequences through them. */
module Lcs {
  import Sorting

  /** z is what is left of x when some elements are struck out. */
  predicate IsSub<T(==)>(z: seq<T>, x: seq<T>)
    decreases |x|
  {
    z == [] || (x != [] && ((Last(z) == Last(x) && IsSub(Front(z), Front(x))) || IsSub(z, Front(x))))
  }

  function Last<T>(s: seq<T>): T
    requires s != []
  {
    s[|s| - 1]
  }

  function Front<T>(s: seq<T>): seq<T>
    requires s != []
  {
    s[..|s| - 1]
  }

  /** The elements of z are those of x at rising positions. */
  ghost predicate PickedAt<T>(z: seq<T>, x: seq<T>, at: seq<nat>) {
    && |at| == |z|
    && (forall k :: 0 <= k < |z| ==> at[k] < |x| && x[at[k]] == z[k])
    && (forall k, l :: 0 <= k < l < |z| ==> at[k] < at[l])
  }

  lemma {:induction false} SubIsPicked<T>(z: seq<T>, x: seq<T>) returns (at: seq<nat>)
    requires IsSub(z, x)
    ensures PickedAt(z, x, at)
    decreases |x|
  {
    if z == [] {
      at := [];
    } else if Last(z) == Last(x) && IsSub(Front(z), Front(x)) {
      at := SubIsPicked(Front(z), Front(x));
      at := at + [|x| - 1];
    } else {
      at := SubIsPicked(z, Front(x));
    }
  }

  lemma {:induction false} PickedIsSub<T>(z: seq<T>, x: seq<T>, at: seq<nat>)
    requires PickedAt(z, x, at)
    ensures IsSub(z, x)
    decreases |x|
  {
    if z != [] {
      assert at[|z| - 1] < |x|;
      if Last(at) == |x| - 1 {
        PickedIsSub(Front(z), Front(x), Front(at));
      } else {
        PickedIsSub(z, Front(x), at);
      }
    }
  }

  lemma {:induction false} SubFront<T>(z: seq<T>, x: seq<T>)
    requires z != [] && IsSub(z, x)
    ensures x != [] && IsSub(Front(z), Front(x)) && IsSub(Front(z), x)
    decreases |x|
  {
    if !(Last(z) == Last(x) && IsSub(Front(z), Front(x))) {
      SubFront(z, Front(x));
    }
    if |z| > 1 {
      assert IsSub(Front(z), Front(x));
    }
  }

  // ----- lengths -----

  function Max(a: nat, b: nat): nat {
    if a >= b then a else b
  }

  /** The length for the first i elements of x and the first j of y. */
  function Len<T(==)>(x: seq<T>, y: seq<T>, i: nat, j: nat): nat
    requires i <= |x| && j <= |y|
  {
    if i == 0 || j == 0 then 0
    else if x[i - 1] == y[j - 1] then Len(x, y, i - 1, j - 1) + 1
    else Max(Len(x, y, i - 1, j), Len(x, y, i, j - 1))
  }

  lemma {:induction false} NoLonger<T>(x: seq<T>, y: seq<T>, i: nat, j: nat, z: seq<T>)
    requires i <= |x| && j <= |y| && IsSub(z, x[..i]) && IsSub(z, y[..j])
    ensures |z| <= Len(x, y, i, j)
    decreases i + j
  {
    if z != [] {
      SubFront(z, x[..i]);
      SubFront(z, y[..j]);
      assert Front(x[..i]) == x[..i - 1] && Front(y[..j]) == y[..j - 1];
      if x[i - 1] == y[j - 1] {
        NoLonger(x, y, i - 1, j - 1, Front(z));
      } else if Last(z) != x[i - 1] {
        NoLonger(x, y, i - 1, j, z);
      } else {
        NoLonger(x, y, i, j - 1, z);
      }
    }
  }

  datatype Dir = Left | Up | UpLeft

  function DirAt<T(==)>(x: seq<T>, y: seq<T>, i: nat, j: nat): Dir
    requires i < |x| && j < |y|
  {
    if x[i] == y[j] then UpLeft
    else if Len(x, y, i, j + 1) >= Len(x, y, i + 1, j) then Up
    else Left
  }

  /** What following the directions from the end collects. */
  function Collected<T(==)>(x: seq<T>, y: seq<T>, i: nat, j: nat): seq<T>
    requires i <= |x| && j <= |y|
  {
    if i == 0 || j == 0 then []
    else match DirAt(x, y, i - 1, j - 1)
      case UpLeft => Collected(x, y, i - 1, j - 1) + [x[i - 1]]
      case Up => Collected(x, y, i - 1, j)
      case Left => Collected(x, y, i, j - 1)
  }

  lemma {:induction false} CollectedIsCommon<T>(x: seq<T>, y: seq<T>, i: nat, j: nat)
    requires i <= |x| && j <= |y|
    ensures |Collected(x, y, i, j)| == Len(x, y, i, j)
    ensures IsSub(Collected(x, y, i, j), x[..i]) && IsSub(Collected(x, y, i, j), y[..j])
    decreases i + j
  {
    if i > 0 && j > 0 {
      var z := Collected(x, y, i, j);
      assert Front(x[..i]) == x[..i - 1] && Front(y[..j]) == y[..j - 1];
      match DirAt(x, y, i - 1, j - 1) {
        case UpLeft =>
          CollectedIsCommon(x, y, i - 1, j - 1);
          assert Front(z) == Collected(x, y, i - 1, j - 1);
        case Up =>
          CollectedIsCommon(x, y, i - 1, j);
        case Left =>
          CollectedIsCommon(x, y, i, j - 1);
      }
    }
  }

  /** z is a common subsequence, and none is longer. */
  ghost predicate IsLongestCommon<T(!new)>(z: seq<T>, x: seq<T>, y: seq<T>) {
    && IsSub(z, x) && IsSub(z, y)
    && forall w :: IsSub(w, x) && IsSub(w, y) ==> |w| <= |z|
  }

  lemma CollectedIsLongest<T(!new)>(x: seq<T>, y: seq<T>, i: nat, j: nat)
    requires i <= |x| && j <= |y|
    ensures IsLongestCommon(Collected(x, y, i, j), x[..i], y[..j])
  {
    CollectedIsCommon(x, y, i, j);
    forall w | IsSub(w, x[..i]) && IsSub(w, y[..j]) ensures |w| <= |Collected(x, y, i, j)| {
      NoLonger(x, y, i, j, w);
    }
  }

  // ----- the tables -----

  /** Python's reading of an index: minus one is the last. */
  function Wrap(i: int, length: nat): (r: int)
    requires -1 <= i < length && length > 0
    ensures 0 <= r < length
  {
    if i < 0 then length + i else i
  }

  /** The table has one row and one column more than x and y are long. They stay zero, and are
      what index minus one reads. Written are the rows before i, and of row i the columns before j. */
  ghost predicate Filled<T(!new)>(x: seq<T>, y: seq<T>, c: array2<nat>, b: array2<Dir>, i: int, j: int)
    reads c, b
  {
    && c.Length0 == |x| + 1 && c.Length1 == |y| + 1 && b.Length0 == |x| && b.Length1 == |y|
    && (forall k :: 0 <= k <= |x| ==> c[k, |y|] == 0)
    && (forall l :: 0 <= l <= |y| ==> c[|x|, l] == 0)
    && (forall k, l :: 0 <= k < |x| && 0 <= l < |y| && (k < i || (k == i && l < j)) ==>
        c[k, l] == Len(x, y, k + 1, l + 1))
    && (forall k, l :: 0 <= k < |x| && 0 <= l < |y| && (k < i || (k == i && l < j)) ==> b[k, l] == DirAt(x, y, k, l))
  }

  /** Reading the table gives the length of the prefixes that end at k and l. */
  lemma ReadsLen<T(!new)>(x: seq<T>, y: seq<T>, c: array2<nat>, b: array2<Dir>, i: int, j: int, k: int, l: int)
    requires Filled(x, y, c, b, i, j) && -1 <= k < |x| && -1 <= l < |y| && (k < i || (k == i && l < j))
    ensures c[Wrap(k, |x| + 1), Wrap(l, |y| + 1)] == Len(x, y, k + 1, l + 1)
  {}

  method FindLcs<T(==, !new)>(x: seq<T>, y: seq<T>) returns (c: array2<nat>, b: array2<Dir>)
    ensures Filled(x, y, c, b, |x|, 0)
  {
    c := new nat[|x| + 1, |y| + 1]((i, j) => 0);
    b := new Dir[|x|, |y|]((i, j) => Left);
    for i := 0 to |x|
      invariant Filled(x, y, c, b, i, 0)
    {
      for j := 0 to |y|
        invariant Filled(x, y, c, b, i, j)
      {
        FillCell(x, y, c, b, i, j);
      }
    }
  }

  /** What the neighbours say about the next cell. */
  lemma CellValues<T(!new)>(x: seq<T>, y: seq<T>, c: array2<nat>, b: array2<Dir>, i: nat, j: nat)
    requires i < |x| && j < |y| && Filled(x, y, c, b, i, j)
    ensures Len(x, y, i + 1, j + 1) ==
            if x[i] == y[j] then c[Wrap(i - 1, |x| + 1), Wrap(j - 1, |y| + 1)] + 1
            else Max(c[Wrap(i - 1, |x| + 1), j], c[i, Wrap(j - 1, |y| + 1)])
    ensures DirAt(x, y, i, j) ==
            if x[i] == y[j] then UpLeft
            else if c[Wrap(i - 1, |x| + 1), j] >= c[i, Wrap(j - 1, |y| + 1)] then Up else Left
  {
    ReadsLen(x, y, c, b, i, j, i - 1, j - 1);
    ReadsLen(x, y, c, b, i, j, i - 1, j);
    ReadsLen(x, y, c, b, i, j, i, j - 1);
    hide Filled;
  }

  method FillCell<T(==, !new)>(x: seq<T>, y: seq<T>, c: array2<nat>, b: array2<Dir>, i: nat, j: nat)
    requires i < |x| && j < |y| && Filled(x, y, c, b, i, j)
    modifies c, b
    ensures Filled(x, y, c, b, i, j + 1)
  {
    hide Len, DirAt, Wrap;
    var up, left := Wrap(i - 1, |x| + 1), Wrap(j - 1, |y| + 1);
    CellValues(x, y, c, b, i, j);
    if x[i] == y[j] {
      c[i, j] := c[up, left] + 1;
      b[i, j] := UpLeft;
    } else if c[up, j] >= c[i, left] {
      c[i, j] := c[up, j];
      b[i, j] := Up;
    } else {
      c[i, j] := c[i, left];
      b[i, j] := Left;
    }
  }

  /** The corner of the table is the greatest length of a common subsequence. */
  lemma CornerIsLongest<T(!new)>(x: seq<T>, y: seq<T>, c: array2<nat>, b: array2<Dir>)
    requires Filled(x, y, c, b, |x|, 0)
    ensures exists z :: IsLongestCommon(z, x, y) && |z| == c[Wrap(|x| - 1, |x| + 1), Wrap(|y| - 1, |y| + 1)]
  {
    assert x[..|x|] == x && y[..|y|] == y;
    CollectedIsLongest(x, y, |x|, |y|);
    CollectedIsCommon(x, y, |x|, |y|);
    ReadsLen(x, y, c, b, |x|, 0, |x| - 1, |y| - 1);
  }

  /** Follows the directions back from i, j. */
  method PrintLcs<T(==, !new)>(b: array2<Dir>, x: seq<T>, i: int, j: int, ghost y: seq<T>, ghost c: array2<nat>)
      returns (out: seq<T>)
    requires Filled(x, y, c, b, |x|, 0) && -1 <= i < |x| && -1 <= j < |y|
    ensures out == Collected(x, y, i + 1, j + 1)
    decreases i + j + 2
  {
    if i == -1 || j == -1 { return []; }
    if b[i, j] == UpLeft {
      out := PrintLcs(b, x, i - 1, j - 1, y, c);
      out := out + [x[i]];
    } else if b[i, j] == Up {
      out := PrintLcs(b, x, i - 1, j, y, c);
    } else {
      out := PrintLcs(b, x, i, j - 1, y, c);
    }
  }

  /** The same from the lengths alone. */
  method PrintLcsCTable<T(==, !new)>(c: array2<nat>, x: seq<T>, y: seq<T>, i: int, j: int, ghost b: array2<Dir>)
      returns (out: seq<T>)
    requires Filled(x, y, c, b, |x|, 0) && -1 <= i < |x| && -1 <= j < |y|
    ensures out == Collected(x, y, i + 1, j + 1)
    decreases i + j + 2
  {
    if i == -1 || j == -1 { return []; }
    ReadsLen(x, y, c, b, |x|, 0, i - 1, j);
    ReadsLen(x, y, c, b, |x|, 0, i, j - 1);
    if x[i] == y[j] {
      out := PrintLcsCTable(c, x, y, i - 1, j - 1, b);
      out := out + [x[i]];
    } else if c[Wrap(i - 1, |x| + 1), j] >= c[i, Wrap(j - 1, |y| + 1)] {
      out := PrintLcsCTable(c, x, y, i - 1, j, b);
    } else {
      out := PrintLcsCTable(c, x, y, i, j - 1, b);
    }
  }

  // ----- the memo -----

  /** Every entry is zero or right. */
  ghost predicate MemoRight<T(!new)>(x: seq<T>, y: seq<T>, memo: array2<nat>)
    reads memo
  {
    && memo.Length0 == |x| + 1 && memo.Length1 == |y| + 1
    && forall i, j :: 0 <= i < |x| && 0 <= j < |y| && memo[i, j] > 0 ==> memo[i, j] == Len(x, y, i + 1, j + 1)
  }

  method FindLcsMemo<T(==, !new)>(x: seq<T>, y: seq<T>) returns (best: nat)
    ensures exists z :: IsLongestCommon(z, x, y) && |z| == best
  {
    var memo := new nat[|x| + 1, |y| + 1]((i, j) => 0);
    best := FindLcsMemoAux(x, y, |x| - 1, |y| - 1, memo);
    assert x[..|x|] == x && y[..|y|] == y;
    CollectedIsLongest(x, y, |x|, |y|);
    CollectedIsCommon(x, y, |x|, |y|);
  }

  method FindLcsMemoAux<T(==, !new)>(x: seq<T>, y: seq<T>, i: int, j: int, memo: array2<nat>) returns (best: nat)
    requires MemoRight(x, y, memo) && -1 <= i < |x| && -1 <= j < |y|
    modifies memo
    ensures MemoRight(x, y, memo) && best == Len(x, y, i + 1, j + 1)
    decreases i + j + 2
  {
    if i == -1 || j == -1 { return 0; }
    if memo[i, j] > 0 { return memo[i, j]; }
    if x[i] == y[j] {
      best := FindLcsMemoAux(x, y, i - 1, j - 1, memo);
      best := best + 1;
    } else {
      var up := FindLcsMemoAux(x, y, i - 1, j, memo);
      var left := FindLcsMemoAux(x, y, i, j - 1, memo);
      best := Max(up, left);
    }
    assert best == Len(x, y, i + 1, j + 1);
    hide Len;
    memo[i, j] := best;
  }

  // ----- longest non-decreasing subsequences -----

  predicate NonDecreasing(s: seq<int>) {
    forall i, j :: 0 <= i < j < |s| ==> s[i] <= s[j]
  }

  lemma {:induction false} SubMembers<T>(z: seq<T>, x: seq<T>)
    requires IsSub(z, x)
    ensures multiset(z) <= multiset(x)
    decreases |x|
  {
    if z != [] {
      assert x == Front(x) + [Last(x)] && z == Front(z) + [Last(z)];
      if Last(z) == Last(x) && IsSub(Front(z), Front(x)) {
        SubMembers(Front(z), Front(x));
      } else {
        SubMembers(z, Front(x));
      }
    }
  }

  lemma {:induction false} SubOfSorted(z: seq<int>, y: seq<int>)
    requires NonDecreasing(y) && IsSub(z, y)
    ensures NonDecreasing(z)
  {
    var at := SubIsPicked(z, y);
    forall i, j | 0 <= i < j < |z| ensures z[i] <= z[j] {
      assert at[i] < at[j];
    }
  }

  lemma FrontMembers<T>(s: seq<T>)
    requires s != []
    ensures multiset(s) == multiset(Front(s)) + multiset{Last(s)}
        && multiset(Front(s)) == multiset(s) - multiset{Last(s)}
  {
    assert s == Front(s) + [Last(s)];
  }

  /** The greatest member of y is the last of w, or does not occur in w. */
  lemma DropGreatest(w: seq<int>, y: seq<int>)
    requires NonDecreasing(w) && NonDecreasing(y) && multiset(w) <= multiset(y) && w != []
    ensures y != [] && NonDecreasing(Front(w)) && NonDecreasing(Front(y))
    ensures if Last(w) == Last(y) then multiset(Front(w)) <= multiset(Front(y)) else multiset(w) <= multiset(Front(y))
  {
    FrontMembers(w);
    assert Last(w) in multiset(w) && Last(w) in multiset(y);
    assert y != [];
    FrontMembers(y);
    FrontSorted(w);
    FrontSorted(y);
    hide *;
    if Last(w) != Last(y) {
      assert Last(w) in y && Last(y) !in w;
      assert multiset(w)[Last(y)] == 0;
    }
  }

  lemma FrontSorted(s: seq<int>)
    requires NonDecreasing(s) && s != []
    ensures NonDecreasing(Front(s)) && forall x :: x in s ==> x <= Last(s)
  {}

  /** What is sorted itself and made of members of a sorted sequence is a subsequence of it. */
  lemma {:induction false} SortedIsSub(w: seq<int>, y: seq<int>)
    requires NonDecreasing(w) && NonDecreasing(y) && multiset(w) <= multiset(y)
    ensures IsSub(w, y)
    decreases |y|
  {
    hide NonDecreasing;
    if w != [] {
      DropGreatest(w, y);
      if Last(w) == Last(y) {
        SortedIsSub(Front(w), Front(y));
      } else {
        SortedIsSub(w, Front(y));
      }
    }
  }

  /** A common subsequence with the sorted sequence is a non-decreasing subsequence, and conversely. */
  lemma CommonWithSorted(z: seq<int>, x: seq<int>, y: seq<int>)
    requires NonDecreasing(y) && multiset(y) == multiset(x)
    ensures IsSub(z, x) && IsSub(z, y) <==> IsSub(z, x) && NonDecreasing(z)
  {
    if IsSub(z, x) {
      if IsSub(z, y) {
        SubOfSorted(z, y);
      }
      if NonDecreasing(z) {
        SubMembers(z, x);
        SortedIsSub(z, y);
      }
    }
  }

  /** Prints a longest non-decreasing subsequence of x. */
  method FindLongestMonot(x: seq<int>) returns (out: seq<int>)
    ensures IsSub(out, x) && NonDecreasing(out)
    ensures forall w :: IsSub(w, x) && NonDecreasing(w) ==> |w| <= |out|
  {
    var y := Sorting.Sorted(map v | v in x :: v, x);
    assert |y| == |multiset(y)| == |x|;
    assert NonDecreasing(y);
    hide NonDecreasing, IsSub, Sorting.Ordered;
    var c, b := FindLcs(x, y);
    out := PrintLcs(b, x, |x| - 1, |y| - 1, y, c);
    assert x[..|x|] == x && y[..|y|] == y;
    CollectedIsLongest(x, y, |x|, |y|);
    CommonWithSorted(out, x, y);
    forall w | IsSub(w, x) && NonDecreasing(w) ensures |w| <= |out| {
      CommonWithSorted(w, x, y);
    }
  }
}
