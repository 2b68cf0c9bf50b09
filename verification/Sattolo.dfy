/** The shuffle that swaps every element with a later one. Whatever the choices, the positions
    are permuted along one single cycle, and every such permutation comes from one run only. */
module Sattolo {

  function Swapped<T>(s: seq<T>, i: nat, j: nat): (r: seq<T>)
    requires i < |s| && j < |s|
    ensures |r| == |s|
  {
    s[i := s[j]][j := s[i]]
  }

  /** The choice of the step i lies in [i + 1, n - 1], for all steps but the last. */
  predicate Choices(n: nat, js: seq<nat>) {
    |js| == (if n == 0 then 0 else n - 1) && forall i :: 0 <= i < |js| ==> i < js[i] < n
  }

  /** The elements after i steps. */
  function After<T>(s: seq<T>, js: seq<nat>, i: nat): (r: seq<T>)
    requires Choices(|s|, js) && i <= |js|
    ensures |r| == |s|
  {
    if i == 0 then s else Swapped(After(s, js, i - 1), i - 1, js[i - 1])
  }

  /** The loop; the choices are those that Random gives. */
  method Permute<T>(arr: array<T>, js: seq<nat>)
    requires Choices(arr.Length, js)
    modifies arr
    ensures arr[..] == After(old(arr[..]), js, |js|)
  {
    ghost var s := arr[..];
    var n := arr.Length;
    var i := 0;
    while i < n - 1
      invariant 0 <= i <= |js| && Choices(|s|, js) && arr[..] == After(s, js, i)
    {
      arr[i], arr[js[i]] := arr[js[i]], arr[i];
      i := i + 1;
    }
  }

  function Identity(n: nat): (s: seq<nat>)
    ensures |s| == n && forall k :: 0 <= k < n ==> s[k] == k
  {
    seq(n, k => k)
  }

  /** Where the element at every position came from. */
  function Moves(n: nat, js: seq<nat>, i: nat): (p: seq<nat>)
    requires Choices(n, js) && i <= |js|
    ensures |p| == n
  {
    After(Identity(n), js, i)
  }

  lemma {:induction false} MovesTell<T>(s: seq<T>, js: seq<nat>, i: nat, k: nat)
    requires Choices(|s|, js) && i <= |js| && k < |s|
    ensures Moves(|s|, js, i)[k] < |s| && After(s, js, i)[k] == s[Moves(|s|, js, i)[k]]
    decreases i
  {
    if i > 0 {
      MovesTell(s, js, i - 1, k);
      MovesTell(s, js, i - 1, i - 1);
      MovesTell(s, js, i - 1, js[i - 1]);
    }
  }

  // ----- cycles -----

  /** What comes after the element number k, going round. */
  function Follow(c: seq<nat>, k: nat): nat
    requires k < |c|
  {
    if k + 1 == |c| then c[0] else c[k + 1]
  }

  /** p leads from every element of c to the next, and from the last to the first. */
  predicate IsCycle(p: seq<nat>, c: seq<nat>) {
    && c != [] && (forall k :: 0 <= k < |c| ==> c[k] < |p|)
    && (forall k :: 0 <= k < |c| ==> p[c[k]] == Follow(c, k))
  }

  predicate Distinct(c: seq<nat>) {
    forall k, l :: 0 <= k < l < |c| ==> c[k] != c[l]
  }

  /** c leads through every position, once. */
  predicate IsWholeCycle(p: seq<nat>, c: seq<nat>) {
    IsCycle(p, c) && Distinct(c) && forall x :: 0 <= x < |p| ==> x in c
  }

  ghost predicate IsSingleCycle(p: seq<nat>) {
    exists c :: IsWholeCycle(p, c)
  }

  /** For every m from i on, cyc[m] is a cycle that begins with m. */
  ghost predicate Cycles(p: seq<nat>, cyc: seq<seq<nat>>, i: nat) {
    |cyc| == |p| && forall m :: i <= m < |p| ==> IsCycle(p, cyc[m]) && Distinct(cyc[m]) && cyc[m][0] == m
  }

  /** m is the only member from i on. */
  ghost predicate OneEach(cyc: seq<seq<nat>>, i: nat) {
    forall m, k :: i <= m < |cyc| && 0 < k < |cyc[m]| ==> cyc[m][k] < i
  }

  /** The cycles share no member. */
  ghost predicate Apart(cyc: seq<seq<nat>>, i: nat) {
    forall l, m, x :: i <= l < m < |cyc| && x in cyc[l] ==> x !in cyc[m]
  }

  /** They cover all positions. */
  ghost predicate Cover(cyc: seq<seq<nat>>, i: nat) {
    forall x :: 0 <= x < |cyc| ==> Owned(cyc, i, x)
  }

  ghost predicate CycleEach(p: seq<nat>, cyc: seq<seq<nat>>, i: nat) {
    Cycles(p, cyc, i) && OneEach(cyc, i) && Apart(cyc, i) && Cover(cyc, i)
  }

  ghost predicate Owned(cyc: seq<seq<nat>>, i: nat, x: nat) {
    exists m :: i <= m < |cyc| && x in cyc[m]
  }

  lemma JoinIsCycle(p: seq<nat>, a: seq<nat>, b: seq<nat>, i: nat, j: nat)
    requires IsCycle(p, a) && IsCycle(p, b) && a[0] == i && b[0] == j && Distinct(a) && Distinct(b)
    requires forall k :: 0 <= k < |a| ==> a[k] !in b
    ensures IsCycle(Swapped(p, i, j), Joined(a, b))
  {
    var q, c := Swapped(p, i, j), Joined(a, b);
    forall k | 0 <= k < |c| ensures c[k] < |q| && q[c[k]] == Follow(c, k) {
      JoinedFollows(a, b, k);
      hide Follow;
      if k < |a| {
        assert p[a[k]] == Follow(a, k) && (k > 0 ==> a[k] != a[0]) && a[k] in a;
      } else {
        var l := k - |a|;
        assert p[b[l]] == Follow(b, l) && (l > 0 ==> b[l] != b[0]) && b[l] in b;
        assert a[0] !in b;
      }
    }
  }

  /** Where the joined cycle goes on. */
  lemma JoinedFollows(a: seq<nat>, b: seq<nat>, k: nat)
    requires a != [] && b != [] && k < |a| + |b|
    ensures var c := Joined(a, b);
      && |c| == |a| + |b|
      && c[k] == (if k == 0 then b[0] else if k < |a| then a[k] else if k == |a| then a[0] else b[k - |a|])
      && Follow(c, k) == if k < |a| then Follow(a, k) else Follow(b, k - |a|)
  {}

  lemma JoinIsDistinct(a: seq<nat>, b: seq<nat>)
    requires a != [] && b != [] && Distinct(a) && Distinct(b) && forall k :: 0 <= k < |a| ==> a[k] !in b
    ensures Distinct(Joined(a, b))
  {
    var c := Joined(a, b);
    forall k, l | 0 <= k < l < |c| ensures c[k] != c[l] {
      JoinedAt(a, b, k);
      JoinedAt(a, b, l);
      hide Joined;
      assert forall m :: 0 <= m < |b| ==> b[m] in b;
    }
  }

  /** The cycle made of the first two. */
  function Joined(a: seq<nat>, b: seq<nat>): seq<nat>
    requires a != [] && b != []
  {
    [b[0]] + a[1..] + [a[0]] + b[1..]
  }

  /** Swapping i with a later j joins their two cycles. */
  lemma SwapJoins(p: seq<nat>, cyc: seq<seq<nat>>, i: nat, j: nat) returns (d: seq<seq<nat>>)
    requires CycleEach(p, cyc, i) && i < j < |p|
    ensures CycleEach(Swapped(p, i, j), d, i + 1)
  {
    BothThere(p, cyc, i, j);
    d := cyc[j := Joined(cyc[i], cyc[j])];
    SwapInto(p, cyc, i, j, d);
  }

  lemma SwapInto(p: seq<nat>, cyc: seq<seq<nat>>, i: nat, j: nat, d: seq<seq<nat>>)
    requires CycleEach(p, cyc, i) && i < j < |p| == |cyc| && cyc[i] != [] && cyc[j] != []
        && d == cyc[j := Joined(cyc[i], cyc[j])]
    ensures CycleEach(Swapped(p, i, j), d, i + 1)
  {
    hide *;
    SwapCycles(p, cyc, i, j, d);
    SwapOneEach(p, cyc, i, j, d);
    SwapApart(p, cyc, i, j, d);
    SwapCover(p, cyc, i, j, d);
    FourMakeEach(Swapped(p, i, j), d, i + 1);
  }

  lemma FourMakeEach(p: seq<nat>, cyc: seq<seq<nat>>, i: nat)
    requires Cycles(p, cyc, i) && OneEach(cyc, i) && Apart(cyc, i) && Cover(cyc, i)
    ensures CycleEach(p, cyc, i)
  {}

  lemma BothThere(p: seq<nat>, cyc: seq<seq<nat>>, i: nat, j: nat)
    requires CycleEach(p, cyc, i) && i < j < |p|
    ensures |cyc| == |p| && cyc[i] != [] && cyc[j] != [] && cyc[i][0] == i && cyc[j][0] == j
  {}

  lemma SwapCycles(p: seq<nat>, cyc: seq<seq<nat>>, i: nat, j: nat, d: seq<seq<nat>>)
    requires CycleEach(p, cyc, i) && i < j < |p| == |cyc| && cyc[i] != [] && cyc[j] != []
        && d == cyc[j := Joined(cyc[i], cyc[j])]
    ensures Cycles(Swapped(p, i, j), d, i + 1)
  {
    var a, b, q := cyc[i], cyc[j], Swapped(p, i, j);
    assert forall k :: 0 <= k < |a| ==> a[k] in a;
    JoinIsCycle(p, a, b, i, j);
    JoinIsDistinct(a, b);
    hide Follow, Swapped;
    forall m | i + 1 <= m < |q| ensures IsCycle(q, d[m]) && Distinct(d[m]) && d[m][0] == m {
      if m != j { OtherCycle(p, cyc, i, j, m); }
    }
  }

  lemma SwapOneEach(p: seq<nat>, cyc: seq<seq<nat>>, i: nat, j: nat, d: seq<seq<nat>>)
    requires CycleEach(p, cyc, i) && i < j < |p| == |cyc| && cyc[i] != [] && cyc[j] != []
        && d == cyc[j := Joined(cyc[i], cyc[j])]
    ensures OneEach(d, i + 1)
  {
    var a, b := cyc[i], cyc[j];
    assert a[0] == i;
    hide IsCycle, Distinct, Apart, Cover;
    forall m, k | i + 1 <= m < |d| && 0 < k < |d[m]| ensures d[m][k] < i + 1 {
      if m == j { JoinedAt(a, b, k); } else { assert cyc[m][k] < i; }
    }
  }

  lemma JoinedAt(a: seq<nat>, b: seq<nat>, k: nat)
    requires a != [] && b != [] && k < |a| + |b|
    ensures var c := Joined(a, b);
      |c| == |a| + |b|
          && c[k] == if k == 0 then b[0] else if k < |a| then a[k] else if k == |a| then a[0] else b[k - |a|]
  {}

  lemma SwapApart(p: seq<nat>, cyc: seq<seq<nat>>, i: nat, j: nat, d: seq<seq<nat>>)
    requires CycleEach(p, cyc, i) && i < j < |p| == |cyc| && cyc[i] != [] && cyc[j] != []
        && d == cyc[j := Joined(cyc[i], cyc[j])]
    ensures Apart(d, i + 1)
  {
    JoinedHolds(cyc[i], cyc[j]);
    hide IsCycle, Distinct, OneEach, Cover, Joined;
    forall l, m, x | i + 1 <= l < m < |d| && x in d[l] ensures x !in d[m] {
      assert x in cyc[l] ==> x !in cyc[m];
      assert x in cyc[i] ==> x !in cyc[l] && x !in cyc[m];
    }
  }

  lemma JoinedHolds(a: seq<nat>, b: seq<nat>)
    requires a != [] && b != []
    ensures forall x :: x in Joined(a, b) <==> x in a || x in b
  {
    assert a == [a[0]] + a[1..] && b == [b[0]] + b[1..];
  }

  lemma SwapCover(p: seq<nat>, cyc: seq<seq<nat>>, i: nat, j: nat, d: seq<seq<nat>>)
    requires CycleEach(p, cyc, i) && i < j < |p| == |cyc| && cyc[i] != [] && cyc[j] != []
        && d == cyc[j := Joined(cyc[i], cyc[j])]
    ensures Cover(d, i + 1)
  {
    JoinedHolds(cyc[i], cyc[j]);
    hide IsCycle, Distinct, OneEach, Apart, Joined;
    var next := i + 1;
    forall x | 0 <= x < |d| ensures Owned(d, next, x) {
      assert Owned(cyc, i, x);
      hide *;
      SwapOwns(cyc, i, j, d, x);
    }
  }

  lemma SwapOwns(cyc: seq<seq<nat>>, i: nat, j: nat, d: seq<seq<nat>>, x: nat)
    requires Owned(cyc, i, x) && i < j < |cyc| && |d| == |cyc| && d == cyc[j := d[j]]
    requires forall y :: y in d[j] <==> y in cyc[i] || y in cyc[j]
    ensures Owned(d, i + 1, x)
  {
    var m :| i <= m < |cyc| && x in cyc[m];
    var l := if m == i then j else m;
    assert x in d[l];
  }

  lemma OtherCycle(p: seq<nat>, cyc: seq<seq<nat>>, i: nat, j: nat, m: nat)
    requires CycleEach(p, cyc, i) && i < j < |p| && i < m < |p| && m != j
    ensures IsCycle(Swapped(p, i, j), cyc[m])
  {}

  /** In the beginning every position is a cycle of its own. */
  lemma Singletons(n: nat)
    ensures CycleEach(Identity(n), seq(n, m => [m]), 0)
  {
    var cyc := seq(n, m => [m]);
    forall x | 0 <= x < n ensures Owned(cyc, 0, x) {
      assert x in cyc[x];
    }
  }

  /** Before the step i every cycle has exactly one member from i on. */
  lemma {:induction false} CyclesAfter(n: nat, js: seq<nat>, i: nat) returns (cyc: seq<seq<nat>>)
    requires Choices(n, js) && i <= |js|
    ensures CycleEach(Moves(n, js, i), cyc, i)
    decreases i
  {
    hide CycleEach;
    if i == 0 {
      Singletons(n);
      cyc := seq(n, m => [m]);
    } else {
      cyc := CyclesAfter(n, js, i - 1);
      cyc := SwapJoins(Moves(n, js, i - 1), cyc, i - 1, js[i - 1]);
    }
  }

  /** Whatever the choices, the loop leaves one single cycle. */
  lemma OneCycle(n: nat, js: seq<nat>)
    requires Choices(n, js) && n > 0
    ensures IsSingleCycle(Moves(n, js, n - 1))
  {
    var p := Moves(n, js, n - 1);
    var cyc := CyclesAfter(n, js, n - 1);
    var c := cyc[n - 1];
    forall x | 0 <= x < n ensures x in c {
      assert Owned(cyc, n - 1, x);
    }
    assert IsWholeCycle(p, c);
  }

  /** No element stays where it was. */
  lemma NoFixedPoint(n: nat, js: seq<nat>, k: nat)
    requires Choices(n, js) && n > 1 && k < n
    ensures Moves(n, js, n - 1)[k] != k
  {
    var p := Moves(n, js, n - 1);
    OneCycle(n, js);
    var c :| IsWholeCycle(p, c);
    assert k in c;
    var l :| 0 <= l < |c| && c[l] == k;
    assert 0 in c && 1 in c;
    assert p[c[l]] == Follow(c, l);
  }

  // ----- every single cycle comes from one run -----

  /** The step i depends on the choices before it only. */
  lemma {:induction false} SamePrefix(n: nat, js: seq<nat>, ks: seq<nat>, i: nat)
    requires Choices(n, js) && Choices(n, ks) && i <= |js| && js[..i] == ks[..i]
    ensures Moves(n, js, i) == Moves(n, ks, i)
    decreases i
  {
    if i > 0 {
      assert js[..i - 1] == js[..i][..i - 1] && ks[..i - 1] == ks[..i][..i - 1];
      assert js[i - 1] == js[..i][i - 1] && ks[i - 1] == ks[..i][i - 1];
      SamePrefix(n, js, ks, i - 1);
    }
  }

  /** Later steps leave the positions before them alone. */
  lemma {:induction false} StaysPut(n: nat, js: seq<nat>, k: nat, i: nat)
    requires Choices(n, js) && k < i <= |js|
    ensures Moves(n, js, i)[k] == Moves(n, js, k)[js[k]]
    decreases i
  {
    if k < i - 1 {
      StaysPut(n, js, k, i - 1);
    }
  }

  lemma {:induction false} MovesDistinct(n: nat, js: seq<nat>, i: nat)
    requires Choices(n, js) && i <= |js|
    ensures Distinct(Moves(n, js, i))
    decreases i
  {
    if i > 0 {
      MovesDistinct(n, js, i - 1);
    }
  }

  /** Different choices give different permutations. */
  lemma {:induction false} OnlyOneWay(n: nat, js: seq<nat>, ks: seq<nat>, i: nat)
    requires Choices(n, js) && Choices(n, ks) && n > 0 && i <= |js| && Moves(n, js, n - 1) == Moves(n, ks, n - 1)
    ensures js[..i] == ks[..i]
    decreases i
  {
    if i > 0 {
      OnlyOneWay(n, js, ks, i - 1);
      SamePrefix(n, js, ks, i - 1);
      StaysPut(n, js, i - 1, n - 1);
      StaysPut(n, ks, i - 1, n - 1);
      MovesDistinct(n, js, i - 1);
      assert js[i - 1] == ks[i - 1];
      assert js[..i] == js[..i - 1] + [js[i - 1]] && ks[..i] == ks[..i - 1] + [ks[i - 1]];
    }
  }

  lemma WholeCycleDistinct(p: seq<nat>, c: seq<nat>)
    requires IsWholeCycle(p, c)
    ensures Distinct(p)
  {
    forall x, y | 0 <= x < y < |p| ensures p[x] != p[y] {
      assert x in c && y in c;
      var k :| 0 <= k < |c| && c[k] == x;
      var l :| 0 <= l < |c| && c[l] == y;
      assert p[c[k]] == Follow(c, k) && p[c[l]] == Follow(c, l);
    }
  }

  /** Every position is reached from some position. */
  lemma Onto(p: seq<nat>, cyc: seq<seq<nat>>, i: nat, x: nat) returns (y: nat)
    requires CycleEach(p, cyc, i) && x < |p|
    ensures y < |p| && p[y] == x
  {
    hide Distinct;
    assert Owned(cyc, i, x);
    var m :| i <= m < |cyc| && x in cyc[m];
    assert IsCycle(p, cyc[m]);
    hide *;
    y := Before(p, cyc[m], x);
  }

  lemma Before(p: seq<nat>, c: seq<nat>, x: nat) returns (y: nat)
    requires IsCycle(p, c) && x in c
    ensures y < |p| && p[y] == x
  {
    var k :| 0 <= k < |c| && c[k] == x;
    var l := if k == 0 then |c| - 1 else k - 1;
    y := c[l];
    assert p[c[l]] == Follow(c, l);
  }

  /** What is closed under p and holds one member of a cycle holds those that follow. */
  lemma {:induction false} Onward(p: seq<nat>, c: seq<nat>, d: seq<nat>, k: nat, l: nat)
    requires IsCycle(p, c) && IsCycle(p, d) && k <= l < |c| && c[k] in d
    ensures c[l] in d && Follow(c, l) in d
    decreases l
  {
    if k < l {
      Onward(p, c, d, k, l - 1);
    }
    var m :| 0 <= m < |d| && d[m] == c[l];
    assert p[d[m]] == Follow(d, m) && p[c[l]] == Follow(c, l);
  }

  /** A permutation that is one single cycle has no smaller cycle. */
  lemma NoSmallerCycle(p: seq<nat>, c: seq<nat>, d: seq<nat>, x: nat)
    requires IsWholeCycle(p, c) && IsCycle(p, d) && x < |p|
    ensures x in d
  {
    assert d[0] in c && x in c;
    var k :| 0 <= k < |c| && c[k] == d[0];
    Onward(p, c, d, k, |c| - 1);
    var l :| 0 <= l < |c| && c[l] == x;
    Onward(p, c, d, 0, l);
  }

  /** The element that p wants at position i lies further on. */
  lemma WantedIsLater(p: seq<nat>, c: seq<nat>, n: nat, js: seq<nat>, i: nat) returns (j: nat)
    requires |p| == n && IsWholeCycle(p, c) && Choices(n, js) && i < |js|
    requires forall k :: 0 <= k < i ==> Moves(n, js, i)[k] == p[k]
    ensures i < j < n && Moves(n, js, i)[j] == p[i]
  {
    var q := Moves(n, js, i);
    var cyc := CyclesAfter(n, js, i);
    WholeCycleDistinct(p, c);
    assert p[i] < n by { ValuesInRange(p, c, i); }
    j := Onto(q, cyc, i, p[i]);
    if j == i {
      var d := cyc[i];
      assert IsCycle(p, d) by {
        forall k | 0 <= k < |d| ensures p[d[k]] == Follow(d, k) {
          assert q[d[k]] == Follow(d, k);
        }
      }
      NoSmallerCycle(p, c, d, n - 1);
    }
  }

  lemma ValuesInRange(p: seq<nat>, c: seq<nat>, x: nat)
    requires IsWholeCycle(p, c) && x < |p|
    ensures p[x] < |p|
  {
    assert x in c;
    var k :| 0 <= k < |c| && c[k] == x;
    assert p[c[k]] == Follow(c, k);
  }

  lemma {:induction false} FindChoices(p: seq<nat>, c: seq<nat>, n: nat, i: nat) returns (js: seq<nat>)
    requires |p| == n > 0 && IsWholeCycle(p, c) && i < n
    ensures Choices(n, js) && forall k :: 0 <= k < i ==> Moves(n, js, i)[k] == p[k]
    decreases i
  {
    if i == 0 {
      js := seq(n - 1, m => n - 1);
    } else {
      hide IsWholeCycle, Moves;
      js := FindChoices(p, c, n, i - 1);
      var j := WantedIsLater(p, c, n, js, i - 1);
      ChooseNext(p, n, js, i, j);
      js := js[i - 1 := j];
    }
  }

  /** Choosing the place j of the wanted element in the step before i. */
  lemma ChooseNext(p: seq<nat>, n: nat, js: seq<nat>, i: nat, j: nat)
    requires |p| == n && Choices(n, js) && 0 < i <= |js| && i - 1 < j < n
    requires Moves(n, js, i - 1)[j] == p[i - 1] && forall k :: 0 <= k < i - 1 ==> Moves(n, js, i - 1)[k] == p[k]
    ensures var ks := js[i - 1 := j]; Choices(n, ks) && forall k :: 0 <= k < i ==> Moves(n, ks, i)[k] == p[k]
  {
    var ks := js[i - 1 := j];
    assert js[..i - 1] == ks[..i - 1];
    SamePrefix(n, js, ks, i - 1);
    MovesNext(n, ks, i);
    hide Moves, Choices;
    forall k | 0 <= k < i ensures Moves(n, ks, i)[k] == p[k] {
      assert k < i - 1 || k == i - 1;
    }
  }

  lemma MovesNext(n: nat, js: seq<nat>, i: nat)
    requires Choices(n, js) && 0 < i <= |js|
    ensures Moves(n, js, i)[i - 1] == Moves(n, js, i - 1)[js[i - 1]]
    ensures forall k :: 0 <= k < i - 1 ==> Moves(n, js, i)[k] == Moves(n, js, i - 1)[k]
  {}

  /** The loop reaches exactly the permutations that are one single cycle. */
  lemma ExactlyTheSingleCycles(n: nat, p: seq<nat>)
    requires |p| == n > 0
    ensures IsSingleCycle(p) <==> exists js :: Choices(n, js) && Moves(n, js, n - 1) == p
  {
    hide IsSingleCycle, Moves;
    forall js | Choices(n, js) && Moves(n, js, n - 1) == p ensures IsSingleCycle(p) {
      OneCycle(n, js);
    }
    if IsSingleCycle(p) {
      var js := Reaching(n, p);
    }
  }

  lemma Reaching(n: nat, p: seq<nat>) returns (js: seq<nat>)
    requires |p| == n > 0 && IsSingleCycle(p)
    ensures Choices(n, js) && Moves(n, js, n - 1) == p
  {
    var c :| IsWholeCycle(p, c);
    hide *;
    js := FindChoices(p, c, n, n - 1);
    LastAgrees(p, c, n, js);
  }

  /** When all elements but the last are where p wants them, the last one is too. */
  lemma LastAgrees(p: seq<nat>, c: seq<nat>, n: nat, js: seq<nat>)
    requires |p| == n > 0 && IsWholeCycle(p, c) && Choices(n, js)
    requires forall k :: 0 <= k < n - 1 ==> Moves(n, js, n - 1)[k] == p[k]
    ensures Choices(n, js) && Moves(n, js, n - 1) == p
  {
    WholeCycleDistinct(p, c);
    ValuesInRange(p, c, n - 1);
    hide IsWholeCycle, CycleEach, Moves;
    var q := Moves(n, js, n - 1);
    var cyc := CyclesAfter(n, js, n - 1);
    var y := Onto(q, cyc, n - 1, p[n - 1]);
    LastIsLeft(p, q, y);
  }

  lemma LastIsLeft(p: seq<nat>, q: seq<nat>, y: nat)
    requires |p| == |q| > y && Distinct(p) && q[y] == p[|p| - 1] && forall k :: 0 <= k < |p| - 1 ==> q[k] == p[k]
    ensures y == |p| - 1 && q == p
  {}
}
