/** Sequences taken apart at an index. */
module Slices {
  lemma SameHalves<T>(s: seq<T>, a: nat, b: nat, left: seq<T>, right: seq<T>)
    requires |left| == a && |right| == b - a && a <= b <= |s|
    ensures s[..b] == left + right <==> s[..a] == left && s[a..b] == right
  {
    assert s[..b] == s[..a] + s[a..b];
    if s[..b] == left + right { assert s[..a] == (left + right)[..a] && s[a..b] == (left + right)[a..]; }
  }
}
