/** Walks in a directed graph that is given by the list of successors of every vertex. */
module Graphs {

  type Name = string

  datatype Color = White | Gray | Black

  ghost predicate Edge<V>(next: map<V, seq<V>>, u: V, v: V) {
    u in next && v in next[u]
  }

  ghost predicate Closed<V>(next: map<V, seq<V>>) {
    forall u, i :: u in next && 0 <= i < |next[u]| ==> next[u][i] in next
  }

  /** The vertices at which a walk of n edges from s may end. */
  ghost function Steps<V>(next: map<V, seq<V>>, s: V, n: nat): set<V> {
    if n == 0 then {s}
    else set u, v | u in Steps(next, s, n - 1) && u in next && v in next[u] :: v
  }

  lemma StepsNext<V>(next: map<V, seq<V>>, s: V, n: nat, u: V, v: V)
    requires u in Steps(next, s, n) && Edge(next, u, v)
    ensures v in Steps(next, s, n + 1)
  {}

  lemma StepsLast<V>(next: map<V, seq<V>>, s: V, n: nat, v: V) returns (u: V)
    requires n > 0 && v in Steps(next, s, n)
    ensures u in Steps(next, s, n - 1) && Edge(next, u, v)
  {
    u :| u in Steps(next, s, n - 1) && u in next && v in next[u];
  }

  lemma {:induction false} StepsCompose<V>(next: map<V, seq<V>>, s: V, u: V, v: V, m: nat, n: nat)
    requires u in Steps(next, s, m) && v in Steps(next, u, n)
    ensures v in Steps(next, s, m + n)
    decreases n
  {
    if n > 0 {
      var t := StepsLast(next, u, n, v);
      StepsCompose(next, s, u, t, m, n - 1);
      StepsNext(next, s, m + n - 1, t, v);
    }
  }

  /** Some closed walk leads through v. */
  ghost predicate OnCycle<V>(next: map<V, seq<V>>, v: V) {
    exists n: nat :: n > 0 && v in Steps(next, v, n)
  }

  ghost predicate Reaches<V>(next: map<V, seq<V>>, s: V, v: V) {
    exists n: nat :: v in Steps(next, s, n)
  }
}
