/** Arrays of pointers as blocks of memory: what moving and reallocating does, and when it has no
    meaning. */
module Memory {
  import opened Options

  /** A slot that was never written holds None. */
  type Block<T> = seq<Option<T>>

  function Stored<T>(xs: seq<T>): (b: Block<T>)
    ensures |b| == |xs| && forall i :: 0 <= i < |xs| ==> b[i] == Some(xs[i])
  {
    seq(|xs|, i requires 0 <= i < |xs| => Some(xs[i]))
  }

  function Realloc<T>(b: Block<T>, n: nat): (c: Block<T>)
    ensures |c| == n && forall i :: 0 <= i < n ==> c[i] == if i < |b| then b[i] else None
  {
    seq(n, i => if 0 <= i < |b| then b[i] else None)
  }

  function Resized<T>(b: Option<Block<T>>, n: nat): Option<Block<T>> {
    if b.Some? then Some(Realloc(b.value, n)) else None
  }

  /** Moves n slots; None is undefined behaviour, a move outside the two blocks or after one. */
  function Memmove<T>(to: Option<Block<T>>, at: nat, from: Block<T>, start: nat, n: nat): Option<Block<T>> {
    if to.Some? && at + n <= |to.value| && start + n <= |from| then
      Some(to.value[..at] + from[start..start + n] + to.value[at + n..])
    else None
  }

  /** What a block holds when every slot was written; reading another slot has no meaning. */
  function Loaded<T>(b: Option<Block<T>>): Option<seq<T>> {
    if b.Some? && forall i :: 0 <= i < |b.value| ==> b.value[i].Some? then
      Some(seq(|b.value|, i requires 0 <= i < |b.value| => b.value[i].value))
    else None
  }

  lemma StoredLoads<T>(xs: seq<T>)
    ensures Loaded(Some(Stored(xs))) == Some(xs)
  {
    assert Loaded(Some(Stored(xs))).value == xs;
  }
}
