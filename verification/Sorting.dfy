/** A stable sort by an integer key, as a library call gives it. */
module Sorting {

  function Insert<T(==)>(key: map<T, int>, x: T, ys: seq<T>): (r: seq<T>)
    requires x in key && Keyed(key, ys)
    ensures r != [] && Keyed(key, r)
  {
    if ys == [] || key[x] <= key[ys[0]] then [x] + ys else [ys[0]] + Insert(key, x, ys[1..])
  }

  lemma {:induction false} InsertPermutes<T>(key: map<T, int>, x: T, ys: seq<T>)
    requires x in key && Keyed(key, ys)
    ensures multiset(Insert(key, x, ys)) == multiset([x]) + multiset(ys)
  {
    if !(ys == [] || key[x] <= key[ys[0]]) {
      InsertPermutes(key, x, ys[1..]);
      assert ys == [ys[0]] + ys[1..];
    }
  }

  lemma {:induction false} InsertOrders<T>(key: map<T, int>, x: T, ys: seq<T>)
    requires x in key && Keyed(key, ys) && Ordered(key, ys)
    ensures Ordered(key, Insert(key, x, ys))
    ensures Insert(key, x, ys)[0] == x || (ys != [] && Insert(key, x, ys)[0] == ys[0])
  {
    if !(ys == [] || key[x] <= key[ys[0]]) {
      InsertOrders(key, x, ys[1..]);
      OrderedFrom(key, ys[0], Insert(key, x, ys[1..]));
    }
  }

  lemma OrderedFrom<T>(key: map<T, int>, y: T, rest: seq<T>)
    requires y in key && Keyed(key, rest) && Ordered(key, rest) && (rest != [] ==> key[y] <= key[rest[0]])
    ensures Keyed(key, [y] + rest) && Ordered(key, [y] + rest)
  {}

  ghost predicate Keyed<T>(key: map<T, int>, xs: seq<T>) {
    forall i :: 0 <= i < |xs| ==> xs[i] in key
  }

  ghost predicate Ordered<T>(key: map<T, int>, xs: seq<T>)
    requires Keyed(key, xs)
  {
    forall i, j :: 0 <= i < j < |xs| ==> key[xs[i]] <= key[xs[j]]
  }

  function Sorted<T(==)>(key: map<T, int>, xs: seq<T>): (r: seq<T>)
    requires Keyed(key, xs)
    ensures multiset(r) == multiset(xs) && Keyed(key, r) && Ordered(key, r)
  {
    if xs == [] then []
    else
      var rest := Sorted(key, xs[1..]);
      assert xs == [xs[0]] + xs[1..];
      InsertPermutes(key, xs[0], rest);
      InsertOrders(key, xs[0], rest);
      Insert(key, xs[0], rest)
  }
}
