/** The stable sort by a numeric key that the router and the blocklist loader share. */
module Sorting {

  predicate Ascending<T>(key: T -> int, xs: seq<T>) {
    forall i, j :: 0 <= i < j < |xs| ==> key(xs[i]) <= key(xs[j])
  }

  /** Place `x` before the first element whose key is not smaller. */
  function Insert<T>(key: T -> int, x: T, xs: seq<T>): seq<T> {
    if xs == [] || key(x) <= key(xs[0]) then [x] + xs else [xs[0]] + Insert(key, x, xs[1..])
  }

  lemma {:induction false} InsertCounts<T>(key: T -> int, x: T, xs: seq<T>)
    ensures multiset(Insert(key, x, xs)) == multiset(xs) + multiset{x}
  {
    if xs != [] && key(xs[0]) < key(x) {
      InsertCounts(key, x, xs[1..]);
      assert xs == [xs[0]] + xs[1..];
    }
  }

  lemma {:induction false} InsertMembers<T>(key: T -> int, x: T, xs: seq<T>)
    ensures forall y :: y in Insert(key, x, xs) ==> y == x || y in xs
  {
    if xs != [] && key(xs[0]) < key(x) { InsertMembers(key, x, xs[1..]); }
  }

  lemma {:induction false} InsertKeepsOrder<T>(key: T -> int, x: T, xs: seq<T>)
    requires Ascending(key, xs)
    ensures Ascending(key, Insert(key, x, xs))
  {
    if xs != [] && key(xs[0]) < key(x) {
      var rest := Insert(key, x, xs[1..]);
      InsertKeepsOrder(key, x, xs[1..]);
      InsertMembers(key, x, xs[1..]);
      forall i | 0 <= i < |rest| ensures key(xs[0]) <= key(rest[i]) {
        assert rest[i] == x || rest[i] in xs[1..];
      }
    }
  }

  function SortBy<T>(key: T -> int, xs: seq<T>): (out: seq<T>)
    ensures Ascending(key, out) && multiset(out) == multiset(xs)
  {
    if xs == [] then []
    else
      assert xs == [xs[0]] + xs[1..];
      var rest := SortBy(key, xs[1..]);
      InsertKeepsOrder(key, xs[0], rest);
      InsertCounts(key, xs[0], rest);
      Insert(key, xs[0], rest)
  }
}
