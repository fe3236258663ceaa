module Sequences {

  lemma ConcatAssociates<T>(a: seq<T>, b: seq<T>, c: seq<T>)
    ensures (a + b) + c == a + (b + c)
  {
  }

  lemma ConcatCancels<T>(a: seq<T>, b: seq<T>, c: seq<T>)
    ensures a + b == a + c <==> b == c
  {
    assert (a + b)[|a|..] == b && (a + c)[|a|..] == c;
  }

  /** Of all, done comes first and rest is what follows. */
  predicate IsSplit<T(==)>(all: seq<T>, done: seq<T>, rest: seq<T>) {
    all == done + rest
  }

  lemma SplitAtStart<T>(done: seq<T>, rest: seq<T>)
    ensures IsSplit(done + rest, done, rest)
  {
  }

  lemma SplitMoves<T>(all: seq<T>, done: seq<T>, more: seq<T>, rest: seq<T>)
    requires IsSplit(all, done, more + rest)
    ensures IsSplit(all, done + more, rest)
  {
    ConcatAssociates(done, more, rest);
  }

  lemma SplitIs<T>(all: seq<T>, done: seq<T>, rest: seq<T>)
    requires IsSplit(all, done, rest)
    ensures all == done + rest && |all| == |done| + |rest|
    ensures rest == [] ==> all == done
  {
  }
}
