/** Insertion-ordered de-duplication: what a JavaScript `Set` (or the key
    order of a `Map`) does to a sequence of values added one by one. */
module Sequences {

  predicate NoDuplicates<T(==)>(s: seq<T>) {
    forall i, j | 0 <= i < j < |s| :: s[i] != s[j]
  }

  /** Adding `xs` to an empty set one after the other and reading the set
      back: a value already present is not added again. */
  function Dedup<T(==)>(xs: seq<T>): seq<T>
    decreases |xs|
  {
    if |xs| == 0 then []
    else
      var d := Dedup(xs[..|xs| - 1]);
      if xs[|xs| - 1] in d then d else d + [xs[|xs| - 1]]
  }

  /** `a` occurs in `xs` before the first occurrence of `b`. */
  ghost predicate SeenBefore<T>(xs: seq<T>, a: T, b: T) {
    exists i | 0 <= i < |xs| :: xs[i] == a && b !in xs[..i + 1]
  }

  /** The de-duplicated sequence holds every value exactly once and lists
      the values in the order of their first occurrence. */
  lemma {:induction false} DedupSpec<T>(xs: seq<T>)
    ensures NoDuplicates(Dedup(xs))
    ensures forall x :: x in Dedup(xs) <==> x in xs
    ensures forall a | 0 <= a < |Dedup(xs)| :: Dedup(xs)[a] in xs
    ensures forall a, b | 0 <= a < b < |Dedup(xs)| :: SeenBefore(xs, Dedup(xs)[a], Dedup(xs)[b])
    decreases |xs|
  {
    if |xs| > 0 {
      var front := xs[..|xs| - 1];
      var x := xs[|xs| - 1];
      var d := Dedup(front);
      DedupSpec(front);
      assert xs == front + [x];
      forall a, b | 0 <= a < b < |d| ensures SeenBefore(xs, d[a], d[b]) {
        var i :| 0 <= i < |front| && front[i] == d[a] && d[b] !in front[..i + 1];
        assert xs[..i + 1] == front[..i + 1];
        assert xs[i] == d[a];
      }
      if x !in d {
        var r := d + [x];
        forall a, b | 0 <= a < b < |r| ensures SeenBefore(xs, r[a], r[b]) {
          if b < |d| {
            assert r[a] == d[a] && r[b] == d[b];
          } else {
            assert r[a] == d[a] && d[a] in front;
            var i :| 0 <= i < |front| && front[i] == r[a];
            assert xs[..i + 1] == front[..i + 1];
            assert x !in front;
            assert xs[i] == r[a];
          }
        }
      }
    }
  }

  /** A sequence without duplicates is its own de-duplication. */
  lemma {:induction false} DedupOfDistinct<T>(xs: seq<T>)
    requires NoDuplicates(xs)
    ensures Dedup(xs) == xs
    decreases |xs|
  {
    if |xs| > 0 {
      var front := xs[..|xs| - 1];
      DedupOfDistinct(front);
      assert xs[|xs| - 1] !in front;
      assert front + [xs[|xs| - 1]] == xs;
    }
  }
}
