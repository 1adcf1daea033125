/** Shape facts about sequence concatenation, stated once over plain
    sequences. The proofs elsewhere invoke them at the exact shape they need,
    so that the solver compares sequences element by element only here, away
    from the feed's recursive functions. */
module Seqs {

  /** Concatenation regroups freely. */
  lemma Associate<T>(a: seq<T>, b: seq<T>, c: seq<T>)
    ensures a + (b + c) == (a + b) + c
  {
  }

  lemma Regroup<T>(o: seq<T>, x: seq<T>, s: seq<T>, y: seq<T>, c: seq<T>)
    ensures o + (x + s + y) + c == o + x + s + y + c
  {
  }

  lemma Regroup4<T>(a: seq<T>, b: seq<T>, c: seq<T>, d: seq<T>)
    ensures a + (b + c) + d == (a + b) + (c + d)
  {
  }

  /** An empty middle part can be dropped. */
  lemma DropEmpty<T>(y: seq<T>, a: seq<T>, e: seq<T>, b: seq<T>)
    requires y == a + e && e == []
    ensures y + b == a + b
  {
  }

  /** A non-empty sequence is its head followed by its tail. */
  lemma ConsSplit<T>(xs: seq<T>, ys: seq<T>)
    requires xs != []
    ensures [xs[0]] + (xs[1..] + ys) == xs + ys
  {
    assert xs == [xs[0]] + xs[1..];
  }

  /** Prepending to a display gives the longer display. */
  lemma ConsDisplays<T>(x: T, y: T, z: T)
    ensures [x] + [] == [x]
    ensures [x] + [y] == [x, y]
    ensures [x] + [y, z] == [x, y, z]
  {
  }

  /** Three parts that are empty, one element and two elements make a
      three-element display. */
  lemma ThreeParts<T>(p: seq<T>, q: seq<T>, r: seq<T>, x: T, y: T, z: T)
    requires p == [] && q == [x] && r == [y, z]
    ensures p + q + r == [x, y, z]
  {
  }
}
