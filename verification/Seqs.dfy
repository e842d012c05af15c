/** Equations of sequences that proofs name one at a time. */
module Seqs {

  predicate IsPrefix<T(==)>(a: seq<T>, b: seq<T>) {
    |a| <= |b| && b[..|a|] == a
  }

  function Concat<T>(parts: seq<seq<T>>): seq<T> {
    if parts == [] then [] else Concat(parts[..|parts| - 1]) + parts[|parts| - 1]
  }

  // ---------------------------------------------------------------- appending

  lemma Assoc<T>(a: seq<T>, b: seq<T>, c: seq<T>)
    ensures (a + b) + c == a + (b + c)
  {
  }

  lemma EmptyLeft<T>(s: seq<T>)
    ensures [] + s == s
  {
  }

  lemma EmptyRight<T>(s: seq<T>)
    ensures s + [] == s
  {
  }

  lemma Peel<T>(a: seq<T>, b: seq<T>)
    ensures (a + b)[..|a|] == a && (a + b)[|a|..] == b
  {
  }

  lemma CancelLeft<T>(a: seq<T>, b: seq<T>, c: seq<T>)
    ensures a + b == a + c <==> b == c
  {
    Peel(a, b);
    Peel(a, c);
  }

  lemma CancelRight<T>(a: seq<T>, b: seq<T>, c: seq<T>)
    ensures a + c == b + c <==> a == b
  {
    if a + c == b + c {
      assert |a| == |b|;
      Peel(a, c);
      Peel(b, c);
    }
  }

  lemma ConsAppend<T>(a: seq<T>, b: seq<T>)
    requires a != []
    ensures a + b == [a[0]] + (a[1..] + b)
  {
  }

  lemma TakeOfAppend<T>(a: seq<T>, b: seq<T>, n: nat)
    requires n <= |a|
    ensures (a + b)[..n] == a[..n]
  {
  }

  lemma ConsDrop<T>(x: T, s: seq<T>)
    ensures |[x] + s| == |s| + 1 && ([x] + s)[0] == x && ([x] + s)[1..] == s
  {
  }

  lemma DropTwo<T>(x: T, y: T, b: seq<T>)
    ensures |[x, y] + b| == |b| + 2 && ([x, y] + b)[0] == x && ([x, y] + b)[1] == y && ([x, y] + b)[2..] == b
  {
  }

  lemma HeadTail<T>(s: seq<T>, last: T)
    requires s != []
    ensures (s + [last])[0] == s[0] && (s + [last])[1..] == s[1..] + [last]
  {
  }

  // ---------------------------------------------------------------- the last element

  lemma Unsnoc<T>(s: seq<T>, x: T)
    ensures |s + [x]| == |s| + 1
    ensures (s + [x])[..|s + [x]| - 1] == s && (s + [x])[|s + [x]| - 1] == x
  {
  }

  lemma AppendSnoc<T>(a: seq<T>, b: seq<T>)
    requires b != []
    ensures |a + b| > 0 && (a + b)[..|a + b| - 1] == a + b[..|b| - 1] && (a + b)[|a + b| - 1] == b[|b| - 1]
  {
  }

  lemma SplitLast<T>(s: seq<T>)
    requires s != []
    ensures s == s[..|s| - 1] + [s[|s| - 1]]
  {
  }

  /** `b` is `a` and one more element. */
  lemma SplitLastOne<T>(a: seq<T>, b: seq<T>)
    requires |b| == |a| + 1 && b[..|a|] == a
    ensures b == a + [b[|a|]]
  {
  }

  lemma JoinPair<T>(a: seq<T>, b: seq<T>, y: T)
    requires |b| == |a| + 1 && b[..|a|] == a
    ensures b + [y] == a + [b[|a|], y]
  {
  }

  // ---------------------------------------------------------------- taking

  lemma SplitAt<T>(s: seq<T>, k: nat)
    requires k <= |s|
    ensures s == s[..k] + s[k..]
  {
  }

  lemma TakeAll<T>(s: seq<T>)
    ensures s[..|s|] == s
  {
  }

  lemma TakeTake<T>(s: seq<T>, n: nat)
    requires n < |s|
    ensures s[..|s| - 1][..n] == s[..n]
  {
  }

  lemma ShorterPrefix<T>(a: seq<T>, x: T, b: seq<T>)
    requires IsPrefix(a + [x], b)
    ensures IsPrefix(a, b) && b[|a|] == x
  {
    assert b[..|a|] == b[..|a| + 1][..|a|];
    assert b[|a|] == b[..|a| + 1][|a|];
  }
}
