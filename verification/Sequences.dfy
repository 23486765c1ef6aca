/** Concatenation, and laws of concatenation and slicing that proofs call where they need them. */
module Sequences {
  function Concat<T>(parts: seq<seq<T>>): seq<T> {
    if parts == [] then [] else parts[0] + Concat(parts[1..])
  }

  lemma {:induction false} ConcatCons<T>(part: seq<T>, parts: seq<seq<T>>)
    ensures Concat([part] + parts) == part + Concat(parts)
  {
    assert ([part] + parts)[1..] == parts;
  }

  lemma Concat0<T>(a: seq<T>)
    ensures a + [] == a && [] + a == a
  {
  }

  lemma Concat3<T>(a: seq<T>, b: seq<T>, c: seq<T>)
    ensures a + (b + c) == (a + b) + c
  {
  }

  lemma CutAppend<T>(a: seq<T>, b: seq<T>, n: nat)
    requires n <= |a|
    ensures (a + b)[..n] == a[..n] && (a + b)[n..] == a[n..] + b
  {
  }

  lemma {:induction false} SlicesOfCons<T>(x: T, rest: seq<T>, n: nat)
    requires n <= |rest|
    ensures ([x] + rest)[0] == x && ([x] + rest)[1..n + 1] == rest[..n] && ([x] + rest)[n + 1..] == rest[n..]
  {
    assert forall i | 0 <= i < n :: ([x] + rest)[1..n + 1][i] == rest[i];
    assert forall i | 0 <= i < |rest| - n :: ([x] + rest)[n + 1..][i] == rest[n..][i];
  }

  lemma TailOfAppend<T>(a: seq<T>, b: seq<T>)
    requires a != []
    ensures (a + b)[0] == a[0] && (a + b)[1..] == a[1..] + b
  {
  }

  lemma {:induction false} SliceOfTail<T>(s: seq<T>, i: nat, j: nat)
    requires 0 < i <= j <= |s|
    ensures s[1..][i - 1..j - 1] == s[i..j] && s[1..][..i - 1] == s[..i][1..]
  {
    assert forall k | 0 <= k < i - 1 :: s[1..][..i - 1][k] == s[k + 1] == s[..i][1..][k];
  }
}
