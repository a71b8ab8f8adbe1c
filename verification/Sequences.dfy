/**
 What many proofs need of sequences: how reversing goes along with appending an element, which is
 how bits are collected that are read backwards, and the two laws of concatenation that the
 verifier does not apply by itself.
 */
module Sequences {
  function Reverse<T>(s: seq<T>): (r: seq<T>)
    ensures |r| == |s|
    ensures forall i :: 0 <= i < |s| ==> r[i] == s[|s| - 1 - i]
  {
    if s == [] then [] else Reverse(s[1..]) + [s[0]]
  }

  lemma {:induction false} ReverseSnoc<T>(s: seq<T>, x: T)
    ensures Reverse(s + [x]) == [x] + Reverse(s)
  {
  }

  lemma {:induction false} Associate<T>(a: seq<T>, b: seq<T>, c: seq<T>)
    ensures (a + b) + c == a + (b + c)
  {
  }

  lemma {:induction false} NothingAdded<T>(s: seq<T>)
    ensures s + [] == s && [] + s == s
  {
  }
}
