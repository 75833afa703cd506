/** Concatenation and picking: the few facts about sequences that proofs have to name. */
module Slices {

  lemma Regroup<T>(a: seq<T>, b: seq<T>, c: seq<T>)
    ensures (a + b) + c == a + (b + c)
  {
  }

  lemma Halves<T>(a: seq<T>, b: seq<T>)
    ensures (a + b)[..|a|] == a && (a + b)[|a|..] == b
  {
  }

  /** Moving the first element over to an accumulator. */
  lemma Shift<T>(acc: seq<T>, s: seq<T>)
    requires s != []
    ensures (acc + [s[0]]) + s[1..] == acc + s
  {
  }

  lemma Neutral<T>(s: seq<T>)
    ensures [] + s == s && s + [] == s
  {
  }

  predicate InRange(rows: seq<nat>, n: nat) {
    forall k :: 0 <= k < |rows| ==> rows[k] < n
  }

  /** The elements at some positions, in the order of the positions. */
  function Pick<T>(s: seq<T>, rows: seq<nat>): (r: seq<T>)
    requires InRange(rows, |s|)
    ensures |r| == |rows|
  {
    seq(|rows|, k requires 0 <= k < |rows| => s[rows[k]])
  }
}
