/** Two facts about slicing sequences, used by the string and the byte
    layouts alike. */
module Seqs {

  /** A sequence is the part before position `i`, the element there, and
      the part after it. */
  lemma Around<T>(s: seq<T>, i: int)
    requires 0 <= i < |s|
    ensures s[..i] + [s[i]] + s[i + 1..] == s
  {
  }

  /** Slicing the middle of a concatenation slices the middle part. */
  lemma SliceOfMiddle<T>(p: seq<T>, s: seq<T>, q: seq<T>, a: nat, b: nat)
    requires a <= b <= |s|
    ensures (p + s + q)[|p| + a..|p| + b] == s[a..b]
  {
    var x := p + s + q;
    forall k | 0 <= k < b - a ensures x[|p| + a..|p| + b][k] == s[a..b][k] {
      assert x[|p| + a + k] == s[a + k];
    }
  }
}
