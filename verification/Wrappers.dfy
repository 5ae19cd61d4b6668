/** What several components share: optional values, results with errors, and small facts about sequences. */
module Wrappers {

  datatype Option<+T> = None | Some(value: T)

  datatype Result<+T, +R> = Ok(value: T) | Err(error: R)

  /** One for a condition that holds, in sums that count. */
  function B(b: bool): nat {
    if b then 1 else 0
  }

  /** n copies of x. */
  function Copies<T>(x: T, n: nat): (s: seq<T>)
    ensures |s| == n && forall i :: 0 <= i < n ==> s[i] == x
  {
    seq(n, _ => x)
  }

  predicate Only<T(==)>(s: seq<T>, x: T) {
    forall i :: 0 <= i < |s| ==> s[i] == x
  }

  lemma OnlySlice<T>(s: seq<T>, x: T, i: nat, j: nat)
    requires Only(s, x) && i <= j <= |s|
    ensures Only(s[i..j], x)
  {
  }

  /** A slice that is a concatenation splits into its parts. */
  lemma SliceParts<T>(s: seq<T>, pos: nat, a: seq<T>, b: seq<T>)
    requires pos + |a + b| <= |s| && s[pos..pos + |a + b|] == a + b
    ensures s[pos..pos + |a|] == a && s[pos + |a|..pos + |a| + |b|] == b
  {
    assert s[pos..pos + |a|] == s[pos..pos + |a + b|][..|a|];
    assert s[pos + |a|..pos + |a| + |b|] == s[pos..pos + |a + b|][|a|..];
  }

  /** What stands at a position is what the rest from there starts with. */
  lemma RestStarts<T>(s: seq<T>, pos: nat, b: seq<T>)
    requires pos + |b| <= |s| && s[pos..pos + |b|] == b
    ensures b <= s[pos..]
  {
    assert s[pos..][..|b|] == s[pos..pos + |b|];
  }

  /** A slice of a slice. */
  lemma SubSlice<T>(s: seq<T>, pos: nat, b: seq<T>, i: nat, j: nat)
    requires pos + |b| <= |s| && s[pos..pos + |b|] == b && i <= j <= |b|
    ensures s[pos + i..pos + j] == b[i..j]
  {
    forall k | 0 <= k < j - i
      ensures s[pos + i..pos + j][k] == b[i..j][k]
    {
      assert s[pos..pos + |b|][i + k] == s[pos + i + k];
    }
  }
}
