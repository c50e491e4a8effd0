/**
 * The invocation list of a C# multicast delegate: `+=` appends the other
 * delegate's list, and `-=` removes the LAST contiguous occurrence of the other
 * delegate's list, or leaves the list as it is when there is none. An empty list
 * stands for `null`.
 */
module Multicast {
  import opened Results

  /** `sub` occurs in `s` starting at index `i`. */
  predicate OccursAt<T(==)>(s: seq<T>, sub: seq<T>, i: int) {
    0 <= i && i + |sub| <= |s| && s[i..i + |sub|] == sub
  }

  /** The start of the last occurrence of `sub` in `s`. */
  function LastOccurrence<T(==)>(s: seq<T>, sub: seq<T>): (r: Option<nat>)
    ensures r.Some? ==> OccursAt(s, sub, r.value)
    ensures r.Some? ==> forall j :: r.value < j ==> !OccursAt(s, sub, j)
    ensures r.None? ==> forall j :: !OccursAt(s, sub, j)
  {
    if |s| < |sub| then None
    else if s[|s| - |sub|..] == sub then Some(|s| - |sub|)
    else
      var r := LastOccurrence(s[..|s| - 1], sub);
      assert forall j :: OccursAt(s, sub, j) && j < |s| - |sub| ==> OccursAt(s[..|s| - 1], sub, j) by {
        forall j | OccursAt(s, sub, j) && j < |s| - |sub|
          ensures OccursAt(s[..|s| - 1], sub, j)
        {
          assert s[..|s| - 1][j..j + |sub|] == s[j..j + |sub|];
        }
      }
      assert forall j :: OccursAt(s[..|s| - 1], sub, j) ==> OccursAt(s, sub, j) by {
        forall j | OccursAt(s[..|s| - 1], sub, j)
          ensures OccursAt(s, sub, j)
        {
          assert s[..|s| - 1][j..j + |sub|] == s[j..j + |sub|];
        }
      }
      r
  }

  /** `Delegate.Remove(source, value)` on invocation lists. */
  function Remove<T(==)>(source: seq<T>, value: seq<T>): (r: seq<T>)
    ensures value == [] ==> r == source
    ensures (forall j :: !OccursAt(source, value, j)) ==> r == source
  {
    if value == [] then source
    else
      match LastOccurrence(source, value)
      case None => source
      case Some(i) => source[..i] + source[i + |value|..]
  }

  /** Chaining a list and then dechaining the same list restores the original. */
  lemma RemoveCombined<T>(a: seq<T>, b: seq<T>)
    ensures Remove(a + b, b) == a
  {
    if b != [] {
      assert (a + b)[|a|..] == b;
      assert LastOccurrence(a + b, b) == Some(|a|);
      assert (a + b)[..|a|] == a;
    }
  }
}
