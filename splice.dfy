/**
 * The two uses of `Array.prototype.splice` in the drag handler, on values:
 * `list.splice(i, 1)` removes the element at `i`, and
 * `list.splice(i, 0, x)` inserts `x` before position `i`, where a start
 * beyond the end of the list is clamped to its length.
 */
module Splice {

  /** The position `splice` actually uses for a non-negative start `i` on a list of length `n`. */
  function Clamp(i: nat, n: nat): nat {
    if i <= n then i else n
  }

  /** `s.splice(i, 1)`: the list without its element at `i`, the others in order. */
  function RemoveAt<T>(s: seq<T>, i: nat): (r: seq<T>)
    requires i < |s|
    ensures |r| == |s| - 1
    ensures forall k :: 0 <= k < i ==> r[k] == s[k]
    ensures forall k :: i <= k < |r| ==> r[k] == s[k + 1]
    ensures multiset(r) + multiset{s[i]} == multiset(s)
  {
    assert s == s[..i] + [s[i]] + s[i + 1..];
    s[..i] + s[i + 1..]
  }

  /** `s.splice(i, 0, x)`: `x` now sits at the clamped position, everything else in order around it. */
  function InsertAt<T>(s: seq<T>, i: nat, x: T): (r: seq<T>)
    ensures |r| == |s| + 1
    ensures r[Clamp(i, |s|)] == x
    ensures forall k :: 0 <= k < Clamp(i, |s|) ==> r[k] == s[k]
    ensures forall k :: Clamp(i, |s|) < k < |r| ==> r[k] == s[k - 1]
    ensures multiset(r) == multiset(s) + multiset{x}
  {
    var p := Clamp(i, |s|);
    assert s == s[..p] + s[p..];
    s[..p] + [x] + s[p..]
  }

  /** Removing what was just inserted gives the list back. */
  lemma RemoveInsertRoundTrip<T>(s: seq<T>, i: nat, x: T)
    ensures RemoveAt(InsertAt(s, i, x), Clamp(i, |s|)) == s
  {
    var r := RemoveAt(InsertAt(s, i, x), Clamp(i, |s|));
    assert forall k :: 0 <= k < |s| ==> r[k] == s[k];
  }

  /** Putting a removed element back where it was gives the list back. */
  lemma InsertRemoveRoundTrip<T>(s: seq<T>, i: nat)
    requires i < |s|
    ensures InsertAt(RemoveAt(s, i), i, s[i]) == s
  {
    var r := InsertAt(RemoveAt(s, i), i, s[i]);
    assert forall k :: 0 <= k < |s| ==> r[k] == s[k];
  }
}
