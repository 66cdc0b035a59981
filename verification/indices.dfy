/** Index sets and the increasing list of the indices a matcher left unused. */
module Indices {

  /** The indices `0..n-1` as a set. */
  function IndexRange(n: nat): (r: set<int>)
    ensures forall i :: i in r <==> 0 <= i < n
  {
    if n == 0 then {} else IndexRange(n - 1) + {n - 1}
  }

  /** The indices below `n` that are not in `used`, in increasing order. */
  function Unmatched(n: nat, used: set<int>): (r: seq<nat>)
    ensures forall k :: 0 <= k < |r| ==> r[k] < n && r[k] !in used
    ensures forall k1, k2 :: 0 <= k1 < k2 < |r| ==> r[k1] < r[k2]
  {
    if n == 0 then [] else Unmatched(n - 1, used) + (if n - 1 in used then [] else [n - 1])
  }

  /** Every index below `n` outside `used` is left over. */
  lemma {:induction false} UnmatchedComplete(n: nat, used: set<int>, i: int)
    requires 0 <= i < n && i !in used
    ensures i in Unmatched(n, used)
  {
    if i < n - 1 {
      UnmatchedComplete(n - 1, used, i);
    }
  }

  lemma {:induction false} UnmatchedAgree(n: nat, a: set<int>, b: set<int>)
    requires forall i :: 0 <= i < n ==> (i in a <==> i in b)
    ensures Unmatched(n, a) == Unmatched(n, b)
  {
    if n > 0 {
      UnmatchedAgree(n - 1, a, b);
    }
  }

  /** With `used` inside `0..n-1`, exactly `n - |used|` indices are left over. */
  lemma {:induction false} UnmatchedLength(n: nat, used: set<int>)
    requires forall i :: i in used ==> 0 <= i < n
    ensures |Unmatched(n, used)| == n - |used|
  {
    if n == 0 {
      assert used == {} by {
        forall i | i in used ensures false { }
      }
    } else {
      var rest := used - {n - 1};
      UnmatchedLength(n - 1, rest);
      UnmatchedAgree(n - 1, used, rest);
      if n - 1 in used {
        assert used == rest + {n - 1};
      } else {
        assert used == rest;
      }
    }
  }

  /**
   * A matcher's decisions, one per row: the column taken, or -1. The columns
   * taken so far.
   */
  function UsedSet(pairing: seq<int>): set<int> {
    set i | 0 <= i < |pairing| && pairing[i] != -1 :: pairing[i]
  }

  /** Every decision is a column below `n` or -1, and no column is taken twice. */
  predicate PairingValid(pairing: seq<int>, n: nat) {
    (forall i :: 0 <= i < |pairing| ==> -1 <= pairing[i] < n)
    && (forall i1, i2 :: 0 <= i1 < i2 < |pairing| && pairing[i1] != -1 ==> pairing[i1] != pairing[i2])
  }

  lemma UsedSetAppend(pairing: seq<int>, x: int)
    ensures UsedSet(pairing + [x]) == UsedSet(pairing) + (if x == -1 then {} else {x})
  {
    var q := pairing + [x];
    assert q[|pairing|] == x;
    assert forall i :: 0 <= i < |pairing| ==> q[i] == pairing[i];
  }
}
