/**
 * The paragraph diff engine: pairing old and new paragraphs through a
 * similarity matrix (the optimal assignment's post-processing and the greedy
 * fallback), labelling leftovers as deleted or added, move detection, the
 * severity ladder, explanations and the aggregated result.
 */
module SemanticComparator {
  import opened Wrappers
  import opened TextUtil
  import opened Indices
  import SE = SemanticEmbedder

  datatype ChangeType = Unchanged | Modified | Added | Deleted | Moved

  datatype ChangeSeverity = Critical | Major | Minor | Trivial

  /** The explanation templates; the numbers are kept, the rendering to text is not modelled. */
  datatype Explanation =
    | Blank
    | NoChanges
    | AddedAt(position: int)
    | RemovedFrom(position: int)
    | MovedFromTo(from: int, to: int)
    | ModifiedWith(similarityPercent: real)

  /** `-1` stands for "no paragraph on this side". */
  datatype ParagraphMatch = ParagraphMatch(
    oldIndex: int, newIndex: int, oldText: string, newText: string, similarity: real,
    changeType: ChangeType, severity: ChangeSeverity, isMoved: bool, explanation: Explanation)

  datatype ComparisonResult = ComparisonResult(
    matches: seq<ParagraphMatch>, totalOld: nat, totalNew: nat,
    unchangedCount: nat, modifiedCount: nat, addedCount: nat, deletedCount: nat, movedCount: nat,
    averageSimilarity: real,
    criticalChanges: seq<ParagraphMatch>, majorChanges: seq<ParagraphMatch>)

  const DefaultSimilarityThreshold: real := 0.75
  const DefaultMoveThreshold: real := 0.85
  /** A pair above this similarity counts as unchanged. */
  const UnchangedAbove: real := 0.95
  const DefaultCriticalKeywords: seq<string> := [
    "must", "shall", "required", "mandatory",
    "legal", "compliance", "regulation",
    "contract", "agreement", "liability",
    "confidential", "proprietary", "patent"]

  /** A fresh match with the record's defaults: minor, not moved, no explanation. */
  function NewMatch(oldIndex: int, newIndex: int, oldText: string, newText: string,
                    similarity: real, changeType: ChangeType): ParagraphMatch {
    ParagraphMatch(oldIndex, newIndex, oldText, newText, similarity, changeType, Minor, false, Blank)
  }

  function PairType(similarity: real): (t: ChangeType)
    ensures t == Unchanged <==> similarity > UnchangedAbove
    ensures t == Unchanged || t == Modified
  {
    if similarity > UnchangedAbove then Unchanged else Modified
  }

  // ---------------------------------------------------------------------------
  // Pairs, leftovers and the layout both matchers produce
  // ---------------------------------------------------------------------------

  /** A pair as both matchers accept it: in range, read off the matrix, at or above the threshold. */
  predicate IsAcceptedPair(m: ParagraphMatch, oldParas: seq<string>, newParas: seq<string>,
                           sim: seq<seq<real>>, threshold: real)
    requires SE.IsMatrix(sim, |oldParas|, |newParas|)
  {
    0 <= m.oldIndex < |oldParas| && 0 <= m.newIndex < |newParas|
    && m == NewMatch(m.oldIndex, m.newIndex, oldParas[m.oldIndex], newParas[m.newIndex],
                     sim[m.oldIndex][m.newIndex], PairType(sim[m.oldIndex][m.newIndex]))
    && m.similarity >= threshold
  }

  function UsedOld(ps: seq<ParagraphMatch>): set<int> {
    set k | 0 <= k < |ps| :: ps[k].oldIndex
  }

  function UsedNew(ps: seq<ParagraphMatch>): set<int> {
    set k | 0 <= k < |ps| :: ps[k].newIndex
  }

  /** No old index and no new index is taken twice. */
  predicate Injective(ps: seq<ParagraphMatch>) {
    forall k1, k2 :: 0 <= k1 < k2 < |ps| ==>
      ps[k1].oldIndex != ps[k2].oldIndex && ps[k1].newIndex != ps[k2].newIndex
  }

  predicate ValidPairs(ps: seq<ParagraphMatch>, oldParas: seq<string>, newParas: seq<string>,
                       sim: seq<seq<real>>, threshold: real)
    requires SE.IsMatrix(sim, |oldParas|, |newParas|)
  {
    (forall k :: 0 <= k < |ps| ==> IsAcceptedPair(ps[k], oldParas, newParas, sim, threshold))
    && Injective(ps)
  }

  lemma UsedAppend(ps: seq<ParagraphMatch>, m: ParagraphMatch)
    ensures UsedOld(ps + [m]) == UsedOld(ps) + {m.oldIndex}
    ensures UsedNew(ps + [m]) == UsedNew(ps) + {m.newIndex}
  {
    var qs := ps + [m];
    assert qs[|ps|] == m;
    assert forall k :: 0 <= k < |ps| ==> qs[k] == ps[k];
  }

  function DeletedMatch(i: int, text: string): ParagraphMatch {
    NewMatch(i, -1, text, "", 0.0, Deleted)
  }

  function AddedMatch(j: int, text: string): ParagraphMatch {
    NewMatch(-1, j, "", text, 0.0, Added)
  }

  /** One `DELETED` entry per old paragraph below `n` that is not in `used`, in index order. */
  function DeletedRun(oldParas: seq<string>, used: set<int>, n: nat): seq<ParagraphMatch>
    requires n <= |oldParas|
  {
    if n == 0 then []
    else DeletedRun(oldParas, used, n - 1) + (if n - 1 in used then [] else [DeletedMatch(n - 1, oldParas[n - 1])])
  }

  /** One `ADDED` entry per new paragraph below `n` that is not in `used`, in index order. */
  function AddedRun(newParas: seq<string>, used: set<int>, n: nat): seq<ParagraphMatch>
    requires n <= |newParas|
  {
    if n == 0 then []
    else AddedRun(newParas, used, n - 1) + (if n - 1 in used then [] else [AddedMatch(n - 1, newParas[n - 1])])
  }

  /** The unpaired old paragraphs as `DELETED`, then the unpaired new ones as `ADDED`. */
  function Leftovers(oldParas: seq<string>, newParas: seq<string>, usedOld: set<int>, usedNew: set<int>)
    : seq<ParagraphMatch>
  {
    DeletedRun(oldParas, usedOld, |oldParas|) + AddedRun(newParas, usedNew, |newParas|)
  }

  /** The loops that append the unpaired paragraphs after the accepted pairs. */
  method AppendUnmatched(pairs: seq<ParagraphMatch>, oldParas: seq<string>, newParas: seq<string>,
                         matchedOld: set<int>, matchedNew: set<int>)
    returns (ms: seq<ParagraphMatch>)
    ensures ms == pairs + Leftovers(oldParas, newParas, matchedOld, matchedNew)
  {
    ms := pairs;
    for i := 0 to |oldParas|
      invariant ms == pairs + DeletedRun(oldParas, matchedOld, i)
    {
      if i !in matchedOld {
        ms := ms + [DeletedMatch(i, oldParas[i])];
      }
    }
    for j := 0 to |newParas|
      invariant ms == pairs + DeletedRun(oldParas, matchedOld, |oldParas|) + AddedRun(newParas, matchedNew, j)
    {
      if j !in matchedNew {
        ms := ms + [AddedMatch(j, newParas[j])];
      }
    }
  }

  /** The number of leading entries that pair an old with a new paragraph. */
  function PairPrefix(ms: seq<ParagraphMatch>): (a: nat)
    ensures a <= |ms|
    ensures forall k :: 0 <= k < a ==> ms[k].oldIndex != -1 && ms[k].newIndex != -1
    ensures a < |ms| ==> ms[a].oldIndex == -1 || ms[a].newIndex == -1
  {
    if ms == [] || ms[0].oldIndex == -1 || ms[0].newIndex == -1 then 0 else 1 + PairPrefix(ms[1..])
  }

  function OldIdx(ms: seq<ParagraphMatch>): (r: seq<int>)
    ensures |r| == |ms| && forall k :: 0 <= k < |ms| ==> r[k] == ms[k].oldIndex
  {
    seq(|ms|, k requires 0 <= k < |ms| => ms[k].oldIndex)
  }

  function NewIdx(ms: seq<ParagraphMatch>): (r: seq<int>)
    ensures |r| == |ms| && forall k :: 0 <= k < |ms| ==> r[k] == ms[k].newIndex
  {
    seq(|ms|, k requires 0 <= k < |ms| => ms[k].newIndex)
  }

  /** Every index below `n` occurs exactly once in `idx`; all other entries are `-1`. */
  predicate CoveredOnce(idx: seq<int>, n: nat) {
    (forall k :: 0 <= k < |idx| ==> -1 <= idx[k] < n)
    && (forall k1, k2 :: 0 <= k1 < k2 < |idx| && idx[k1] != -1 ==> idx[k1] != idx[k2])
    && (forall i :: 0 <= i < n ==> i in idx)
  }

  /** What both matchers return: `a` accepted pairs, then the leftovers of exactly those pairs. */
  predicate MatchLayout(ms: seq<ParagraphMatch>, a: nat, oldParas: seq<string>, newParas: seq<string>,
                        sim: seq<seq<real>>, threshold: real)
    requires SE.IsMatrix(sim, |oldParas|, |newParas|)
  {
    a <= |ms|
    && ValidPairs(ms[..a], oldParas, newParas, sim, threshold)
    && ms[a..] == Leftovers(oldParas, newParas, UsedOld(ms[..a]), UsedNew(ms[..a]))
  }

  lemma {:induction false} InjectiveUsedCount(ps: seq<ParagraphMatch>)
    requires Injective(ps)
    ensures |UsedOld(ps)| == |ps| && |UsedNew(ps)| == |ps|
  {
    if ps != [] {
      var init := ps[..|ps| - 1];
      var last := ps[|ps| - 1];
      assert ps == init + [last];
      InjectiveUsedCount(init);
      UsedAppend(init, last);
      assert last.oldIndex !in UsedOld(init);
      assert last.newIndex !in UsedNew(init);
    }
  }

  /** `PairPrefix` finds the boundary between pairs and leftovers. */
  lemma {:induction false} PairPrefixAt(ms: seq<ParagraphMatch>, a: nat)
    requires a <= |ms|
    requires forall k :: 0 <= k < a ==> ms[k].oldIndex != -1 && ms[k].newIndex != -1
    requires a < |ms| ==> ms[a].oldIndex == -1 || ms[a].newIndex == -1
    ensures PairPrefix(ms) == a
  {
    if a > 0 {
      PairPrefixAt(ms[1..], a - 1);
    }
  }

  lemma IdxConcat(a: seq<ParagraphMatch>, b: seq<ParagraphMatch>)
    ensures OldIdx(a + b) == OldIdx(a) + OldIdx(b)
    ensures NewIdx(a + b) == NewIdx(a) + NewIdx(b)
  {
  }

  /** The deleted run carries the unpaired old indices and no new index. */
  lemma {:induction false} DeletedRunIdx(oldParas: seq<string>, used: set<int>, n: nat)
    requires n <= |oldParas|
    ensures OldIdx(DeletedRun(oldParas, used, n)) == Unmatched(n, used)
    ensures forall k :: 0 <= k < |DeletedRun(oldParas, used, n)| ==> DeletedRun(oldParas, used, n)[k].newIndex == -1
  {
    if n > 0 {
      DeletedRunIdx(oldParas, used, n - 1);
      var prev := DeletedRun(oldParas, used, n - 1);
      var tail := if n - 1 in used then [] else [DeletedMatch(n - 1, oldParas[n - 1])];
      assert DeletedRun(oldParas, used, n) == prev + tail;
      IdxConcat(prev, tail);
      assert OldIdx(tail) == if n - 1 in used then [] else [n - 1];
      assert Unmatched(n, used) == Unmatched(n - 1, used) + (if n - 1 in used then [] else [n - 1]);
      forall k | 0 <= k < |prev + tail| ensures (prev + tail)[k].newIndex == -1 {
        if k < |prev| {
          assert (prev + tail)[k] == prev[k];
        }
      }
    }
  }

  /** The added run carries the unpaired new indices and no old index. */
  lemma {:induction false} AddedRunIdx(newParas: seq<string>, used: set<int>, n: nat)
    requires n <= |newParas|
    ensures NewIdx(AddedRun(newParas, used, n)) == Unmatched(n, used)
    ensures forall k :: 0 <= k < |AddedRun(newParas, used, n)| ==> AddedRun(newParas, used, n)[k].oldIndex == -1
  {
    if n > 0 {
      AddedRunIdx(newParas, used, n - 1);
      var prev := AddedRun(newParas, used, n - 1);
      var tail := if n - 1 in used then [] else [AddedMatch(n - 1, newParas[n - 1])];
      assert AddedRun(newParas, used, n) == prev + tail;
      IdxConcat(prev, tail);
      assert NewIdx(tail) == if n - 1 in used then [] else [n - 1];
      assert Unmatched(n, used) == Unmatched(n - 1, used) + (if n - 1 in used then [] else [n - 1]);
      forall k | 0 <= k < |prev + tail| ensures (prev + tail)[k].oldIndex == -1 {
        if k < |prev| {
          assert (prev + tail)[k] == prev[k];
        }
      }
    }
  }

  /**
   * Distinct in-range indices `p`, followed in either order by the indices `u`
   * that `p` leaves free and by `-1` placeholders, cover `0..n-1` exactly once.
   */
  lemma CoverWithLeftovers(p: seq<int>, used: set<int>, m: seq<int>, n: nat)
    requires forall k :: 0 <= k < |p| ==> 0 <= p[k] < n
    requires forall k1, k2 :: 0 <= k1 < k2 < |p| ==> p[k1] != p[k2]
    requires forall x :: x in used <==> x in p
    requires forall k :: 0 <= k < |m| ==> m[k] == -1
    ensures CoveredOnce(p + Unmatched(n, used) + m, n)
    ensures CoveredOnce(p + m + Unmatched(n, used), n)
  {
    var u := Unmatched(n, used);
    forall i | 0 <= i < n
      ensures i in p || i in u
    {
      if i !in used {
        UnmatchedComplete(n, used, i);
      }
    }
    LeftoversAfterPairs(p, used, m, n);
    LeftoversLast(p, used, m, n);
  }

  lemma LeftoversAfterPairs(p: seq<int>, used: set<int>, m: seq<int>, n: nat)
    requires forall k :: 0 <= k < |p| ==> 0 <= p[k] < n
    requires forall k1, k2 :: 0 <= k1 < k2 < |p| ==> p[k1] != p[k2]
    requires forall x :: x in used <==> x in p
    requires forall k :: 0 <= k < |m| ==> m[k] == -1
    requires forall i :: 0 <= i < n ==> i in p || i in Unmatched(n, used)
    ensures CoveredOnce(p + Unmatched(n, used) + m, n)
  {
    var u := Unmatched(n, used);
    var q := p + u + m;
    forall k1, k2 | 0 <= k1 < k2 < |q| && q[k1] != -1
      ensures q[k1] != q[k2]
    {
      if k1 < |p| && |p| <= k2 < |p| + |u| {
        assert q[k1] in used && q[k2] == u[k2 - |p|];
      }
    }
  }

  lemma LeftoversLast(p: seq<int>, used: set<int>, m: seq<int>, n: nat)
    requires forall k :: 0 <= k < |p| ==> 0 <= p[k] < n
    requires forall k1, k2 :: 0 <= k1 < k2 < |p| ==> p[k1] != p[k2]
    requires forall x :: x in used <==> x in p
    requires forall k :: 0 <= k < |m| ==> m[k] == -1
    requires forall i :: 0 <= i < n ==> i in p || i in Unmatched(n, used)
    ensures CoveredOnce(p + m + Unmatched(n, used), n)
  {
    var u := Unmatched(n, used);
    var q := p + m + u;
    forall k1, k2 | 0 <= k1 < k2 < |q| && q[k1] != -1
      ensures q[k1] != q[k2]
    {
      if k1 < |p| && |p| + |m| <= k2 {
        assert q[k1] in used && q[k2] == u[k2 - |p| - |m|];
      }
    }
  }

  /** The pairs' indices are distinct, so they use up exactly `|ps|` indices on each side. */
  lemma PairsIdx(ps: seq<ParagraphMatch>, n: nat, oldSide: bool)
    requires Injective(ps)
    requires forall k :: 0 <= k < |ps| ==> 0 <= (if oldSide then ps[k].oldIndex else ps[k].newIndex) < n
    ensures var p := if oldSide then OldIdx(ps) else NewIdx(ps);
      var used := if oldSide then UsedOld(ps) else UsedNew(ps);
      (forall k :: 0 <= k < |p| ==> 0 <= p[k] < n)
      && (forall k1, k2 :: 0 <= k1 < k2 < |p| ==> p[k1] != p[k2])
      && (forall x :: x in used <==> x in p)
      && (forall x :: x in used ==> 0 <= x < n)
      && |used| == |ps|
  {
    InjectiveUsedCount(ps);
  }

  /** The pairs of a layout use distinct in-range indices on both sides. */
  lemma LayoutPairs(ms: seq<ParagraphMatch>, a: nat, oldParas: seq<string>, newParas: seq<string>,
                    sim: seq<seq<real>>, threshold: real)
    requires SE.IsMatrix(sim, |oldParas|, |newParas|)
    requires MatchLayout(ms, a, oldParas, newParas, sim, threshold)
    ensures Injective(ms[..a])
    ensures forall k :: 0 <= k < a ==> 0 <= ms[k].oldIndex < |oldParas| && 0 <= ms[k].newIndex < |newParas|
  {
    assert forall k :: 0 <= k < a ==> ms[..a][k] == ms[k];
  }

  lemma LayoutOld(ms: seq<ParagraphMatch>, a: nat, oldParas: seq<string>, newParas: seq<string>,
                  usedNew: set<int>)
    requires a <= |ms| && Injective(ms[..a])
    requires forall k :: 0 <= k < a ==> 0 <= ms[k].oldIndex < |oldParas|
    requires ms[a..] == Leftovers(oldParas, newParas, UsedOld(ms[..a]), usedNew)
    ensures CoveredOnce(OldIdx(ms), |oldParas|)
    ensures |DeletedRun(oldParas, UsedOld(ms[..a]), |oldParas|)| + a == |oldParas|
  {
    var ps := ms[..a];
    var used := UsedOld(ps);
    var d := DeletedRun(oldParas, used, |oldParas|);
    var ad := AddedRun(newParas, usedNew, |newParas|);
    assert ms == ps + d + ad;
    DeletedRunIdx(oldParas, used, |oldParas|);
    AddedRunIdx(newParas, usedNew, |newParas|);
    IdxConcat(ps, d);
    IdxConcat(ps + d, ad);
    PairsIdx(ps, |oldParas|, true);
    UnmatchedLength(|oldParas|, used);
    CoverWithLeftovers(OldIdx(ps), used, OldIdx(ad), |oldParas|);
  }

  lemma LayoutNew(ms: seq<ParagraphMatch>, a: nat, oldParas: seq<string>, newParas: seq<string>,
                  usedOld: set<int>)
    requires a <= |ms| && Injective(ms[..a])
    requires forall k :: 0 <= k < a ==> 0 <= ms[k].newIndex < |newParas|
    requires ms[a..] == Leftovers(oldParas, newParas, usedOld, UsedNew(ms[..a]))
    ensures CoveredOnce(NewIdx(ms), |newParas|)
    ensures |AddedRun(newParas, UsedNew(ms[..a]), |newParas|)| + a == |newParas|
  {
    var ps := ms[..a];
    var used := UsedNew(ps);
    var d := DeletedRun(oldParas, usedOld, |oldParas|);
    var ad := AddedRun(newParas, used, |newParas|);
    assert ms == ps + d + ad;
    DeletedRunIdx(oldParas, usedOld, |oldParas|);
    AddedRunIdx(newParas, used, |newParas|);
    IdxConcat(ps, d);
    IdxConcat(ps + d, ad);
    PairsIdx(ps, |newParas|, false);
    UnmatchedLength(|newParas|, used);
    CoverWithLeftovers(NewIdx(ps), used, NewIdx(d), |newParas|);
  }

  /** Leftover entries always have `-1` on one side. */
  lemma LeftoversUnpaired(oldParas: seq<string>, newParas: seq<string>, usedOld: set<int>, usedNew: set<int>)
    ensures forall k :: 0 <= k < |Leftovers(oldParas, newParas, usedOld, usedNew)| ==>
      Leftovers(oldParas, newParas, usedOld, usedNew)[k].oldIndex == -1
      || Leftovers(oldParas, newParas, usedOld, usedNew)[k].newIndex == -1
  {
    var d := DeletedRun(oldParas, usedOld, |oldParas|);
    var ad := AddedRun(newParas, usedNew, |newParas|);
    DeletedRunIdx(oldParas, usedOld, |oldParas|);
    AddedRunIdx(newParas, usedNew, |newParas|);
  }

  /**
   * A layout covers every old and every new paragraph exactly once, holds
   * `|old| + |new| - a` entries, and its pair prefix is exactly `a` long.
   */
  lemma LayoutComplete(ms: seq<ParagraphMatch>, a: nat, oldParas: seq<string>, newParas: seq<string>,
                       sim: seq<seq<real>>, threshold: real)
    requires SE.IsMatrix(sim, |oldParas|, |newParas|)
    requires MatchLayout(ms, a, oldParas, newParas, sim, threshold)
    ensures CoveredOnce(OldIdx(ms), |oldParas|) && CoveredOnce(NewIdx(ms), |newParas|)
    ensures |ms| + a == |oldParas| + |newParas|
    ensures PairPrefix(ms) == a
  {
    var ps := ms[..a];
    LayoutPairs(ms, a, oldParas, newParas, sim, threshold);
    LayoutOld(ms, a, oldParas, newParas, UsedNew(ps));
    LayoutNew(ms, a, oldParas, newParas, UsedOld(ps));
    LeftoversUnpaired(oldParas, newParas, UsedOld(ps), UsedNew(ps));
    if a < |ms| {
      assert ms[a] == ms[a..][0];
    }
    PairPrefixAt(ms, a);
  }

  // ---------------------------------------------------------------------------
  // Greedy matching (the fallback without scipy)
  // ---------------------------------------------------------------------------

  /** Cell `(i, j)` comes before cell `(bi, bj)` in the row-major scan. */
  predicate ScanBefore(i: int, j: int, bi: int, bj: int) {
    i < bi || (i == bi && j < bj)
  }

  /**
   * One scan of the matrix: the first (row-major) cell with the largest value
   * strictly above 0 among the rows and columns not yet used, or `-1, -1` with
   * value 0 when every free cell is at most 0.
   */
  method BestCell(sim: seq<seq<real>>, nOld: nat, nNew: nat, usedOld: set<int>, usedNew: set<int>)
    returns (maxSim: real, maxI: int, maxJ: int)
    requires SE.IsMatrix(sim, nOld, nNew)
    ensures maxI == -1 ==> maxJ == -1 && maxSim == 0.0
    ensures maxI != -1 ==> 0 <= maxI < nOld && 0 <= maxJ < nNew && maxI !in usedOld && maxJ !in usedNew
                           && maxSim == sim[maxI][maxJ] && maxSim > 0.0
    ensures forall i, j :: 0 <= i < nOld && 0 <= j < nNew && i !in usedOld && j !in usedNew ==>
      sim[i][j] <= maxSim && (ScanBefore(i, j, maxI, maxJ) ==> sim[i][j] < maxSim)
  {
    maxSim, maxI, maxJ := 0.0, -1, -1;
    for i := 0 to nOld
      invariant maxI == -1 ==> maxJ == -1 && maxSim == 0.0
      invariant maxI != -1 ==> 0 <= maxI < i && 0 <= maxJ < nNew && maxI !in usedOld && maxJ !in usedNew
                               && maxSim == sim[maxI][maxJ] && maxSim > 0.0
      invariant forall i', j' :: 0 <= i' < i && 0 <= j' < nNew && i' !in usedOld && j' !in usedNew ==>
        sim[i'][j'] <= maxSim && (ScanBefore(i', j', maxI, maxJ) ==> sim[i'][j'] < maxSim)
    {
      if i in usedOld {
        continue;
      }
      for j := 0 to nNew
        invariant maxI == -1 ==> maxJ == -1 && maxSim == 0.0
        invariant maxI != -1 ==> 0 <= maxI <= i && 0 <= maxJ < nNew && maxI !in usedOld && maxJ !in usedNew
                                 && maxSim == sim[maxI][maxJ] && maxSim > 0.0
        invariant maxI == i ==> maxJ < j
        invariant forall i', j' :: 0 <= i' < nOld && 0 <= j' < nNew && ScanBefore(i', j', i, j)
                                   && i' !in usedOld && j' !in usedNew ==>
          sim[i'][j'] <= maxSim && (ScanBefore(i', j', maxI, maxJ) ==> sim[i'][j'] < maxSim)
      {
        if j in usedNew {
          continue;
        }
        if sim[i][j] > maxSim {
          maxSim, maxI, maxJ := sim[i][j], i, j;
        }
      }
    }
  }

  /**
   * Each pair holds the first largest cell, in row-major order, among the rows
   * and columns that the earlier pairs left free.
   */
  predicate GreedyChoice(ps: seq<ParagraphMatch>, sim: seq<seq<real>>, nOld: nat, nNew: nat)
    requires SE.IsMatrix(sim, nOld, nNew)
  {
    forall k, i, j :: 0 <= k < |ps| && 0 <= i < nOld && 0 <= j < nNew
                      && i !in UsedOld(ps[..k]) && j !in UsedNew(ps[..k]) ==>
      sim[i][j] <= ps[k].similarity
      && (ScanBefore(i, j, ps[k].oldIndex, ps[k].newIndex) ==> sim[i][j] < ps[k].similarity)
  }

  /** Every cell whose row and column are both still free is below the threshold. */
  predicate Exhausted(ps: seq<ParagraphMatch>, sim: seq<seq<real>>, nOld: nat, nNew: nat, threshold: real)
    requires SE.IsMatrix(sim, nOld, nNew)
  {
    forall i, j :: 0 <= i < nOld && 0 <= j < nNew && i !in UsedOld(ps) && j !in UsedNew(ps) ==>
      sim[i][j] < threshold
  }

  /** Greedy takes its pairs in non-increasing order of similarity. */
  lemma GreedyNonIncreasing(ps: seq<ParagraphMatch>, oldParas: seq<string>, newParas: seq<string>,
                            sim: seq<seq<real>>, threshold: real)
    requires SE.IsMatrix(sim, |oldParas|, |newParas|)
    requires ValidPairs(ps, oldParas, newParas, sim, threshold)
    requires GreedyChoice(ps, sim, |oldParas|, |newParas|)
    ensures forall k1, k2 :: 0 <= k1 < k2 < |ps| ==> ps[k2].similarity <= ps[k1].similarity
  {
    forall k1, k2 | 0 <= k1 < k2 < |ps|
      ensures ps[k2].similarity <= ps[k1].similarity
    {
      var i, j := ps[k2].oldIndex, ps[k2].newIndex;
      assert IsAcceptedPair(ps[k2], oldParas, newParas, sim, threshold);
      forall k | 0 <= k < k1
        ensures ps[..k1][k].oldIndex != i && ps[..k1][k].newIndex != j
      {
        assert ps[..k1][k] == ps[k];
      }
      assert i !in UsedOld(ps[..k1]) && j !in UsedNew(ps[..k1]);
    }
  }

  /**
   * The loop of `_greedy_matching`: repeatedly take the best free cell until it
   * falls below the threshold. The threshold must be positive: otherwise the
   * scan's `-1, -1` sentinel would be accepted as a pair again and again and the
   * loop would not end.
   */
  method GreedyPairs(oldParas: seq<string>, newParas: seq<string>, sim: seq<seq<real>>, threshold: real)
    returns (pairs: seq<ParagraphMatch>, matchedOld: set<int>, matchedNew: set<int>)
    requires SE.IsMatrix(sim, |oldParas|, |newParas|)
    requires threshold > 0.0
    ensures ValidPairs(pairs, oldParas, newParas, sim, threshold)
    ensures GreedyChoice(pairs, sim, |oldParas|, |newParas|)
    ensures Exhausted(pairs, sim, |oldParas|, |newParas|, threshold)
    ensures matchedOld == UsedOld(pairs) && matchedNew == UsedNew(pairs)
  {
    pairs, matchedOld, matchedNew := [], {}, {};
    while true
      invariant ValidPairs(pairs, oldParas, newParas, sim, threshold)
      invariant GreedyChoice(pairs, sim, |oldParas|, |newParas|)
      invariant matchedOld == UsedOld(pairs) && matchedNew == UsedNew(pairs)
      invariant matchedOld <= IndexRange(|oldParas|)
      decreases IndexRange(|oldParas|) - matchedOld
    {
      var maxSim, maxI, maxJ := BestCell(sim, |oldParas|, |newParas|, matchedOld, matchedNew);
      if maxSim < threshold {
        break;
      }
      var m := NewMatch(maxI, maxJ, oldParas[maxI], newParas[maxJ], maxSim, PairType(maxSim));
      GreedyStep(pairs, m, oldParas, newParas, sim, threshold);
      UsedAppend(pairs, m);
      pairs := pairs + [m];
      matchedOld := matchedOld + {maxI};
      matchedNew := matchedNew + {maxJ};
    }
  }

  /** `_greedy_matching`: the greedy pairs, then every unpaired old and new paragraph. */
  method GreedyMatching(oldParas: seq<string>, newParas: seq<string>, sim: seq<seq<real>>, threshold: real)
    returns (ms: seq<ParagraphMatch>)
    requires SE.IsMatrix(sim, |oldParas|, |newParas|)
    requires threshold > 0.0
    ensures MatchLayout(ms, PairPrefix(ms), oldParas, newParas, sim, threshold)
    ensures GreedyChoice(ms[..PairPrefix(ms)], sim, |oldParas|, |newParas|)
    ensures Exhausted(ms[..PairPrefix(ms)], sim, |oldParas|, |newParas|, threshold)
    ensures CoveredOnce(OldIdx(ms), |oldParas|) && CoveredOnce(NewIdx(ms), |newParas|)
    ensures |ms| + PairPrefix(ms) == |oldParas| + |newParas|
  {
    var pairs, matchedOld, matchedNew := GreedyPairs(oldParas, newParas, sim, threshold);
    ms := AppendUnmatched(pairs, oldParas, newParas, matchedOld, matchedNew);
    assert ms[..|pairs|] == pairs;
    assert ms[|pairs|..] == Leftovers(oldParas, newParas, matchedOld, matchedNew);
    LayoutComplete(ms, |pairs|, oldParas, newParas, sim, threshold);
  }

  /** Appending the best free cell keeps the pairs valid and greedy. */
  lemma GreedyStep(pairs: seq<ParagraphMatch>, m: ParagraphMatch, oldParas: seq<string>, newParas: seq<string>,
                   sim: seq<seq<real>>, threshold: real)
    requires SE.IsMatrix(sim, |oldParas|, |newParas|)
    requires ValidPairs(pairs, oldParas, newParas, sim, threshold)
    requires GreedyChoice(pairs, sim, |oldParas|, |newParas|)
    requires IsAcceptedPair(m, oldParas, newParas, sim, threshold)
    requires m.oldIndex !in UsedOld(pairs) && m.newIndex !in UsedNew(pairs)
    requires forall i, j :: 0 <= i < |oldParas| && 0 <= j < |newParas| && i !in UsedOld(pairs) && j !in UsedNew(pairs) ==>
      sim[i][j] <= m.similarity && (ScanBefore(i, j, m.oldIndex, m.newIndex) ==> sim[i][j] < m.similarity)
    ensures ValidPairs(pairs + [m], oldParas, newParas, sim, threshold)
    ensures GreedyChoice(pairs + [m], sim, |oldParas|, |newParas|)
  {
    forall k | 0 <= k < |pairs|
      ensures pairs[k].oldIndex != m.oldIndex && pairs[k].newIndex != m.newIndex
    {
      assert pairs[k].oldIndex in UsedOld(pairs);
      assert pairs[k].newIndex in UsedNew(pairs);
    }
    ValidPairsAppend(pairs, m, oldParas, newParas, sim, threshold);
    GreedyChoiceAppend(pairs, m, sim, |oldParas|, |newParas|);
  }

  lemma GreedyChoiceAppend(pairs: seq<ParagraphMatch>, m: ParagraphMatch, sim: seq<seq<real>>, nOld: nat, nNew: nat)
    requires SE.IsMatrix(sim, nOld, nNew)
    requires GreedyChoice(pairs, sim, nOld, nNew)
    requires forall i, j :: 0 <= i < nOld && 0 <= j < nNew && i !in UsedOld(pairs) && j !in UsedNew(pairs) ==>
      sim[i][j] <= m.similarity && (ScanBefore(i, j, m.oldIndex, m.newIndex) ==> sim[i][j] < m.similarity)
    ensures GreedyChoice(pairs + [m], sim, nOld, nNew)
  {
    var qs := pairs + [m];
    forall k, i, j | 0 <= k < |qs| && 0 <= i < nOld && 0 <= j < nNew
                     && i !in UsedOld(qs[..k]) && j !in UsedNew(qs[..k])
      ensures sim[i][j] <= qs[k].similarity
              && (ScanBefore(i, j, qs[k].oldIndex, qs[k].newIndex) ==> sim[i][j] < qs[k].similarity)
    {
      if k < |pairs| {
        assert qs[k] == pairs[k] && qs[..k] == pairs[..k];
      } else {
        assert qs[..k] == pairs;
      }
    }
  }

  // ---------------------------------------------------------------------------
  // Post-processing of the optimal assignment
  // ---------------------------------------------------------------------------

  /**
   * The optimal solver's answer on the square matrix padded to `max(n_old, n_new)`:
   * row `rows[t]` is assigned column `cols[t]`. The solver itself is not modelled.
   */
  datatype Assignment = Assignment(rows: seq<int>, cols: seq<int>)

  /** What the solver guarantees: parallel index lists inside the square, each row and column once. */
  predicate ValidAssignment(asg: Assignment, dim: nat) {
    |asg.rows| == |asg.cols|
    && (forall t :: 0 <= t < |asg.rows| ==> 0 <= asg.rows[t] < dim && 0 <= asg.cols[t] < dim)
    && (forall t1, t2 :: 0 <= t1 < t2 < |asg.rows| ==> asg.rows[t1] != asg.rows[t2] && asg.cols[t1] != asg.cols[t2])
  }

  /** The assigned cells inside the real matrix that reach the threshold, in the solver's order. */
  function KeptPairs(rows: seq<int>, cols: seq<int>, oldParas: seq<string>, newParas: seq<string>,
                     sim: seq<seq<real>>, threshold: real): seq<ParagraphMatch>
    requires |rows| == |cols| && forall t :: 0 <= t < |rows| ==> 0 <= rows[t] && 0 <= cols[t]
    requires SE.IsMatrix(sim, |oldParas|, |newParas|)
  {
    if rows == [] then []
    else
      var n := |rows| - 1;
      var o, c := rows[n], cols[n];
      KeptPairs(rows[..n], cols[..n], oldParas, newParas, sim, threshold)
        + (if o < |oldParas| && c < |newParas| && sim[o][c] >= threshold
           then [NewMatch(o, c, oldParas[o], newParas[c], sim[o][c], PairType(sim[o][c]))]
           else [])
  }

  /** Every kept pair sits on one of the assigned cells' row and column. */
  lemma {:induction false} KeptPairsAssigned(rows: seq<int>, cols: seq<int>, oldParas: seq<string>, newParas: seq<string>,
                                             sim: seq<seq<real>>, threshold: real)
    requires |rows| == |cols| && forall t :: 0 <= t < |rows| ==> 0 <= rows[t] && 0 <= cols[t]
    requires SE.IsMatrix(sim, |oldParas|, |newParas|)
    ensures forall k :: 0 <= k < |KeptPairs(rows, cols, oldParas, newParas, sim, threshold)| ==>
      KeptPairs(rows, cols, oldParas, newParas, sim, threshold)[k].oldIndex in rows
      && KeptPairs(rows, cols, oldParas, newParas, sim, threshold)[k].newIndex in cols
  {
    if rows != [] {
      var n := |rows| - 1;
      KeptPairsAssigned(rows[..n], cols[..n], oldParas, newParas, sim, threshold);
      var ps := KeptPairs(rows[..n], cols[..n], oldParas, newParas, sim, threshold);
      var full := KeptPairs(rows, cols, oldParas, newParas, sim, threshold);
      assert forall k :: 0 <= k < |ps| ==> full[k] == ps[k];
      assert forall x :: x in rows[..n] ==> x in rows;
      assert forall x :: x in cols[..n] ==> x in cols;
      if |full| > |ps| {
        assert full[|ps|].oldIndex == rows[n] && full[|ps|].newIndex == cols[n];
        assert rows[n] in rows && cols[n] in cols;
      }
    }
  }

  /** A new accepted pair on a fresh row and a fresh column keeps a pair list valid. */
  lemma ValidPairsAppend(ps: seq<ParagraphMatch>, m: ParagraphMatch, oldParas: seq<string>, newParas: seq<string>,
                         sim: seq<seq<real>>, threshold: real)
    requires SE.IsMatrix(sim, |oldParas|, |newParas|)
    requires ValidPairs(ps, oldParas, newParas, sim, threshold)
    requires IsAcceptedPair(m, oldParas, newParas, sim, threshold)
    requires forall k :: 0 <= k < |ps| ==> ps[k].oldIndex != m.oldIndex && ps[k].newIndex != m.newIndex
    ensures ValidPairs(ps + [m], oldParas, newParas, sim, threshold)
  {
    var qs := ps + [m];
    assert forall k :: 0 <= k < |ps| ==> qs[k] == ps[k];
  }

  /** Dropping the last pair of an assignment leaves an assignment. */
  lemma AssignmentPrefix(asg: Assignment, dim: nat)
    requires ValidAssignment(asg, dim) && asg.rows != []
    ensures ValidAssignment(Assignment(asg.rows[..|asg.rows| - 1], asg.cols[..|asg.cols| - 1]), dim)
  {
  }

  /** The last row and column of an assignment appear nowhere before. */
  lemma LastAssignedFresh(asg: Assignment, dim: nat)
    requires ValidAssignment(asg, dim) && asg.rows != []
    ensures asg.rows[|asg.rows| - 1] !in asg.rows[..|asg.rows| - 1]
    ensures asg.cols[|asg.cols| - 1] !in asg.cols[..|asg.cols| - 1]
  {
    var n := |asg.rows| - 1;
    forall t | 0 <= t < n ensures asg.rows[..n][t] != asg.rows[n] && asg.cols[..n][t] != asg.cols[n] {
      assert asg.rows[t] != asg.rows[n] && asg.cols[t] != asg.cols[n];
    }
  }

  /** The kept pairs are valid: accepted cells on distinct rows and distinct columns. */
  lemma {:induction false} KeptPairsValid(asg: Assignment, dim: nat, oldParas: seq<string>, newParas: seq<string>,
                                          sim: seq<seq<real>>, threshold: real)
    requires ValidAssignment(asg, dim)
    requires SE.IsMatrix(sim, |oldParas|, |newParas|)
    ensures ValidPairs(KeptPairs(asg.rows, asg.cols, oldParas, newParas, sim, threshold), oldParas, newParas, sim, threshold)
    decreases |asg.rows|
  {
    if asg.rows != [] {
      var n := |asg.rows| - 1;
      AssignmentPrefix(asg, dim);
      KeptPairsValid(Assignment(asg.rows[..n], asg.cols[..n]), dim, oldParas, newParas, sim, threshold);
      KeptPairsValidStep(asg, dim, oldParas, newParas, sim, threshold);
    }
  }

  /** One more assigned cell keeps the kept pairs valid. */
  lemma KeptPairsValidStep(asg: Assignment, dim: nat, oldParas: seq<string>, newParas: seq<string>,
                           sim: seq<seq<real>>, threshold: real)
    requires ValidAssignment(asg, dim) && asg.rows != []
    requires SE.IsMatrix(sim, |oldParas|, |newParas|)
    requires ValidPairs(KeptPairs(asg.rows[..|asg.rows| - 1], asg.cols[..|asg.cols| - 1], oldParas, newParas, sim, threshold),
                        oldParas, newParas, sim, threshold)
    ensures ValidPairs(KeptPairs(asg.rows, asg.cols, oldParas, newParas, sim, threshold), oldParas, newParas, sim, threshold)
  {
    var n := |asg.rows| - 1;
    var prefix := Assignment(asg.rows[..n], asg.cols[..n]);
    KeptPairsAssigned(prefix.rows, prefix.cols, oldParas, newParas, sim, threshold);
    var ps := KeptPairs(prefix.rows, prefix.cols, oldParas, newParas, sim, threshold);
    var o, c := asg.rows[n], asg.cols[n];
    if o < |oldParas| && c < |newParas| && sim[o][c] >= threshold {
      var m := NewMatch(o, c, oldParas[o], newParas[c], sim[o][c], PairType(sim[o][c]));
      LastAssignedFresh(asg, dim);
      forall k | 0 <= k < |ps|
        ensures ps[k].oldIndex != o && ps[k].newIndex != c
      {
        assert ps[k].oldIndex in prefix.rows && ps[k].newIndex in prefix.cols;
      }
      ValidPairsAppend(ps, m, oldParas, newParas, sim, threshold);
    }
  }

  /** The kept pairs of a prefix of the assignment are a prefix of the kept pairs. */
  lemma KeptPairsSnoc(rows: seq<int>, cols: seq<int>, oldParas: seq<string>, newParas: seq<string>,
                      sim: seq<seq<real>>, threshold: real)
    requires |rows| == |cols| && forall t :: 0 <= t < |rows| ==> 0 <= rows[t] && 0 <= cols[t]
    requires SE.IsMatrix(sim, |oldParas|, |newParas|)
    requires rows != []
    ensures var n := |rows| - 1;
      var ps := KeptPairs(rows[..n], cols[..n], oldParas, newParas, sim, threshold);
      var full := KeptPairs(rows, cols, oldParas, newParas, sim, threshold);
      |ps| <= |full| && full[..|ps|] == ps
      && (rows[n] < |oldParas| && cols[n] < |newParas| && sim[rows[n]][cols[n]] >= threshold ==>
          |full| == |ps| + 1 && full[|ps|].oldIndex == rows[n] && full[|ps|].newIndex == cols[n])
  {
  }

  /** Every assigned pair inside the matrix whose similarity reaches the threshold is kept. */
  lemma {:induction false} KeptPairsComplete(rows: seq<int>, cols: seq<int>, oldParas: seq<string>, newParas: seq<string>,
                                             sim: seq<seq<real>>, threshold: real, t: nat)
    requires |rows| == |cols| && forall t' :: 0 <= t' < |rows| ==> 0 <= rows[t'] && 0 <= cols[t']
    requires SE.IsMatrix(sim, |oldParas|, |newParas|)
    requires t < |rows| && rows[t] < |oldParas| && cols[t] < |newParas|
    requires sim[rows[t]][cols[t]] >= threshold
    ensures var ps := KeptPairs(rows, cols, oldParas, newParas, sim, threshold);
      exists k :: 0 <= k < |ps| && ps[k].oldIndex == rows[t] && ps[k].newIndex == cols[t]
    decreases |rows|
  {
    var n := |rows| - 1;
    var ps := KeptPairs(rows[..n], cols[..n], oldParas, newParas, sim, threshold);
    var full := KeptPairs(rows, cols, oldParas, newParas, sim, threshold);
    KeptPairsSnoc(rows, cols, oldParas, newParas, sim, threshold);
    if t < n {
      KeptPairsComplete(rows[..n], cols[..n], oldParas, newParas, sim, threshold, t);
      var k :| 0 <= k < |ps| && ps[k].oldIndex == rows[t] && ps[k].newIndex == cols[t];
      assert full[k] == full[..|ps|][k];
    } else {
      assert full[|ps|].oldIndex == rows[t];
    }
  }

  /** The loop of `_find_optimal_matches` over the assignment: skip padding, keep cells at or above the threshold. */
  method AssignedPairs(asg: Assignment, dim: nat, oldParas: seq<string>, newParas: seq<string>,
                       sim: seq<seq<real>>, threshold: real)
    returns (pairs: seq<ParagraphMatch>, matchedOld: set<int>, matchedNew: set<int>)
    requires ValidAssignment(asg, dim)
    requires SE.IsMatrix(sim, |oldParas|, |newParas|)
    ensures pairs == KeptPairs(asg.rows, asg.cols, oldParas, newParas, sim, threshold)
    ensures matchedOld == UsedOld(pairs) && matchedNew == UsedNew(pairs)
  {
    pairs, matchedOld, matchedNew := [], {}, {};
    for t := 0 to |asg.rows|
      invariant pairs == KeptPairs(asg.rows[..t], asg.cols[..t], oldParas, newParas, sim, threshold)
      invariant matchedOld == UsedOld(pairs) && matchedNew == UsedNew(pairs)
    {
      assert asg.rows[..t + 1][..t] == asg.rows[..t] && asg.cols[..t + 1][..t] == asg.cols[..t];
      var o, c := asg.rows[t], asg.cols[t];
      if o >= |oldParas| || c >= |newParas| {
        continue;
      }
      var similarity := sim[o][c];
      if similarity >= threshold {
        var m := NewMatch(o, c, oldParas[o], newParas[c], similarity, PairType(similarity));
        UsedAppend(pairs, m);
        pairs := pairs + [m];
        matchedOld := matchedOld + {o};
        matchedNew := matchedNew + {c};
      }
    }
    assert asg.rows[..|asg.rows|] == asg.rows && asg.cols[..|asg.cols|] == asg.cols;
  }

  /**
   * `_find_optimal_matches`: with the solver's assignment, its kept cells then the
   * leftovers; without it (scipy missing), the greedy fallback.
   */
  method FindOptimalMatches(oldParas: seq<string>, newParas: seq<string>, sim: seq<seq<real>>, threshold: real,
                            assignment: Option<Assignment>)
    returns (ms: seq<ParagraphMatch>)
    requires SE.IsMatrix(sim, |oldParas|, |newParas|)
    requires assignment.None? ==> threshold > 0.0
    requires assignment.Some? ==> ValidAssignment(assignment.value, Max(|oldParas|, |newParas|))
    ensures MatchLayout(ms, PairPrefix(ms), oldParas, newParas, sim, threshold)
    ensures CoveredOnce(OldIdx(ms), |oldParas|) && CoveredOnce(NewIdx(ms), |newParas|)
    ensures |ms| + PairPrefix(ms) == |oldParas| + |newParas|
    ensures assignment.Some? ==>
      ms[..PairPrefix(ms)] == KeptPairs(assignment.value.rows, assignment.value.cols, oldParas, newParas, sim, threshold)
    ensures assignment.None? ==>
      GreedyChoice(ms[..PairPrefix(ms)], sim, |oldParas|, |newParas|)
      && Exhausted(ms[..PairPrefix(ms)], sim, |oldParas|, |newParas|, threshold)
  {
    if assignment.None? {
      ms := GreedyMatching(oldParas, newParas, sim, threshold);
      return;
    }
    var dim := Max(|oldParas|, |newParas|);
    var pairs, matchedOld, matchedNew := AssignedPairs(assignment.value, dim, oldParas, newParas, sim, threshold);
    KeptPairsValid(assignment.value, dim, oldParas, newParas, sim, threshold);
    ms := AppendUnmatched(pairs, oldParas, newParas, matchedOld, matchedNew);
    assert ms[..|pairs|] == pairs;
    assert ms[|pairs|..] == Leftovers(oldParas, newParas, matchedOld, matchedNew);
    LayoutComplete(ms, |pairs|, oldParas, newParas, sim, threshold);
  }

  // ---------------------------------------------------------------------------
  // Move detection, severity and explanations: passes that update each match in place
  // ---------------------------------------------------------------------------

  /** `_detect_moves` on one match. */
  function WithMoveDetected(m: ParagraphMatch, moveThreshold: real): (r: ParagraphMatch)
    ensures r.oldIndex == m.oldIndex && r.newIndex == m.newIndex && r.oldText == m.oldText
            && r.newText == m.newText && r.similarity == m.similarity
            && r.severity == m.severity && r.explanation == m.explanation
    ensures r.changeType != m.changeType <==>
            m.changeType == Modified && m.similarity >= moveThreshold && Abs(m.oldIndex - m.newIndex) > 2
    ensures r.changeType != m.changeType ==> r.changeType == Moved && r.isMoved
    ensures r.changeType == m.changeType ==> r == m
  {
    if m.changeType == Modified && m.similarity >= moveThreshold && Abs(m.oldIndex - m.newIndex) > 2
    then m.(isMoved := true, changeType := Moved)
    else m
  }

  method DetectMoves(a: array<ParagraphMatch>, moveThreshold: real)
    modifies a
    ensures forall k :: 0 <= k < a.Length ==> a[k] == WithMoveDetected(old(a[k]), moveThreshold)
  {
    for k := 0 to a.Length
      invariant forall k' :: 0 <= k' < k ==> a[k'] == WithMoveDetected(old(a[k']), moveThreshold)
      invariant forall k' :: k <= k' < a.Length ==> a[k'] == old(a[k'])
    {
      var m := a[k];
      if m.changeType == Modified && m.similarity >= moveThreshold && Abs(m.oldIndex - m.newIndex) > 2 {
        a[k] := m.(isMoved := true, changeType := Moved);
      }
    }
  }

  /** Some keyword occurs in the lowercased old and new texts joined by a space; the keywords are not lowercased. */
  predicate HasCriticalKeyword(m: ParagraphMatch, keywords: seq<string>) {
    ContainsAny(Lower(m.oldText + " " + m.newText), keywords)
  }

  /** `_classify_severity`'s first-rule-wins ladder, stated per outcome. */
  function Severity(m: ParagraphMatch, keywords: seq<string>): (s: ChangeSeverity)
    ensures s == Critical <==> m.changeType != Unchanged && HasCriticalKeyword(m, keywords)
    ensures s == Major <==> m.changeType != Unchanged && !HasCriticalKeyword(m, keywords)
                            && (m.changeType == Added || m.changeType == Deleted || m.similarity < 0.5)
    ensures s == Minor <==> m.changeType !in {Unchanged, Added, Deleted} && !HasCriticalKeyword(m, keywords)
                            && 0.5 <= m.similarity < 0.85
    ensures s == Trivial <==> m.changeType == Unchanged
                              || (m.changeType !in {Added, Deleted} && !HasCriticalKeyword(m, keywords)
                                  && m.similarity >= 0.85)
  {
    if m.changeType == Unchanged then Trivial
    else if HasCriticalKeyword(m, keywords) then Critical
    else if m.changeType == Added || m.changeType == Deleted then Major
    else if m.similarity < 0.5 then Major
    else if m.similarity < 0.85 then Minor
    else Trivial
  }

  method ClassifySeverity(a: array<ParagraphMatch>, keywords: seq<string>)
    modifies a
    ensures forall k :: 0 <= k < a.Length ==> a[k] == old(a[k]).(severity := Severity(old(a[k]), keywords))
  {
    for k := 0 to a.Length
      invariant forall k' :: 0 <= k' < k ==> a[k'] == old(a[k']).(severity := Severity(old(a[k']), keywords))
      invariant forall k' :: k <= k' < a.Length ==> a[k'] == old(a[k'])
    {
      var m := a[k];
      if m.changeType == Unchanged {
        a[k] := m.(severity := Trivial);
        continue;
      }
      var text := Lower(m.oldText + " " + m.newText);
      var severity;
      if ContainsAny(text, keywords) {
        severity := Critical;
      } else if m.changeType == Added || m.changeType == Deleted {
        severity := Major;
      } else if m.similarity < 0.5 {
        severity := Major;
      } else if m.similarity < 0.85 {
        severity := Minor;
      } else {
        severity := Trivial;
      }
      a[k] := m.(severity := severity);
    }
  }

  /** `_generate_explanations` on one match: one template per change type, positions counted from 1. */
  function ExplanationFor(m: ParagraphMatch): (e: Explanation)
    ensures e != Blank
    ensures e.NoChanges? <==> m.changeType == Unchanged
    ensures e.AddedAt? <==> m.changeType == Added
    ensures e.RemovedFrom? <==> m.changeType == Deleted
    ensures e.MovedFromTo? <==> m.changeType == Moved
    ensures e.ModifiedWith? <==> m.changeType == Modified
    ensures e.AddedAt? ==> e.position - 1 == m.newIndex
    ensures e.RemovedFrom? ==> e.position - 1 == m.oldIndex
    ensures e.MovedFromTo? ==> e.from - 1 == m.oldIndex && e.to - 1 == m.newIndex
    ensures e.ModifiedWith? && 0.0 <= m.similarity <= 1.0 ==> 0.0 <= e.similarityPercent <= 100.0
  {
    match m.changeType
    case Unchanged => NoChanges
    case Added => AddedAt(m.newIndex + 1)
    case Deleted => RemovedFrom(m.oldIndex + 1)
    case Moved => MovedFromTo(m.oldIndex + 1, m.newIndex + 1)
    case Modified => ModifiedWith(m.similarity * 100.0)
  }

  method GenerateExplanations(a: array<ParagraphMatch>)
    modifies a
    ensures forall k :: 0 <= k < a.Length ==> a[k] == old(a[k]).(explanation := ExplanationFor(old(a[k])))
  {
    for k := 0 to a.Length
      invariant forall k' :: 0 <= k' < k ==> a[k'] == old(a[k']).(explanation := ExplanationFor(old(a[k'])))
      invariant forall k' :: k <= k' < a.Length ==> a[k'] == old(a[k'])
    {
      a[k] := a[k].(explanation := ExplanationFor(a[k]));
    }
  }

  // ---------------------------------------------------------------------------
  // The aggregated result
  // ---------------------------------------------------------------------------

  function CountType(ms: seq<ParagraphMatch>, t: ChangeType): (c: nat)
    ensures c <= |ms|
  {
    if ms == [] then 0
    else CountType(ms[..|ms| - 1], t) + (if ms[|ms| - 1].changeType == t then 1 else 0)
  }

  /** The matches of severity `s`, in their original order. */
  function WithSeverity(ms: seq<ParagraphMatch>, s: ChangeSeverity): (r: seq<ParagraphMatch>)
    ensures |r| <= |ms|
    ensures forall k :: 0 <= k < |r| ==> r[k].severity == s && r[k] in ms
  {
    if ms == [] then []
    else WithSeverity(ms[..|ms| - 1], s) + (if ms[|ms| - 1].severity == s then [ms[|ms| - 1]] else [])
  }

  function SumSimilarity(ms: seq<ParagraphMatch>): real {
    if ms == [] then 0.0 else SumSimilarity(ms[..|ms| - 1]) + ms[|ms| - 1].similarity
  }

  /** The five counts partition the matches. */
  lemma {:induction false} CountsPartition(ms: seq<ParagraphMatch>)
    ensures CountType(ms, Unchanged) + CountType(ms, Modified) + CountType(ms, Added)
            + CountType(ms, Deleted) + CountType(ms, Moved) == |ms|
  {
    if ms != [] {
      CountsPartition(ms[..|ms| - 1]);
    }
  }

  lemma {:induction false} CountAbsent(ms: seq<ParagraphMatch>, t: ChangeType)
    requires forall k :: 0 <= k < |ms| ==> ms[k].changeType != t
    ensures CountType(ms, t) == 0
  {
    if ms != [] {
      CountAbsent(ms[..|ms| - 1], t);
    }
  }

  /** A layout of additions and deletions only counts nothing else. */
  lemma OnlyAddedDeleted(ms: seq<ParagraphMatch>)
    requires forall k :: 0 <= k < |ms| ==> ms[k].changeType == Deleted || ms[k].changeType == Added
    ensures CountType(ms, Added) + CountType(ms, Deleted) == |ms|
  {
    CountAbsent(ms, Unchanged);
    CountAbsent(ms, Modified);
    CountAbsent(ms, Moved);
    CountsPartition(ms);
  }

  /** Every match with severity `s` is kept: the filter loses nothing. */
  lemma {:induction false} WithSeverityComplete(ms: seq<ParagraphMatch>, s: ChangeSeverity, k: nat)
    requires k < |ms| && ms[k].severity == s
    ensures ms[k] in WithSeverity(ms, s)
  {
    if k < |ms| - 1 {
      WithSeverityComplete(ms[..|ms| - 1], s, k);
    }
  }

  predicate SimilaritiesInUnit(ms: seq<ParagraphMatch>) {
    forall k :: 0 <= k < |ms| ==> 0.0 <= ms[k].similarity <= 1.0
  }

  /** Similarities in [0, 1] add up to at most the number of matches. */
  lemma {:induction false} SumSimilarityBounds(ms: seq<ParagraphMatch>)
    requires SimilaritiesInUnit(ms)
    ensures 0.0 <= SumSimilarity(ms) <= |ms| as real
  {
    if ms != [] {
      SumSimilarityBounds(ms[..|ms| - 1]);
    }
  }

  /** The loop of `_build_result`: one pass over the matches updating every tally. */
  method Tally(ms: seq<ParagraphMatch>)
    returns (nUnchanged: nat, nModified: nat, nAdded: nat, nDeleted: nat, nMoved: nat,
             critical: seq<ParagraphMatch>, major: seq<ParagraphMatch>, total: real)
    ensures nUnchanged == CountType(ms, Unchanged) && nModified == CountType(ms, Modified)
            && nAdded == CountType(ms, Added) && nDeleted == CountType(ms, Deleted)
            && nMoved == CountType(ms, Moved)
    ensures critical == WithSeverity(ms, Critical) && major == WithSeverity(ms, Major)
    ensures total == SumSimilarity(ms)
  {
    nUnchanged, nModified, nAdded, nDeleted, nMoved := 0, 0, 0, 0, 0;
    critical, major := [], [];
    total := 0.0;
    for k := 0 to |ms|
      invariant nUnchanged == CountType(ms[..k], Unchanged) && nModified == CountType(ms[..k], Modified)
      invariant nAdded == CountType(ms[..k], Added) && nDeleted == CountType(ms[..k], Deleted)
      invariant nMoved == CountType(ms[..k], Moved)
      invariant critical == WithSeverity(ms[..k], Critical) && major == WithSeverity(ms[..k], Major)
      invariant total == SumSimilarity(ms[..k])
    {
      assert ms[..k + 1][..k] == ms[..k];
      var m := ms[k];
      match m.changeType {
        case Unchanged => nUnchanged := nUnchanged + 1;
        case Modified => nModified := nModified + 1;
        case Added => nAdded := nAdded + 1;
        case Deleted => nDeleted := nDeleted + 1;
        case Moved => nMoved := nMoved + 1;
      }
      if m.severity == Critical {
        critical := critical + [m];
      } else if m.severity == Major {
        major := major + [m];
      }
      total := total + m.similarity;
    }
    assert ms[..|ms|] == ms;
  }

  /** `_build_result`: counts per change type, the critical and major lists, the average similarity. */
  method BuildResult(ms: seq<ParagraphMatch>, totalOld: nat, totalNew: nat) returns (r: ComparisonResult)
    ensures r.matches == ms && r.totalOld == totalOld && r.totalNew == totalNew
    ensures r.unchangedCount == CountType(ms, Unchanged) && r.modifiedCount == CountType(ms, Modified)
            && r.addedCount == CountType(ms, Added) && r.deletedCount == CountType(ms, Deleted)
            && r.movedCount == CountType(ms, Moved)
    ensures r.unchangedCount + r.modifiedCount + r.addedCount + r.deletedCount + r.movedCount == |ms|
    ensures r.criticalChanges == WithSeverity(ms, Critical) && r.majorChanges == WithSeverity(ms, Major)
    ensures r.averageSimilarity == Mean(SumSimilarity(ms), |ms|)
    ensures SimilaritiesInUnit(ms) ==> 0.0 <= r.averageSimilarity <= 1.0
  {
    var nUnchanged, nModified, nAdded, nDeleted, nMoved, critical, major, total := Tally(ms);
    CountsPartition(ms);
    var average := Mean(total, |ms|);
    if SimilaritiesInUnit(ms) {
      SumSimilarityBounds(ms);
    }
    r := ComparisonResult(ms, totalOld, totalNew, nUnchanged, nModified, nAdded, nDeleted, nMoved,
                          average, critical, major);
  }

  // ---------------------------------------------------------------------------
  // The pipeline
  // ---------------------------------------------------------------------------

  /** What the matchers hand on: no match is moved yet, and leftovers have similarity 0. */
  predicate Unprocessed(m: ParagraphMatch) {
    !m.isMoved && m.changeType != Moved
  }

  lemma {:induction false} RunsUnprocessed(oldParas: seq<string>, newParas: seq<string>, usedOld: set<int>, usedNew: set<int>,
                                           nOld: nat, nNew: nat)
    requires nOld <= |oldParas| && nNew <= |newParas|
    ensures forall k :: 0 <= k < |DeletedRun(oldParas, usedOld, nOld)| ==>
      Unprocessed(DeletedRun(oldParas, usedOld, nOld)[k]) && DeletedRun(oldParas, usedOld, nOld)[k].similarity == 0.0
      && DeletedRun(oldParas, usedOld, nOld)[k].changeType == Deleted
    ensures forall k :: 0 <= k < |AddedRun(newParas, usedNew, nNew)| ==>
      Unprocessed(AddedRun(newParas, usedNew, nNew)[k]) && AddedRun(newParas, usedNew, nNew)[k].similarity == 0.0
      && AddedRun(newParas, usedNew, nNew)[k].changeType == Added
    decreases nOld + nNew
  {
    if nOld > 0 {
      RunsUnprocessed(oldParas, newParas, usedOld, usedNew, nOld - 1, nNew);
    }
    if nNew > 0 {
      RunsUnprocessed(oldParas, newParas, usedOld, usedNew, nOld, nNew - 1);
    }
  }

  /**
   * Every entry of a layout is unprocessed; with a matrix in [0, 1] every
   * similarity is in [0, 1]; with every cell below the threshold nothing is
   * paired and every entry is `DELETED` or `ADDED`.
   */
  lemma LayoutEntries(ms: seq<ParagraphMatch>, a: nat, oldParas: seq<string>, newParas: seq<string>,
                      sim: seq<seq<real>>, threshold: real)
    requires SE.IsMatrix(sim, |oldParas|, |newParas|)
    requires MatchLayout(ms, a, oldParas, newParas, sim, threshold)
    ensures forall k :: 0 <= k < |ms| ==> Unprocessed(ms[k])
    ensures (forall i, j :: 0 <= i < |oldParas| && 0 <= j < |newParas| ==> 0.0 <= sim[i][j] <= 1.0) ==>
      SimilaritiesInUnit(ms)
    ensures (forall i, j :: 0 <= i < |oldParas| && 0 <= j < |newParas| ==> sim[i][j] < threshold) ==>
      a == 0 && forall k :: 0 <= k < |ms| ==> ms[k].changeType == Deleted || ms[k].changeType == Added
  {
    var ps := ms[..a];
    var d := DeletedRun(oldParas, UsedOld(ps), |oldParas|);
    var ad := AddedRun(newParas, UsedNew(ps), |newParas|);
    assert ms == ps + d + ad;
    RunsUnprocessed(oldParas, newParas, UsedOld(ps), UsedNew(ps), |oldParas|, |newParas|);
    assert forall k :: 0 <= k < a ==> IsAcceptedPair(ps[k], oldParas, newParas, sim, threshold);
    assert forall k :: 0 <= k < |d| ==> ms[a + k] == d[k];
    assert forall k :: 0 <= k < |ad| ==> ms[a + |d| + k] == ad[k];
    if a > 0 {
      assert IsAcceptedPair(ms[0], oldParas, newParas, sim, threshold);
    }
  }

  /** Severity and explanation read only the type, the texts and the similarity. */
  lemma AnnotationsIgnoreAnnotations(m: ParagraphMatch, s: ChangeSeverity, e: Explanation, keywords: seq<string>)
    ensures Severity(m.(severity := s, explanation := e), keywords) == Severity(m, keywords)
    ensures ExplanationFor(m.(severity := s, explanation := e)) == ExplanationFor(m)
  {
    assert HasCriticalKeyword(m.(severity := s, explanation := e), keywords) == HasCriticalKeyword(m, keywords);
  }

  /** A match after move detection, severity classification and explanation, in that order. */
  function Annotated(m: ParagraphMatch, moveThreshold: real, keywords: seq<string>): (r: ParagraphMatch)
    ensures r.oldIndex == m.oldIndex && r.newIndex == m.newIndex && r.oldText == m.oldText
            && r.newText == m.newText && r.similarity == m.similarity
    ensures r.changeType == WithMoveDetected(m, moveThreshold).changeType
    ensures r.severity == Severity(r, keywords) && r.explanation == ExplanationFor(r)
    ensures Unprocessed(m) ==> (r.isMoved <==> r.changeType == Moved)
  {
    var moved := WithMoveDetected(m, moveThreshold);
    var classified := moved.(severity := Severity(moved, keywords));
    AnnotationsIgnoreAnnotations(moved, classified.severity, ExplanationFor(classified), keywords);
    AnnotationsIgnoreAnnotations(moved, classified.severity, moved.explanation, keywords);
    classified.(explanation := ExplanationFor(classified))
  }

  /** The three in-place passes of `compare_paragraphs` over a fresh array holding the matches. */
  method Annotate(ms: seq<ParagraphMatch>, moveThreshold: real, keywords: seq<string>)
    returns (out: seq<ParagraphMatch>)
    ensures |out| == |ms| && forall k :: 0 <= k < |ms| ==> out[k] == Annotated(ms[k], moveThreshold, keywords)
    ensures OldIdx(out) == OldIdx(ms) && NewIdx(out) == NewIdx(ms)
  {
    var a := new ParagraphMatch[|ms|](k requires 0 <= k < |ms| => ms[k]);
    DetectMoves(a, moveThreshold);
    ClassifySeverity(a, keywords);
    GenerateExplanations(a);
    out := a[..];
    forall k | 0 <= k < |ms|
      ensures out[k] == Annotated(ms[k], moveThreshold, keywords)
    {
      var moved := WithMoveDetected(ms[k], moveThreshold);
      AnnotationsIgnoreAnnotations(moved, moved.severity, moved.explanation, keywords);
    }
  }

  /** Every match of a layout after the three annotation passes. */
  function AnnotatedAll(ms: seq<ParagraphMatch>, moveThreshold: real, keywords: seq<string>): (out: seq<ParagraphMatch>)
    ensures |out| == |ms| && forall k :: 0 <= k < |ms| ==> out[k] == Annotated(ms[k], moveThreshold, keywords)
  {
    seq(|ms|, k requires 0 <= k < |ms| => Annotated(ms[k], moveThreshold, keywords))
  }

  /**
   * `ms` is a layout `_find_optimal_matches` can produce: kept pairs first,
   * then the leftovers, covering each paragraph once; the pairs are the
   * solver's kept cells when it answered, and a greedy, exhausted choice
   * otherwise.
   */
  ghost predicate PairedBy(ms: seq<ParagraphMatch>, oldParas: seq<string>, newParas: seq<string>,
                           sim: seq<seq<real>>, threshold: real, assignment: Option<Assignment>)
    requires SE.IsMatrix(sim, |oldParas|, |newParas|)
    requires assignment.Some? ==> ValidAssignment(assignment.value, Max(|oldParas|, |newParas|))
  {
    && MatchLayout(ms, PairPrefix(ms), oldParas, newParas, sim, threshold)
    && CoveredOnce(OldIdx(ms), |oldParas|) && CoveredOnce(NewIdx(ms), |newParas|)
    && |ms| + PairPrefix(ms) == |oldParas| + |newParas|
    && (assignment.Some? ==>
          ms[..PairPrefix(ms)] == KeptPairs(assignment.value.rows, assignment.value.cols, oldParas, newParas, sim, threshold))
    && (assignment.None? ==>
          GreedyChoice(ms[..PairPrefix(ms)], sim, |oldParas|, |newParas|)
          && Exhausted(ms[..PairPrefix(ms)], sim, |oldParas|, |newParas|, threshold))
  }

  /** Pairing followed by the three annotation passes. */
  method MatchAndAnnotate(oldParas: seq<string>, newParas: seq<string>, sim: seq<seq<real>>,
                          threshold: real, moveThreshold: real, keywords: seq<string>,
                          assignment: Option<Assignment>)
    returns (out: seq<ParagraphMatch>)
    requires SE.IsMatrix(sim, |oldParas|, |newParas|)
    requires forall i, j :: 0 <= i < |oldParas| && 0 <= j < |newParas| ==> 0.0 <= sim[i][j] <= 1.0
    requires assignment.None? ==> threshold > 0.0
    requires assignment.Some? ==> ValidAssignment(assignment.value, Max(|oldParas|, |newParas|))
    ensures exists ms :: PairedBy(ms, oldParas, newParas, sim, threshold, assignment)
                         && out == AnnotatedAll(ms, moveThreshold, keywords)
    ensures CoveredOnce(OldIdx(out), |oldParas|) && CoveredOnce(NewIdx(out), |newParas|)
    ensures forall k :: 0 <= k < |out| ==>
      out[k].severity == Severity(out[k], keywords) && out[k].explanation == ExplanationFor(out[k])
      && (out[k].isMoved <==> out[k].changeType == Moved)
    ensures SimilaritiesInUnit(out)
    ensures (forall i, j :: 0 <= i < |oldParas| && 0 <= j < |newParas| ==> sim[i][j] < threshold) ==>
      |out| == |oldParas| + |newParas| && forall k :: 0 <= k < |out| ==> out[k].changeType == Deleted || out[k].changeType == Added
  {
    var ms := FindOptimalMatches(oldParas, newParas, sim, threshold, assignment);
    LayoutEntries(ms, PairPrefix(ms), oldParas, newParas, sim, threshold);
    out := Annotate(ms, moveThreshold, keywords);
    AnnotatedLayout(ms, out, moveThreshold, keywords);
    assert PairedBy(ms, oldParas, newParas, sim, threshold, assignment);
    assert out == AnnotatedAll(ms, moveThreshold, keywords);
  }

  /** What the annotation passes keep of an unprocessed layout, and what they add. */
  lemma AnnotatedLayout(ms: seq<ParagraphMatch>, out: seq<ParagraphMatch>, moveThreshold: real, keywords: seq<string>)
    requires |out| == |ms| && forall k :: 0 <= k < |ms| ==> out[k] == Annotated(ms[k], moveThreshold, keywords)
    requires forall k :: 0 <= k < |ms| ==> Unprocessed(ms[k])
    ensures forall k :: 0 <= k < |out| ==>
      out[k].severity == Severity(out[k], keywords) && out[k].explanation == ExplanationFor(out[k])
      && (out[k].isMoved <==> out[k].changeType == Moved)
    ensures SimilaritiesInUnit(ms) ==> SimilaritiesInUnit(out)
    ensures (forall k :: 0 <= k < |ms| ==> ms[k].changeType == Deleted || ms[k].changeType == Added) ==>
      forall k :: 0 <= k < |out| ==> out[k].changeType == Deleted || out[k].changeType == Added
  {
    forall k | 0 <= k < |out|
      ensures out[k].severity == Severity(out[k], keywords) && out[k].explanation == ExplanationFor(out[k])
      ensures out[k].isMoved <==> out[k].changeType == Moved
      ensures out[k].similarity == ms[k].similarity
      ensures ms[k].changeType == Deleted || ms[k].changeType == Added ==> out[k].changeType == ms[k].changeType
    {
      var r := Annotated(ms[k], moveThreshold, keywords);
      assert out[k] == r;
    }
  }

  /** The summary fields of a result are those of its matches. */
  predicate Aggregates(r: ComparisonResult) {
    && r.unchangedCount == CountType(r.matches, Unchanged) && r.modifiedCount == CountType(r.matches, Modified)
    && r.addedCount == CountType(r.matches, Added) && r.deletedCount == CountType(r.matches, Deleted)
    && r.movedCount == CountType(r.matches, Moved)
    && r.criticalChanges == WithSeverity(r.matches, Critical) && r.majorChanges == WithSeverity(r.matches, Major)
    && r.averageSimilarity == Mean(SumSimilarity(r.matches), |r.matches|)
  }

  /**
   * Everything `compare_paragraphs` does once the matrix exists: pair, annotate
   * and aggregate.
   */
  method ProcessMatches(oldParas: seq<string>, newParas: seq<string>, sim: seq<seq<real>>,
                        threshold: real, moveThreshold: real, keywords: seq<string>,
                        assignment: Option<Assignment>)
    returns (r: ComparisonResult)
    requires SE.IsMatrix(sim, |oldParas|, |newParas|)
    requires forall i, j :: 0 <= i < |oldParas| && 0 <= j < |newParas| ==> 0.0 <= sim[i][j] <= 1.0
    requires assignment.None? ==> threshold > 0.0
    requires assignment.Some? ==> ValidAssignment(assignment.value, Max(|oldParas|, |newParas|))
    ensures r.totalOld == |oldParas| && r.totalNew == |newParas|
    ensures exists ms :: PairedBy(ms, oldParas, newParas, sim, threshold, assignment)
                         && r.matches == AnnotatedAll(ms, moveThreshold, keywords)
    ensures Aggregates(r)
    ensures CoveredOnce(OldIdx(r.matches), |oldParas|) && CoveredOnce(NewIdx(r.matches), |newParas|)
    ensures r.unchangedCount + r.modifiedCount + r.addedCount + r.deletedCount + r.movedCount == |r.matches|
    ensures forall k :: 0 <= k < |r.matches| ==>
      r.matches[k].severity == Severity(r.matches[k], keywords)
      && r.matches[k].explanation == ExplanationFor(r.matches[k])
      && (r.matches[k].isMoved <==> r.matches[k].changeType == Moved)
    ensures r.criticalChanges == WithSeverity(r.matches, Critical) && r.majorChanges == WithSeverity(r.matches, Major)
    ensures 0.0 <= r.averageSimilarity <= 1.0
    ensures (forall i, j :: 0 <= i < |oldParas| && 0 <= j < |newParas| ==> sim[i][j] < threshold) ==>
      |r.matches| == |oldParas| + |newParas| && r.deletedCount + r.addedCount == |r.matches|
  {
    var finalMatches := MatchAndAnnotate(oldParas, newParas, sim, threshold, moveThreshold, keywords, assignment);
    r := BuildResult(finalMatches, |oldParas|, |newParas|);
    assert Aggregates(r);
    if forall i, j :: 0 <= i < |oldParas| && 0 <= j < |newParas| ==> sim[i][j] < threshold {
      OnlyAddedDeleted(finalMatches);
    }
  }

  class SemanticComparator {
    const embedder: SE.SemanticEmbedder
    const similarityThreshold: real
    const moveDetectionThreshold: real
    const criticalKeywords: seq<string>

    /**
     * A missing embedder is replaced by a default one with caching; a missing
     * or empty keyword list is replaced by the default keywords (`or` treats an
     * empty list as false).
     */
    constructor (embedder: SE.SemanticEmbedder?, similarityThreshold: real, moveDetectionThreshold: real,
                 criticalKeywords: Option<seq<string>>)
      ensures embedder != null ==> this.embedder == embedder
      ensures embedder == null ==> fresh(this.embedder) && this.embedder.modelName == SE.DefaultModelName
                                   && this.embedder.cache != null && fresh(this.embedder.cache)
                                   && this.embedder.cache.Valid() && this.embedder.cache.entries == map[]
      ensures this.similarityThreshold == similarityThreshold
      ensures this.moveDetectionThreshold == moveDetectionThreshold
      ensures this.criticalKeywords ==
        if criticalKeywords.Some? && criticalKeywords.value != [] then criticalKeywords.value else DefaultCriticalKeywords
    {
      if embedder != null {
        this.embedder := embedder;
      } else {
        this.embedder := new SE.SemanticEmbedder(SE.DefaultModelName, true);
      }
      this.similarityThreshold := similarityThreshold;
      this.moveDetectionThreshold := moveDetectionThreshold;
      this.criticalKeywords :=
        if criticalKeywords.Some? && criticalKeywords.value != [] then criticalKeywords.value else DefaultCriticalKeywords;
    }

    /**
     * `compare_paragraphs`: embed both sides, build the matrix, pair, detect
     * moves, classify, explain and aggregate. The encoder, numpy's dot product
     * and the optimal solver's answer are inputs.
     */
    method CompareParagraphs(oldParas: seq<string>, newParas: seq<string>,
                             modelLoaded: bool, encode: seq<string> -> Option<seq<seq<real>>>,
                             numpyAvailable: bool, dot: (seq<real>, seq<real>) -> real,
                             assignment: Option<Assignment>)
      returns (r: ComparisonResult)
      requires embedder.cache != null ==> embedder.cache.Valid()
      requires assignment.None? ==> similarityThreshold > 0.0
      requires assignment.Some? ==> ValidAssignment(assignment.value, Max(|oldParas|, |newParas|))
      modifies embedder.cache
      ensures embedder.cache != null ==> embedder.cache.Valid()
      ensures r.totalOld == |oldParas| && r.totalNew == |newParas|
      ensures exists ms :: PairedBy(ms, oldParas, newParas,
                                    embedder.SimilarityOf(oldParas, newParas, modelLoaded, encode, numpyAvailable, dot,
                                                          old(embedder.Entries())),
                                    similarityThreshold, assignment)
                           && r.matches == AnnotatedAll(ms, moveDetectionThreshold, criticalKeywords)
      ensures Aggregates(r)
      ensures CoveredOnce(OldIdx(r.matches), |oldParas|) && CoveredOnce(NewIdx(r.matches), |newParas|)
      ensures r.unchangedCount + r.modifiedCount + r.addedCount + r.deletedCount + r.movedCount == |r.matches|
      ensures forall k :: 0 <= k < |r.matches| ==>
        r.matches[k].severity == Severity(r.matches[k], criticalKeywords)
        && r.matches[k].explanation == ExplanationFor(r.matches[k])
        && (r.matches[k].isMoved <==> r.matches[k].changeType == Moved)
      ensures r.criticalChanges == WithSeverity(r.matches, Critical) && r.majorChanges == WithSeverity(r.matches, Major)
      ensures 0.0 <= r.averageSimilarity <= 1.0
      ensures !numpyAvailable && similarityThreshold > 0.0 ==>
        |r.matches| == |oldParas| + |newParas| && r.deletedCount + r.addedCount == |r.matches|
    {
      var sim := embedder.ComputeSimilarityMatrix(oldParas, newParas, modelLoaded, encode, numpyAvailable, dot);
      r := ProcessMatches(oldParas, newParas, sim, similarityThreshold, moveDetectionThreshold, criticalKeywords, assignment);
    }
  }
}
