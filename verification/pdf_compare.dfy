/**
 * Structure comparison of two documents: sections with a level, the stack
 * based construction of the section forest, greedy matching of sections by
 * a similarity score, the summary counters, the critical-change filter and
 * the structural change report.
 */
module PdfCompare {
  import opened Wrappers
  import opened TextUtil
  import opened Indices
  import opened Counting

  /** `s` with every space replaced by an underscore. */
  function SpacesToUnderscores(s: string): (r: string)
    ensures |r| == |s| && ' ' !in r
    ensures forall i :: 0 <= i < |s| ==> r[i] == (if s[i] == ' ' then '_' else s[i])
  {
    seq(|s|, i requires 0 <= i < |s| => if s[i] == ' ' then '_' else s[i])
  }

  /** The identifier a section gets when none is given: its level, `_`, and its first 50 title characters with spaces made underscores. */
  function DefaultSectionId(level: int, title: string): (r: string)
    ensures |r| == |IntToString(level)| + 1 + Min(|title|, 50)
    ensures r[..|IntToString(level)| + 1] == IntToString(level) + "_"
    ensures forall i :: 0 <= i < Min(|title|, 50) ==>
      r[|IntToString(level)| + 1 + i] == (if title[i] == ' ' then '_' else title[i])
    ensures ' ' !in r[|IntToString(level)| + 1..]
  {
    IntToString(level) + "_" + SpacesToUnderscores(title[..Min(|title|, 50)])
  }

  /** A section of a document; `parentId` and `children` are filled in by the hierarchy pass. */
  class Section {
    const level: int
    const title: string
    const content: string
    const pageNumber: int
    const sectionId: string
    var parentId: Option<string>
    var children: seq<Section>

    /** An empty id is replaced by the default id derived from level and title. */
    constructor(level: int, title: string, content: string, pageNumber: int,
                parentId: Option<string>, sectionId: string)
      ensures this.level == level && this.title == title && this.content == content
      ensures this.pageNumber == pageNumber && this.parentId == parentId
      ensures this.sectionId == if sectionId == "" then DefaultSectionId(level, title) else sectionId
      ensures this.sectionId != ""
      ensures this.children == []
    {
      this.level := level;
      this.title := title;
      this.content := content;
      this.pageNumber := pageNumber;
      this.parentId := parentId;
      this.sectionId := if sectionId == "" then DefaultSectionId(level, title) else sectionId;
      this.children := [];
    }
  }

  // ---------------------------------------------------------------------------
  // The section forest
  // ---------------------------------------------------------------------------

  function LevelsOf(sections: seq<Section>): (r: seq<int>)
    ensures |r| == |sections| && forall i :: 0 <= i < |sections| ==> r[i] == sections[i].level
  {
    seq(|sections|, i requires 0 <= i < |sections| => sections[i].level)
  }

  /** The last index below `k` whose level is below `bound`, or -1. */
  function NearestBelow(levels: seq<int>, bound: int, k: nat): (r: int)
    requires k <= |levels|
    ensures -1 <= r < k
    ensures r >= 0 ==> levels[r] < bound
    ensures forall m :: r < m < k ==> levels[m] >= bound
  {
    if k == 0 then -1 else if levels[k - 1] < bound then k - 1 else NearestBelow(levels, bound, k - 1)
  }

  /** Any index meeting the characterisation of `NearestBelow` is it. */
  lemma {:induction false} NearestBelowUnique(levels: seq<int>, bound: int, k: nat, t: int)
    requires k <= |levels| && -1 <= t < k
    requires t >= 0 ==> levels[t] < bound
    requires forall m :: t < m < k ==> levels[m] >= bound
    ensures NearestBelow(levels, bound, k) == t
  {
    if k > 0 && t < k - 1 {
      NearestBelowUnique(levels, bound, k - 1, t);
    }
  }

  /**
   * The parent of section `i`: the closest earlier section of a strictly
   * smaller level, or -1 when every earlier section is at least as deep.
   */
  function Parent(levels: seq<int>, i: nat): (p: int)
    requires i < |levels|
    ensures -1 <= p < i
    ensures p >= 0 ==> levels[p] < levels[i]
    ensures forall m :: p < m < i ==> levels[m] >= levels[i]
  {
    NearestBelow(levels, levels[i], i)
  }

  /** The indices below `n` whose parent is `p` (the roots for `p == -1`), in order. */
  function ChildIdx(levels: seq<int>, p: int, n: nat): (r: seq<nat>)
    requires n <= |levels|
    ensures forall k :: 0 <= k < |r| ==> r[k] < n
  {
    if n == 0 then [] else ChildIdx(levels, p, n - 1) + (if Parent(levels, n - 1) == p then [n - 1] else [])
  }

  /** Children are listed in document order. */
  lemma {:induction false} ChildIdxIncreasing(levels: seq<int>, p: int, n: nat)
    requires n <= |levels|
    ensures forall k1, k2 :: 0 <= k1 < k2 < |ChildIdx(levels, p, n)| ==> ChildIdx(levels, p, n)[k1] < ChildIdx(levels, p, n)[k2]
  {
    if n > 0 {
      ChildIdxIncreasing(levels, p, n - 1);
    }
  }

  /** Every section is listed under exactly one key: its parent, or the roots. */
  lemma {:induction false} ChildIdxMembers(levels: seq<int>, p: int, n: nat, j: int)
    requires n <= |levels|
    ensures j in ChildIdx(levels, p, n) <==> 0 <= j < n && Parent(levels, j) == p
  {
    if n > 0 {
      ChildIdxMembers(levels, p, n - 1, j);
    }
  }

  function Pick(sections: seq<Section>, idx: seq<nat>): (r: seq<Section>)
    requires forall k :: 0 <= k < |idx| ==> idx[k] < |sections|
    ensures |r| == |idx| && forall k :: 0 <= k < |idx| ==> r[k] == sections[idx[k]]
  {
    seq(|idx|, k requires 0 <= k < |idx| => sections[idx[k]])
  }

  predicate DistinctSections(sections: seq<Section>) {
    forall i, j :: 0 <= i < j < |sections| ==> sections[i] != sections[j]
  }

  /** The stack as indices: the ancestor chain of its top, each entry the parent of the next. */
  predicate AncestorChain(levels: seq<int>, spine: seq<nat>) {
    (forall p :: 0 <= p < |spine| ==> spine[p] < |levels|)
    && (|spine| > 0 ==> Parent(levels, spine[0]) == -1)
    && (forall p :: 0 < p < |spine| ==> spine[p - 1] == Parent(levels, spine[p]))
  }

  lemma AncestorChainIncreasing(levels: seq<int>, spine: seq<nat>)
    requires AncestorChain(levels, spine)
    ensures forall p :: 0 < p < |spine| ==> spine[p - 1] < spine[p] && levels[spine[p - 1]] < levels[spine[p]]
  {
  }

  /** The index on top of the stack, -1 for an empty stack. */
  function Top(spine: seq<nat>): int {
    if spine == [] then -1 else spine[|spine| - 1]
  }

  /** Every section strictly between `top` and `j` is at least as deep as section `j`. */
  predicate DeepBetween(levels: seq<int>, top: int, j: nat)
    requires j < |levels| && -1 <= top
  {
    forall m :: top < m < j ==> levels[m] >= levels[j]
  }

  /** Popping a top at least as deep as section `j` leaves its parent on top. */
  lemma PopStep(levels: seq<int>, spine: seq<nat>, j: nat)
    requires j < |levels| && AncestorChain(levels, spine) && spine != []
    requires Top(spine) < j && levels[Top(spine)] >= levels[j] && DeepBetween(levels, Top(spine), j)
    ensures AncestorChain(levels, spine[..|spine| - 1])
    ensures Top(spine[..|spine| - 1]) == Parent(levels, Top(spine)) < j
    ensures DeepBetween(levels, Top(spine[..|spine| - 1]), j)
  {
  }

  /** The stack holds, entry by entry, the sections at the indices of `spine`. */
  predicate Holds(stack: seq<Section>, sections: seq<Section>, spine: seq<nat>) {
    |stack| == |spine| && forall p :: 0 <= p < |spine| ==> spine[p] < |sections| && stack[p] == sections[spine[p]]
  }

  lemma HoldsPop(stack: seq<Section>, sections: seq<Section>, spine: seq<nat>)
    requires Holds(stack, sections, spine) && stack != []
    ensures stack[|stack| - 1] == sections[spine[|spine| - 1]]
    ensures Holds(stack[..|stack| - 1], sections, spine[..|spine| - 1])
  {
  }

  lemma HoldsPush(stack: seq<Section>, sections: seq<Section>, spine: seq<nat>, j: nat)
    requires Holds(stack, sections, spine) && j < |sections|
    ensures Holds(stack + [sections[j]], sections, spine + [j])
  {
  }

  /**
   * Pops the sections at least as deep as `level` off the stack; the new top
   * is the parent of a section of that level placed after the old top.
   */
  method PopDeeper(levels: seq<int>, stack: seq<Section>, ghost spine: seq<nat>, sections: seq<Section>, j: nat)
    returns (stack': seq<Section>, ghost spine': seq<nat>)
    requires levels == LevelsOf(sections) && j < |sections|
    requires AncestorChain(levels, spine) && Holds(stack, sections, spine)
    requires |spine| > 0 ==> spine[|spine| - 1] == j - 1
    requires j > 0 ==> |spine| > 0
    ensures AncestorChain(levels, spine') && Holds(stack', sections, spine')
    ensures Parent(levels, j) == if |spine'| == 0 then -1 else spine'[|spine'| - 1]
  {
    stack', spine' := stack, spine;
    while |stack'| > 0 && stack'[|stack'| - 1].level >= sections[j].level
      invariant AncestorChain(levels, spine') && Holds(stack', sections, spine')
      invariant Top(spine') < j && DeepBetween(levels, Top(spine'), j)
      decreases |stack'|
    {
      HoldsPop(stack', sections, spine');
      PopStep(levels, spine', j);
      stack', spine' := stack'[..|stack'| - 1], spine'[..|spine'| - 1];
    }
    NearestBelowUnique(levels, levels[j], j, Top(spine'));
  }

  lemma PickSnoc(sections: seq<Section>, idx: seq<nat>, j: nat)
    requires forall k :: 0 <= k < |idx| ==> idx[k] < |sections|
    requires j < |sections|
    ensures Pick(sections, idx + [j]) == Pick(sections, idx) + [sections[j]]
  {
  }

  /** Records `parent` as the parent of `child`: its id is stored and the child appended. */
  method Link(parent: Section, child: Section)
    requires parent != child
    modifies parent, child
    ensures child.parentId == Some(parent.sectionId)
    ensures parent.children == old(parent.children) + [child]
    ensures parent.parentId == old(parent.parentId) && child.children == old(child.children)
  {
    child.parentId := Some(parent.sectionId);
    parent.children := parent.children + [child];
  }

  /** Pushing a section whose parent is the current top keeps the stack an ancestor chain. */
  lemma ChainPush(levels: seq<int>, spine: seq<nat>, j: nat)
    requires j < |levels| && AncestorChain(levels, spine)
    requires Parent(levels, j) == if |spine| == 0 then -1 else spine[|spine| - 1]
    ensures AncestorChain(levels, spine + [j])
  {
  }

  function Objects(sections: seq<Section>): set<Section> {
    set i | 0 <= i < |sections| :: sections[i]
  }

  /** The children lists of the sections, in order. */
  function Kids(sections: seq<Section>): (r: seq<seq<Section>>)
    reads Objects(sections)
    ensures |r| == |sections| && forall i :: 0 <= i < |sections| ==> r[i] == sections[i].children
  {
    seq(|sections|, i requires 0 <= i < |sections| reads Objects(sections) => sections[i].children)
  }

  /** The parent ids of the sections, in order. */
  function ParentIds(sections: seq<Section>): (r: seq<Option<string>>)
    reads Objects(sections)
    ensures |r| == |sections| && forall i :: 0 <= i < |sections| ==> r[i] == sections[i].parentId
  {
    seq(|sections|, i requires 0 <= i < |sections| reads Objects(sections) => sections[i].parentId)
  }

  /** Section `i` once the first `j` sections are linked. */
  predicate LinkedAt(sections: seq<Section>, levels: seq<int>, kids: seq<seq<Section>>, ids: seq<Option<string>>,
                     kids0: seq<seq<Section>>, ids0: seq<Option<string>>, j: nat, i: nat)
    requires |levels| == |kids| == |ids| == |kids0| == |ids0| == |sections| && j <= |sections| && i < |sections|
  {
    && kids[i] == kids0[i] + Pick(sections, ChildIdx(levels, i, j))
    && ids[i] == (if i < j && Parent(levels, i) != -1 then Some(sections[Parent(levels, i)].sectionId) else ids0[i])
  }

  /**
   * The hierarchy once the first `j` sections are linked: each section's
   * children are its original ones followed by its children among them, and
   * each of them that has a parent holds that parent's id.
   */
  predicate LinkedUpTo(sections: seq<Section>, levels: seq<int>, kids: seq<seq<Section>>, ids: seq<Option<string>>,
                       kids0: seq<seq<Section>>, ids0: seq<Option<string>>, j: nat)
    requires |levels| == |kids| == |ids| == |kids0| == |ids0| == |sections| && j <= |sections|
  {
    forall i: nat :: i < |sections| ==> LinkedAt(sections, levels, kids, ids, kids0, ids0, j, i)
  }

  /** Section `j` without a parent changes nothing. */
  lemma LinkRoot(sections: seq<Section>, levels: seq<int>, kids: seq<seq<Section>>, ids: seq<Option<string>>,
                 kids0: seq<seq<Section>>, ids0: seq<Option<string>>, j: nat)
    requires |levels| == |kids| == |ids| == |kids0| == |ids0| == |sections| && j < |sections|
    requires Parent(levels, j) == -1
    requires LinkedUpTo(sections, levels, kids, ids, kids0, ids0, j)
    ensures LinkedUpTo(sections, levels, kids, ids, kids0, ids0, j + 1)
  {
    var next := j + 1;
    forall i: nat | i < |sections| ensures LinkedAt(sections, levels, kids, ids, kids0, ids0, next, i) {
      assert LinkedAt(sections, levels, kids, ids, kids0, ids0, j, i);
      assert ChildIdx(levels, i, j + 1) == ChildIdx(levels, i, j);
    }
  }

  /** Section `j` under its parent `p`, as seen from section `i`. */
  lemma LinkUnderAt(sections: seq<Section>, levels: seq<int>, kids: seq<seq<Section>>, ids: seq<Option<string>>,
                    kids0: seq<seq<Section>>, ids0: seq<Option<string>>, j: nat, p: nat, i: nat)
    requires |levels| == |kids| == |ids| == |kids0| == |ids0| == |sections| && j < |sections| && i < |sections|
    requires Parent(levels, j) == p
    requires LinkedAt(sections, levels, kids, ids, kids0, ids0, j, i)
    ensures LinkedAt(sections, levels, kids[p := kids[p] + [sections[j]]],
                     ids[j := Some(sections[p].sectionId)], kids0, ids0, j + 1, i)
  {
    if i == p {
      PickSnoc(sections, ChildIdx(levels, p, j), j);
    } else {
      assert ChildIdx(levels, i, j + 1) == ChildIdx(levels, i, j);
    }
  }

  /** Section `j` under its parent: one child list grows, one parent id is set. */
  lemma LinkUnder(sections: seq<Section>, levels: seq<int>, kids: seq<seq<Section>>, ids: seq<Option<string>>,
                  kids0: seq<seq<Section>>, ids0: seq<Option<string>>, j: nat, p: nat)
    requires |levels| == |kids| == |ids| == |kids0| == |ids0| == |sections| && j < |sections|
    requires Parent(levels, j) == p
    requires LinkedUpTo(sections, levels, kids, ids, kids0, ids0, j)
    ensures LinkedUpTo(sections, levels, kids[p := kids[p] + [sections[j]]],
                       ids[j := Some(sections[p].sectionId)], kids0, ids0, j + 1)
  {
    var kids' := kids[p := kids[p] + [sections[j]]];
    var ids' := ids[j := Some(sections[p].sectionId)];
    var next := j + 1;
    forall i: nat | i < |sections| ensures LinkedAt(sections, levels, kids', ids', kids0, ids0, next, i) {
      LinkUnderAt(sections, levels, kids, ids, kids0, ids0, j, p, i);
    }
  }

  /** Records `parent` (section `p`) as the parent of section `j`. */
  method LinkChild(sections: seq<Section>, ghost p: nat, j: nat, parent: Section)
    requires DistinctSections(sections) && p < j < |sections| && parent == sections[p]
    modifies parent, sections[j]
    ensures Kids(sections) == old(Kids(sections))[p := old(sections[p].children) + [sections[j]]]
    ensures ParentIds(sections) == old(ParentIds(sections))[j := Some(sections[p].sectionId)]
  {
    Link(parent, sections[j]);
    forall i | 0 <= i < |sections| && i != p && i != j
      ensures sections[i].children == old(sections[i].children) && sections[i].parentId == old(sections[i].parentId)
    {
      assert sections[i] != sections[j] && sections[i] != sections[p];
    }
  }

  /** The stack holds sections `spine`, an ancestor chain ending at section `j - 1`. */
  predicate StackAt(levels: seq<int>, sections: seq<Section>, stack: seq<Section>, spine: seq<nat>, j: nat) {
    && AncestorChain(levels, spine) && Holds(stack, sections, spine)
    && (|spine| > 0 ==> spine[|spine| - 1] == j - 1)
    && (j > 0 ==> |spine| > 0)
  }

  /** Pushing section `j` onto the stack popped down to its parent. */
  lemma StackPush(levels: seq<int>, sections: seq<Section>, stack: seq<Section>, spine: seq<nat>, j: nat)
    requires levels == LevelsOf(sections) && j < |sections|
    requires AncestorChain(levels, spine) && Holds(stack, sections, spine)
    requires Parent(levels, j) == if |spine| == 0 then -1 else spine[|spine| - 1]
    ensures StackAt(levels, sections, stack + [sections[j]], spine + [j], j + 1)
  {
    ChainPush(levels, spine, j);
    HoldsPush(stack, sections, spine, j);
  }

  /** One step of the hierarchy pass: section `j` is linked to its parent and pushed. */
  method PlaceSection(sections: seq<Section>, levels: seq<int>, stack: seq<Section>, ghost spine: seq<nat>,
                      roots: seq<Section>, ghost kids0: seq<seq<Section>>, ghost ids0: seq<Option<string>>, j: nat)
    returns (stack': seq<Section>, ghost spine': seq<nat>, roots': seq<Section>)
    requires DistinctSections(sections) && levels == LevelsOf(sections) && j < |sections|
    requires |kids0| == |ids0| == |sections|
    requires StackAt(levels, sections, stack, spine, j)
    requires roots == Pick(sections, ChildIdx(levels, -1, j))
    requires LinkedUpTo(sections, levels, Kids(sections), ParentIds(sections), kids0, ids0, j)
    modifies sections
    ensures StackAt(levels, sections, stack', spine', j + 1)
    ensures roots' == Pick(sections, ChildIdx(levels, -1, j + 1))
    ensures LinkedUpTo(sections, levels, Kids(sections), ParentIds(sections), kids0, ids0, j + 1)
  {
    ghost var kids, ids := Kids(sections), ParentIds(sections);
    stack', spine' := PopDeeper(levels, stack, spine, sections, j);
    assert Kids(sections) == kids && ParentIds(sections) == ids;
    roots' := roots;
    if |stack'| > 0 {
      ghost var p := spine'[|spine'| - 1];
      assert stack'[|stack'| - 1] == sections[p] && Parent(levels, j) == p;
      assert ChildIdx(levels, -1, j + 1) == ChildIdx(levels, -1, j);
      LinkUnder(sections, levels, kids, ids, kids0, ids0, j, p);
      LinkChild(sections, p, j, stack'[|stack'| - 1]);
    } else {
      LinkRoot(sections, levels, kids, ids, kids0, ids0, j);
      PickSnoc(sections, ChildIdx(levels, -1, j), j);
      roots' := roots + [sections[j]];
    }
    StackPush(levels, sections, stack', spine', j);
    stack' := stack' + [sections[j]];
    spine' := spine' + [j];
  }

  /**
   * Links every section to its parent: the parent's id is recorded and the
   * section is appended to the parent's children; sections without a parent
   * are returned as the roots, in order.
   */
  method BuildHierarchy(sections: seq<Section>) returns (roots: seq<Section>)
    requires DistinctSections(sections)
    modifies sections
    ensures roots == Pick(sections, ChildIdx(LevelsOf(sections), -1, |sections|))
    ensures forall i :: 0 <= i < |sections| ==>
      sections[i].children == old(sections[i].children) + Pick(sections, ChildIdx(LevelsOf(sections), i, |sections|))
    ensures forall i :: 0 <= i < |sections| ==>
      sections[i].parentId == (if Parent(LevelsOf(sections), i) == -1 then old(sections[i].parentId)
                               else Some(sections[Parent(LevelsOf(sections), i)].sectionId))
  {
    var levels := LevelsOf(sections);
    ghost var kids0 := Kids(sections);
    ghost var ids0 := ParentIds(sections);
    roots := [];
    var stack: seq<Section> := [];
    ghost var spine: seq<nat> := [];
    for j := 0 to |sections|
      invariant StackAt(levels, sections, stack, spine, j)
      invariant roots == Pick(sections, ChildIdx(levels, -1, j))
      invariant LinkedUpTo(sections, levels, Kids(sections), ParentIds(sections), kids0, ids0, j)
    {
      stack, spine, roots := PlaceSection(sections, levels, stack, spine, roots, kids0, ids0, j);
    }
    ghost var kids, ids := Kids(sections), ParentIds(sections);
    forall i | 0 <= i < |sections|
      ensures sections[i].children == old(sections[i].children) + Pick(sections, ChildIdx(levels, i, |sections|))
      ensures sections[i].parentId == (if Parent(levels, i) == -1 then old(sections[i].parentId)
                                       else Some(sections[Parent(levels, i)].sectionId))
    {
      assert LinkedAt(sections, levels, kids, ids, kids0, ids0, |sections|, i);
      assert kids[i] == sections[i].children && ids[i] == sections[i].parentId;
    }
  }

  // ---------------------------------------------------------------------------
  // Section similarity
  // ---------------------------------------------------------------------------

  /** A string similarity ratio (the sequence matcher's) that lies in [0, 1]. */
  ghost predicate RatioInUnit(ratio: (string, string) -> real) {
    forall a, b :: 0.0 <= ratio(a, b) <= 1.0
  }

  function TitleRatio(ratio: (string, string) -> real, s1: Section, s2: Section): real {
    ratio(Lower(s1.title), Lower(s2.title))
  }

  /** The lowercased first 500 characters of a section's content. */
  function ContentHead(s: Section): string {
    Lower(s.content[..Min(|s.content|, 500)])
  }

  /**
   * The 0..100 score of two sections: 60 for the title ratio, 30 for the
   * content ratio (only counted when the titles are more than 0.6 alike),
   * 10 for equal levels and 5 otherwise.
   */
  function CalculateSimilarity(ratio: (string, string) -> real, s1: Section, s2: Section): (score: real)
    ensures RatioInUnit(ratio) ==> 5.0 <= score <= 100.0
    ensures RatioInUnit(ratio) && score > 60.0 ==> TitleRatio(ratio, s1, s2) > 0.6
    ensures RatioInUnit(ratio) && score > 95.0 ==>
      TitleRatio(ratio, s1, s2) > 0.9 && ratio(ContentHead(s1), ContentHead(s2)) > 0.8
  {
    var title := TitleRatio(ratio, s1, s2);
    var level := if s1.level == s2.level then 1.0 else 0.5;
    var content := if title > 0.6 then ratio(ContentHead(s1), ContentHead(s2)) else 0.0;
    assert RatioInUnit(ratio) ==> 0.0 <= title <= 1.0 && 0.0 <= content <= 1.0;
    (title * 0.6 + content * 0.3 + level * 0.1) * 100.0
  }

  // ---------------------------------------------------------------------------
  // Section matching
  // ---------------------------------------------------------------------------

  datatype ChangeKind = Unchanged | Modified | Added | Removed | Reordered

  /** A pair of matched sections or a single added/removed one; the line-level content changes are not modelled. */
  datatype SectionMatch = SectionMatch(
    originalSection: Option<Section>, modifiedSection: Option<Section>, matchScore: real, changeType: ChangeKind)

  /** Accepting a candidate needs a score above this. */
  const MatchThreshold: real := 60.0

  /**
   * The decision for one original section given the modified indices already
   * used: the first unused modified section of highest score, when that score
   * is above 60; `-1` when no unused one scores above 60.
   */
  predicate SectionChosen(o: Section, mods: seq<Section>, used: set<int>, choice: int,
                          score: (Section, Section) -> real) {
    if choice == -1 then
      forall j :: 0 <= j < |mods| && j !in used ==> score(o, mods[j]) <= MatchThreshold
    else
      0 <= choice < |mods| && choice !in used && score(o, mods[choice]) > MatchThreshold
      && (forall j :: 0 <= j < |mods| && j !in used ==> score(o, mods[j]) <= score(o, mods[choice]))
      && (forall j :: 0 <= j < choice && j !in used ==> score(o, mods[j]) < score(o, mods[choice]))
  }

  /** The scan of the unused modified sections for the first best one scoring above 60. */
  method BestSection(o: Section, mods: seq<Section>, used: set<int>, score: (Section, Section) -> real)
    returns (best: int, bestScore: real)
    ensures SectionChosen(o, mods, used, best, score)
    ensures best != -1 ==> bestScore == score(o, mods[best])
  {
    best, bestScore := -1, 0.0;
    for j := 0 to |mods|
      invariant best == -1 ==> (bestScore == 0.0 &&
        forall j' :: 0 <= j' < j && j' !in used ==> score(o, mods[j']) <= MatchThreshold)
      invariant best != -1 ==> (0 <= best < j && best !in used
        && bestScore == score(o, mods[best]) && bestScore > MatchThreshold
        && (forall j' :: 0 <= j' < j && j' !in used ==> score(o, mods[j']) <= bestScore)
        && (forall j' :: 0 <= j' < best && j' !in used ==> score(o, mods[j']) < bestScore))
    {
      if j in used {
        continue;
      }
      var s := score(o, mods[j]);
      if s > bestScore && s > MatchThreshold {
        best, bestScore := j, s;
      }
    }
  }

  /**
   * The kind of a matched pair at original index `i` and modified index `j`:
   * unchanged when the score is above 95 and the contents are equal,
   * otherwise reordered when the positions are more than 2 apart, otherwise
   * modified.
   */
  function PairKind(score: real, original: Section, modified: Section, i: int, j: int): (k: ChangeKind)
    ensures k == Unchanged <==> score > 95.0 && original.content == modified.content
    ensures k == Reordered <==> !(score > 95.0 && original.content == modified.content) && Abs(i - j) > 2
    ensures k != Added && k != Removed
  {
    if score > 95.0 && original.content == modified.content then Unchanged
    else if Abs(i - j) > 2 then Reordered
    else Modified
  }

  /** The match reported for original section `i` under the decisions `pairing`. */
  function OriginalMatch(orig: seq<Section>, mods: seq<Section>, pairing: seq<int>, i: nat,
                         score: (Section, Section) -> real): SectionMatch
    requires i < |orig| && i < |pairing| && -1 <= pairing[i] < |mods|
  {
    if pairing[i] == -1 then SectionMatch(Some(orig[i]), None, 0.0, Removed)
    else
      var j := pairing[i];
      var sc := score(orig[i], mods[j]);
      SectionMatch(Some(orig[i]), Some(mods[j]), sc, PairKind(sc, orig[i], mods[j], i, j))
  }

  function AddedMatches(mods: seq<Section>, idx: seq<nat>): (r: seq<SectionMatch>)
    requires forall k :: 0 <= k < |idx| ==> idx[k] < |mods|
    ensures |r| == |idx|
    ensures forall k :: 0 <= k < |idx| ==> r[k] == SectionMatch(None, Some(mods[idx[k]]), 0.0, Added)
  {
    seq(|idx|, k requires 0 <= k < |idx| => SectionMatch(None, Some(mods[idx[k]]), 0.0, Added))
  }

  /**
   * The first pass after `|pairing|` original sections: each decision is the
   * greedy choice given the modified sections used before it, and the match
   * reported for each is the one its decision determines.
   */
  ghost predicate FirstPassDone(orig: seq<Section>, mods: seq<Section>, score: (Section, Section) -> real,
                                pairing: seq<int>, matches: seq<SectionMatch>) {
    && |pairing| == |matches| <= |orig| && PairingValid(pairing, |mods|)
    && (forall i :: 0 <= i < |pairing| ==> SectionChosen(orig[i], mods, UsedSet(pairing[..i]), pairing[i], score))
    && (forall i :: 0 <= i < |pairing| ==> matches[i] == OriginalMatch(orig, mods, pairing, i, score))
  }

  lemma FirstPassStep(orig: seq<Section>, mods: seq<Section>, score: (Section, Section) -> real,
                      pairing: seq<int>, matches: seq<SectionMatch>, choice: int)
    requires FirstPassDone(orig, mods, score, pairing, matches) && |pairing| < |orig|
    requires SectionChosen(orig[|pairing|], mods, UsedSet(pairing), choice, score)
    ensures FirstPassDone(orig, mods, score, pairing + [choice],
                          matches + [OriginalMatch(orig, mods, pairing + [choice], |pairing|, score)])
    ensures UsedSet(pairing + [choice]) == UsedSet(pairing) + (if choice == -1 then {} else {choice})
  {
    var i := |pairing|;
    var pairing' := pairing + [choice];
    UsedSetAppend(pairing, choice);
    assert pairing'[..i] == pairing;
    forall i' | 0 <= i' < i ensures pairing'[..i'] == pairing[..i'] { }
    forall i1, i2 | 0 <= i1 < i2 < |pairing'| && pairing'[i1] != -1 ensures pairing'[i1] != pairing'[i2] {
      if i2 == i {
        assert pairing'[i1] in UsedSet(pairing);
      }
    }
  }

  /** The complete matching before sorting: the first pass over all original sections, then the added ones. */
  ghost predicate Paired(orig: seq<Section>, mods: seq<Section>, score: (Section, Section) -> real,
                         pairing: seq<int>, matches: seq<SectionMatch>) {
    && |pairing| == |orig| <= |matches| == |orig| + |mods| - |UsedSet(pairing)|
    && FirstPassDone(orig, mods, score, pairing, matches[..|orig|])
    && (forall j :: j in UsedSet(pairing) ==> 0 <= j < |mods|)
    && matches[|orig|..] == AddedMatches(mods, Unmatched(|mods|, UsedSet(pairing)))
  }

  /**
   * The two passes before sorting: each original section in turn takes its
   * best unused modified section scoring above 60, or is reported removed;
   * the modified sections never taken are reported added, in order.
   */
  method PairSections(orig: seq<Section>, mods: seq<Section>, score: (Section, Section) -> real)
    returns (matches: seq<SectionMatch>, ghost pairing: seq<int>)
    ensures Paired(orig, mods, score, pairing, matches)
  {
    var usedModified: set<int> := {};
    matches := [];
    pairing := [];
    for i := 0 to |orig|
      invariant |pairing| == i && FirstPassDone(orig, mods, score, pairing, matches)
      invariant usedModified == UsedSet(pairing)
    {
      var best, bestScore := BestSection(orig[i], mods, usedModified, score);
      FirstPassStep(orig, mods, score, pairing, matches, best);
      var m;
      if best != -1 {
        usedModified := usedModified + {best};
        m := SectionMatch(Some(orig[i]), Some(mods[best]), bestScore, PairKind(bestScore, orig[i], mods[best], i, best));
      } else {
        m := SectionMatch(Some(orig[i]), None, 0.0, Removed);
      }
      assert m == OriginalMatch(orig, mods, pairing + [best], i, score);
      matches := matches + [m];
      pairing := pairing + [best];
    }
    assert forall j :: j in usedModified ==> 0 <= j < |mods|;
    var firstPass := matches;
    matches := AppendAdded(mods, usedModified, firstPass);
    assert matches[..|orig|] == firstPass;
    assert matches[|orig|..] == AddedMatches(mods, Unmatched(|mods|, usedModified));
    UnmatchedLength(|mods|, usedModified);
  }

  /** The second pass: every modified section outside `used` is appended as added, in order. */
  method AppendAdded(mods: seq<Section>, used: set<int>, matches0: seq<SectionMatch>) returns (matches: seq<SectionMatch>)
    ensures matches == matches0 + AddedMatches(mods, Unmatched(|mods|, used))
  {
    matches := matches0;
    for j := 0 to |mods|
      invariant matches == matches0 + AddedMatches(mods, Unmatched(j, used))
    {
      if j !in used {
        assert Unmatched(j + 1, used) == Unmatched(j, used) + [j];
        matches := matches + [SectionMatch(None, Some(mods[j]), 0.0, Added)];
      }
    }
  }

  // ---------------------------------------------------------------------------
  // Ordering of the matches
  // ---------------------------------------------------------------------------

  /** The sort key: the original section's page, then the modified one's, 999 standing for a missing section. */
  function PositionKey(m: SectionMatch): (int, int) {
    (if m.originalSection.Some? then m.originalSection.value.pageNumber else 999,
     if m.modifiedSection.Some? then m.modifiedSection.value.pageNumber else 999)
  }

  /** Lexicographic order on keys. */
  predicate KeyLe(a: (int, int), b: (int, int)) {
    a.0 < b.0 || (a.0 == b.0 && a.1 <= b.1)
  }

  predicate SortedByPosition(ms: seq<SectionMatch>) {
    forall i, j :: 0 <= i < j < |ms| ==> KeyLe(PositionKey(ms[i]), PositionKey(ms[j]))
  }

  /** The matches with the given key, in order. */
  function WithKey(ms: seq<SectionMatch>, key: (int, int)): (r: seq<SectionMatch>)
    ensures |r| <= |ms|
  {
    if ms == [] then []
    else WithKey(ms[..|ms| - 1], key) + (if PositionKey(ms[|ms| - 1]) == key then [ms[|ms| - 1]] else [])
  }

  /** Places `x` after every element whose key is not above its own. */
  function InsertByPosition(x: SectionMatch, ms: seq<SectionMatch>): (r: seq<SectionMatch>)
    ensures |r| == |ms| + 1
    ensures multiset(r) == multiset(ms) + multiset{x}
  {
    if ms == [] || KeyLe(PositionKey(ms[|ms| - 1]), PositionKey(x)) then ms + [x]
    else
      var init := ms[..|ms| - 1];
      assert ms == init + [ms[|ms| - 1]];
      InsertByPosition(x, init) + [ms[|ms| - 1]]
  }

  /** A stable sort by `PositionKey` (an insertion sort). */
  function SortByPosition(ms: seq<SectionMatch>): (r: seq<SectionMatch>)
    ensures multiset(r) == multiset(ms)
  {
    if ms == [] then []
    else
      var init := ms[..|ms| - 1];
      assert ms == init + [ms[|ms| - 1]];
      InsertByPosition(ms[|ms| - 1], SortByPosition(init))
  }

  /** Every match has a key not above `key`. */
  predicate KeysAtMost(ms: seq<SectionMatch>, key: (int, int)) {
    forall i :: 0 <= i < |ms| ==> KeyLe(PositionKey(ms[i]), key)
  }

  lemma {:induction false} InsertKeysAtMost(x: SectionMatch, ms: seq<SectionMatch>, key: (int, int))
    requires KeysAtMost(ms, key) && KeyLe(PositionKey(x), key)
    ensures KeysAtMost(InsertByPosition(x, ms), key)
  {
    if ms != [] && !KeyLe(PositionKey(ms[|ms| - 1]), PositionKey(x)) {
      var init := ms[..|ms| - 1];
      InsertKeysAtMost(x, init, key);
    }
  }

  lemma {:induction false} InsertSorted(x: SectionMatch, ms: seq<SectionMatch>)
    requires SortedByPosition(ms)
    ensures SortedByPosition(InsertByPosition(x, ms))
  {
    if ms != [] && !KeyLe(PositionKey(ms[|ms| - 1]), PositionKey(x)) {
      var init := ms[..|ms| - 1];
      var last := ms[|ms| - 1];
      InsertSorted(x, init);
      assert KeysAtMost(init, PositionKey(last));
      InsertKeysAtMost(x, init, PositionKey(last));
      var r := InsertByPosition(x, init);
      assert InsertByPosition(x, ms) == r + [last];
    }
  }

  lemma {:induction false} WithKeySnoc(ms: seq<SectionMatch>, x: SectionMatch, key: (int, int))
    ensures WithKey(ms + [x], key) == WithKey(ms, key) + (if PositionKey(x) == key then [x] else [])
  {
    assert (ms + [x])[..|ms|] == ms;
  }

  lemma {:induction false} InsertWithKey(x: SectionMatch, ms: seq<SectionMatch>, key: (int, int))
    ensures WithKey(InsertByPosition(x, ms), key) == WithKey(ms, key) + (if PositionKey(x) == key then [x] else [])
  {
    if ms == [] || KeyLe(PositionKey(ms[|ms| - 1]), PositionKey(x)) {
      WithKeySnoc(ms, x, key);
    } else {
      var init := ms[..|ms| - 1];
      var last := ms[|ms| - 1];
      assert ms == init + [last];
      InsertWithKey(x, init, key);
      WithKeySnoc(InsertByPosition(x, init), last, key);
      WithKeySnoc(init, last, key);
      assert PositionKey(x) != PositionKey(last);
    }
  }

  /** The sort orders by position and keeps matches with equal keys in their original order. */
  lemma {:induction false} SortByPositionCorrect(ms: seq<SectionMatch>, key: (int, int))
    ensures SortedByPosition(SortByPosition(ms))
    ensures WithKey(SortByPosition(ms), key) == WithKey(ms, key)
  {
    if ms != [] {
      var init := ms[..|ms| - 1];
      var last := ms[|ms| - 1];
      SortByPositionCorrect(init, key);
      InsertSorted(last, SortByPosition(init));
      InsertWithKey(last, SortByPosition(init), key);
    }
  }

  /**
   * Section matching: the two greedy passes, then a stable sort of all the
   * matches by page position.
   */
  method MatchSections(orig: seq<Section>, mods: seq<Section>, score: (Section, Section) -> real)
    returns (matches: seq<SectionMatch>, ghost unsorted: seq<SectionMatch>, ghost pairing: seq<int>)
    ensures Paired(orig, mods, score, pairing, unsorted)
    ensures matches == SortByPosition(unsorted)
    ensures SortedByPosition(matches) && multiset(matches) == multiset(unsorted)
  {
    var paired;
    paired, pairing := PairSections(orig, mods, score);
    unsorted := paired;
    matches := SortByPosition(paired);
    SortByPositionCorrect(paired, (0, 0));
  }

  // ---------------------------------------------------------------------------
  // Summary
  // ---------------------------------------------------------------------------

  function Kinds(ms: seq<SectionMatch>): (r: seq<ChangeKind>)
    ensures |r| == |ms| && forall k :: 0 <= k < |ms| ==> r[k] == ms[k].changeType
  {
    seq(|ms|, k requires 0 <= k < |ms| => ms[k].changeType)
  }

  /** How many matches are of kind `kind`. */
  function CountKind(ms: seq<SectionMatch>, kind: ChangeKind): nat {
    Occurrences(Kinds(ms), kind)
  }

  const AllKinds: seq<ChangeKind> := [Unchanged, Modified, Added, Removed, Reordered]

  /** Every match has one of the five kinds, so the five counts add up to the number of matches. */
  lemma KindCountsSum(ms: seq<SectionMatch>)
    ensures CountKind(ms, Unchanged) + CountKind(ms, Modified) + CountKind(ms, Added)
      + CountKind(ms, Removed) + CountKind(ms, Reordered) == |ms|
  {
    assert Distinct(AllKinds);
    forall x | x in Kinds(ms) ensures x in AllKinds {
      match x
      case Unchanged => assert AllKinds[0] == x;
      case Modified => assert AllKinds[1] == x;
      case Added => assert AllKinds[2] == x;
      case Removed => assert AllKinds[3] == x;
      case Reordered => assert AllKinds[4] == x;
    }
    SumOccurrencesTotal(Kinds(ms), AllKinds);
    var xs := Kinds(ms);
    var k4, k3, k2, k1 := AllKinds[..4], AllKinds[..3], AllKinds[..2], AllKinds[..1];
    assert k4[..3] == k3 && k3[..2] == k2 && k2[..1] == k1 && k1[..0] == [];
    assert SumOccurrences(xs, AllKinds) == SumOccurrences(xs, k4) + Occurrences(xs, Reordered);
    assert SumOccurrences(xs, k4) == SumOccurrences(xs, k3) + Occurrences(xs, Removed);
    assert SumOccurrences(xs, k3) == SumOccurrences(xs, k2) + Occurrences(xs, Added);
    assert SumOccurrences(xs, k2) == SumOccurrences(xs, k1) + Occurrences(xs, Modified);
    assert SumOccurrences(xs, k1) == Occurrences(xs, Unchanged);
  }

  lemma KindsSnoc(ms: seq<SectionMatch>, m: SectionMatch)
    ensures Kinds(ms + [m]) == Kinds(ms) + [m.changeType]
  {
  }

  /** The summary dictionary: the two section totals and one counter per change kind. */
  datatype Summary = Summary(totalOriginal: nat, totalModified: nat,
                             unchangedCount: nat, modifiedCount: nat, addedCount: nat, removedCount: nat, reorderedCount: nat)
  {
    /** The counter kept for `kind`. */
    function Count(kind: ChangeKind): nat {
      match kind
      case Unchanged => unchangedCount
      case Modified => modifiedCount
      case Added => addedCount
      case Removed => removedCount
      case Reordered => reorderedCount
    }

    /** The five kind counters added up. */
    function KindTotal(): (t: nat)
      ensures t == Count(Unchanged) + Count(Modified) + Count(Added) + Count(Removed) + Count(Reordered)
    {
      unchangedCount + modifiedCount + addedCount + removedCount + reorderedCount
    }

    /** The summary after one more match of kind `kind`: that counter goes up by one, nothing else changes. */
    function Bump(kind: ChangeKind): (s: Summary)
      ensures s.totalOriginal == totalOriginal && s.totalModified == totalModified
      ensures forall k :: s.Count(k) == Count(k) + (if k == kind then 1 else 0)
      ensures s.KindTotal() == KindTotal() + 1
    {
      match kind
      case Unchanged => this.(unchangedCount := unchangedCount + 1)
      case Modified => this.(modifiedCount := modifiedCount + 1)
      case Added => this.(addedCount := addedCount + 1)
      case Removed => this.(removedCount := removedCount + 1)
      case Reordered => this.(reorderedCount := reorderedCount + 1)
    }
  }

  /** The structure comparator: the sections of both documents, the matches and the summary. */
  class StructureComparator {
    var originalSections: seq<Section>
    var modifiedSections: seq<Section>
    var matches: seq<SectionMatch>
    var summary: Summary

    /** Every entry of the summary starts at zero. */
    constructor()
      ensures originalSections == [] && modifiedSections == [] && matches == []
      ensures summary == Summary(0, 0, 0, 0, 0, 0, 0)
    {
      originalSections, modifiedSections, matches := [], [], [];
      summary := Summary(0, 0, 0, 0, 0, 0, 0);
    }

    /**
     * Adds the kind counts of the current matches to the summary (it does not
     * reset the counters first); the totals and the other fields stay.
     */
    method UpdateSummary()
      modifies this
      ensures summary.totalOriginal == old(summary.totalOriginal)
      ensures summary.totalModified == old(summary.totalModified)
      ensures forall k :: summary.Count(k) == old(summary.Count(k)) + CountKind(matches, k)
      ensures summary.KindTotal() == old(summary.KindTotal()) + |matches|
      ensures matches == old(matches)
      ensures originalSections == old(originalSections) && modifiedSections == old(modifiedSections)
    {
      var ms := matches;
      var s := summary;
      for i := 0 to |ms|
        invariant unchanged(this)
        invariant s.totalOriginal == summary.totalOriginal && s.totalModified == summary.totalModified
        invariant forall k :: s.Count(k) == summary.Count(k) + CountKind(ms[..i], k)
        invariant s.KindTotal() == summary.KindTotal() + i
      {
        assert ms[..i + 1] == ms[..i] + [ms[i]];
        KindsSnoc(ms[..i], ms[i]);
        forall k ensures CountKind(ms[..i + 1], k) == CountKind(ms[..i], k) + (if ms[i].changeType == k then 1 else 0) {
          OccurrencesSnoc(Kinds(ms[..i]), ms[i].changeType, k);
        }
        s := s.Bump(ms[i].changeType);
      }
      assert ms[..|ms|] == ms;
      summary := s;
    }

    /**
     * The comparison of two extracted documents: the section totals are
     * recorded, the sections are matched with `score` (the document tool
     * passes `CalculateSimilarity` over its sequence-matcher ratio) and
     * sorted by position, and the kind counts of the matches are added to
     * the summary.
     */
    method Compare(original: seq<Section>, modified: seq<Section>, score: (Section, Section) -> real)
      returns (ghost unsorted: seq<SectionMatch>, ghost pairing: seq<int>)
      modifies this
      ensures originalSections == original && modifiedSections == modified
      ensures Paired(original, modified, score, pairing, unsorted)
      ensures matches == SortByPosition(unsorted)
      ensures summary.totalOriginal == |original| && summary.totalModified == |modified|
      ensures forall k :: summary.Count(k) == old(summary.Count(k)) + CountKind(matches, k)
      ensures summary.KindTotal() == old(summary.KindTotal()) + |matches|
    {
      var ms;
      ms, unsorted, pairing := MatchSections(original, modified, score);
      Record(original, modified, ms);
    }

    /** Stores the documents and their matches, then counts the matches into the summary. */
    method Record(original: seq<Section>, modified: seq<Section>, ms: seq<SectionMatch>)
      modifies this
      ensures originalSections == original && modifiedSections == modified && matches == ms
      ensures summary.totalOriginal == |original| && summary.totalModified == |modified|
      ensures forall k :: summary.Count(k) == old(summary.Count(k)) + CountKind(ms, k)
      ensures summary.KindTotal() == old(summary.KindTotal()) + |ms|
    {
      originalSections, modifiedSections := original, modified;
      summary := summary.(totalOriginal := |original|, totalModified := |modified|);
      matches := ms;
      UpdateSummary();
    }
  }

  // ---------------------------------------------------------------------------
  // Analysis: critical changes and structural changes
  // ---------------------------------------------------------------------------

  /** Every keyword lower-cased. */
  function LowerAll(keywords: seq<string>): (r: seq<string>)
    ensures |r| == |keywords| && forall k :: 0 <= k < |r| ==> r[k] == Lower(keywords[k])
  {
    seq(|keywords|, k requires 0 <= k < |keywords| => Lower(keywords[k]))
  }

  /**
   * A removed or modified match whose section (the original one when there
   * is one, else the modified one) mentions a keyword in its title or
   * content, ignoring case.
   */
  predicate IsCritical(m: SectionMatch, keywords: seq<string>) {
    && (m.changeType == Removed || m.changeType == Modified)
    && (m.originalSection.Some? || m.modifiedSection.Some?)
    && var section := if m.originalSection.Some? then m.originalSection.value else m.modifiedSection.value;
       ContainsAny(Lower(section.title + " " + section.content), LowerAll(keywords))
  }

  /** The critical matches, in their order. */
  function CriticalOf(ms: seq<SectionMatch>, keywords: seq<string>): seq<SectionMatch> {
    if ms == [] then []
    else CriticalOf(ms[..|ms| - 1], keywords) + (if IsCritical(ms[|ms| - 1], keywords) then [ms[|ms| - 1]] else [])
  }

  /** The filter keeps exactly the critical matches and nothing else. */
  lemma {:induction false} CriticalOfMembers(ms: seq<SectionMatch>, keywords: seq<string>)
    ensures |CriticalOf(ms, keywords)| <= |ms|
    ensures forall m :: m in CriticalOf(ms, keywords) <==> m in ms && IsCritical(m, keywords)
  {
    if ms != [] {
      var init := ms[..|ms| - 1];
      CriticalOfMembers(init, keywords);
      assert ms == init + [ms[|ms| - 1]];
    }
  }

  /** The critical-change filter over a list of matches. */
  method FindCriticalChanges(ms: seq<SectionMatch>, keywords: seq<string>) returns (r: seq<SectionMatch>)
    ensures r == CriticalOf(ms, keywords)
    ensures forall m :: m in r <==> m in ms && IsCritical(m, keywords)
  {
    r := [];
    var lowered := LowerAll(keywords);
    for i := 0 to |ms|
      invariant r == CriticalOf(ms[..i], keywords)
    {
      assert ms[..i + 1][..i] == ms[..i];
      var m := ms[i];
      if m.changeType == Removed || m.changeType == Modified {
        var section := if m.originalSection.Some? then m.originalSection else m.modifiedSection;
        if section.Some? {
          var text := Lower(section.value.title + " " + section.value.content);
          if ContainsAny(text, lowered) {
            r := r + [m];
          }
        }
      }
    }
    assert ms[..|ms|] == ms;
    CriticalOfMembers(ms, keywords);
  }

  /** The largest element of a non-empty sequence. */
  function MaxOf(xs: seq<int>): (x: int)
    requires xs != []
    ensures x in xs && forall k :: 0 <= k < |xs| ==> xs[k] <= x
  {
    if |xs| == 1 then xs[0]
    else
      var y := MaxOf(xs[..|xs| - 1]);
      assert forall k :: 0 <= k < |xs| - 1 ==> xs[..|xs| - 1][k] == xs[k];
      Max(y, xs[|xs| - 1])
  }

  /**
   * The keys of a level-count dictionary (listed in insertion order) after
   * the report reads the counts of levels 1, 2 and 3: a missing key read
   * from a default dictionary is inserted with count 0.
   */
  function ProbedKeys(keys: seq<int>): (r: seq<int>)
    ensures forall l :: l in r <==> l in keys || l == 1 || l == 2 || l == 3
  {
    var k1 := if 1 in keys then keys else keys + [1];
    var k2 := if 2 in k1 then k1 else k1 + [2];
    if 3 in k2 then k2 else k2 + [3]
  }

  /** The hierarchy depth as the report computes it: after the probes the dictionary is never empty. */
  function HierarchyLevelsAsWritten(keys: seq<int>): int {
    var probed := ProbedKeys(keys);
    if probed != [] then MaxOf(probed) else 0
  }

  /** The hierarchy depth the report means: the deepest level present, 0 for no sections. */
  function HierarchyLevels(keys: seq<int>): (d: int)
    ensures keys == [] ==> d == 0
    ensures keys != [] ==> d in keys && forall k :: 0 <= k < |keys| ==> keys[k] <= d
  {
    if keys != [] then MaxOf(keys) else 0
  }

  /** The depth as written is the true depth raised to at least 3, and 3 for no sections at all. */
  lemma HierarchyLevelsAsWrittenIsAtLeastThree(keys: seq<int>)
    ensures HierarchyLevelsAsWritten(keys) == if keys == [] then 3 else Max(3, HierarchyLevels(keys))
  {
    var probed := ProbedKeys(keys);
    assert 3 in probed;
    var d := MaxOf(probed);
    assert d >= 3;
    if keys != [] {
      var h := HierarchyLevels(keys);
      assert h in probed;
      assert d >= h;
    }
  }

  /** A document without sections, or one with only chapters, is reported with three hierarchy levels. */
  lemma HierarchyLevelsAsWrittenCounterexample()
    ensures HierarchyLevelsAsWritten([]) == 3 && HierarchyLevels([]) == 0
    ensures HierarchyLevelsAsWritten([1]) == 3 && HierarchyLevels([1]) == 1
  {
    HierarchyLevelsAsWrittenIsAtLeastThree([]);
    HierarchyLevelsAsWrittenIsAtLeastThree([1]);
  }

  /** The structural change report: count differences for levels 1 to 3 and the depth of each document. */
  datatype StructuralChanges = StructuralChanges(
    chapterCountChange: int,
    sectionCountChange: int,
    subsectionCountChange: int,
    totalHierarchyLevelsOriginal: int,
    totalHierarchyLevelsModified: int)

  /** The level counts of one document: the sections at levels 1, 2 and 3, and its depth. */
  method LevelProfile(sections: seq<Section>) returns (chapters: nat, parts: nat, subparts: nat, depth: int)
    ensures chapters == Occurrences(LevelsOf(sections), 1)
    ensures parts == Occurrences(LevelsOf(sections), 2)
    ensures subparts == Occurrences(LevelsOf(sections), 3)
    ensures sections == [] ==> depth == 0
    ensures sections != [] ==> depth in LevelsOf(sections) && forall i :: 0 <= i < |sections| ==> sections[i].level <= depth
  {
    var levels := LevelsOf(sections);
    var byLevel, keys := Tally(levels);
    chapters := if 1 in byLevel then byLevel[1] else 0;
    parts := if 2 in byLevel then byLevel[2] else 0;
    subparts := if 3 in byLevel then byLevel[3] else 0;
    OccurrencesPositive(levels, 1);
    OccurrencesPositive(levels, 2);
    OccurrencesPositive(levels, 3);
    depth := HierarchyLevels(keys);
    if sections != [] {
      assert levels[0] in keys;
      forall i | 0 <= i < |sections| ensures sections[i].level <= depth {
        assert levels[i] in keys;
      }
    }
  }

  /** The structural changes from the original to the modified document. */
  method DetectStructuralChanges(original: seq<Section>, modified: seq<Section>) returns (r: StructuralChanges)
    ensures r.chapterCountChange == Occurrences(LevelsOf(modified), 1) - Occurrences(LevelsOf(original), 1)
    ensures r.sectionCountChange == Occurrences(LevelsOf(modified), 2) - Occurrences(LevelsOf(original), 2)
    ensures r.subsectionCountChange == Occurrences(LevelsOf(modified), 3) - Occurrences(LevelsOf(original), 3)
    ensures original == [] ==> r.totalHierarchyLevelsOriginal == 0
    ensures original != [] ==> (r.totalHierarchyLevelsOriginal in LevelsOf(original)
      && forall i :: 0 <= i < |original| ==> original[i].level <= r.totalHierarchyLevelsOriginal)
    ensures modified == [] ==> r.totalHierarchyLevelsModified == 0
    ensures modified != [] ==> (r.totalHierarchyLevelsModified in LevelsOf(modified)
      && forall i :: 0 <= i < |modified| ==> modified[i].level <= r.totalHierarchyLevelsModified)
  {
    var o1, o2, o3, oDepth := LevelProfile(original);
    var m1, m2, m3, mDepth := LevelProfile(modified);
    r := StructuralChanges(m1 as int - o1, m2 as int - o2, m3 as int - o3, oDepth, mDepth);
  }
}
