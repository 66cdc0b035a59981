/**
 * The line diff of two texts and its post-processing: the empty-text cases
 * and the expansion of the sequence matcher's opcodes into diff lines,
 * moved-line detection, and the content analyzer (statistics, keyword
 * filtering, grouping of consecutive changes). The sequence matcher is
 * abstract: its opcodes and its ratio are parameters.
 */
module SmartDiff {
  import opened Wrappers
  import opened TextUtil
  import opened Counting

  datatype DiffKind = Unchanged | Added | Removed | Modified

  /** One diff entry: `(change_type, original_line, modified_line)`. */
  datatype DiffLine = DiffLine(kind: DiffKind, original: string, modified: string)

  // ---------------------------------------------------------------------------
  // Lines of a text
  // ---------------------------------------------------------------------------

  /** The lines that are not blank, as they are. */
  function NonBlank(lines: seq<string>): (r: seq<string>)
    ensures |r| <= |lines|
    ensures forall k :: 0 <= k < |r| ==> Strip(r[k]) != ""
  {
    if lines == [] then []
    else
      var n := |lines| - 1;
      NonBlank(lines[..n]) + (if Strip(lines[n]) != "" then [lines[n]] else [])
  }

  /** The stripped non-blank lines of a text, the unit the diff works on. */
  function Lines(text: string): (r: seq<string>)
    ensures forall k :: 0 <= k < |r| ==> r[k] != ""
  {
    StripAll(NonBlank(Split(text, '\n')))
  }

  // ---------------------------------------------------------------------------
  // compare_texts
  // ---------------------------------------------------------------------------

  datatype OpTag = Equal | Replace | Delete | Insert

  /** A sequence matcher opcode: `lines1[i1..i2]` relates to `lines2[j1..j2]`. */
  datatype Opcode = Opcode(tag: OpTag, i1: nat, i2: nat, j1: nat, j2: nat)

  predicate InBounds(op: Opcode, n1: nat, n2: nat) {
    op.i1 <= op.i2 <= n1 && op.j1 <= op.j2 <= n2
  }

  predicate AllInBounds(ops: seq<Opcode>, n1: nat, n2: nat) {
    forall k :: 0 <= k < |ops| ==> InBounds(ops[k], n1, n2)
  }

  /** The diff lines of one opcode. */
  function OpLines(op: Opcode, lines1: seq<string>, lines2: seq<string>): (r: seq<DiffLine>)
    requires InBounds(op, |lines1|, |lines2|)
  {
    var orig, mods := lines1[op.i1..op.i2], lines2[op.j1..op.j2];
    match op.tag
      case Equal => UnchangedLines(orig)
      case Replace =>
        if |orig| == |mods| then ModifiedLines(orig, mods)
        else RemovedLines(orig) + AddedLines(mods)
      case Delete => RemovedLines(orig)
      case Insert => AddedLines(mods)
  }

  function UnchangedLines(lines: seq<string>): (r: seq<DiffLine>)
    ensures |r| == |lines| && forall k :: 0 <= k < |r| ==> r[k] == DiffLine(Unchanged, lines[k], lines[k])
  {
    seq(|lines|, k requires 0 <= k < |lines| => DiffLine(Unchanged, lines[k], lines[k]))
  }

  /** The pairs of `zip(orig, mods)` as modifications. */
  function ModifiedLines(orig: seq<string>, mods: seq<string>): (r: seq<DiffLine>)
    requires |orig| == |mods|
    ensures |r| == |orig| && forall k :: 0 <= k < |r| ==> r[k] == DiffLine(Modified, orig[k], mods[k])
  {
    seq(|orig|, k requires 0 <= k < |orig| => DiffLine(Modified, orig[k], mods[k]))
  }

  function RemovedLines(lines: seq<string>): (r: seq<DiffLine>)
    ensures |r| == |lines| && forall k :: 0 <= k < |r| ==> r[k] == DiffLine(Removed, lines[k], "")
  {
    seq(|lines|, k requires 0 <= k < |lines| => DiffLine(Removed, lines[k], ""))
  }

  function AddedLines(lines: seq<string>): (r: seq<DiffLine>)
    ensures |r| == |lines| && forall k :: 0 <= k < |r| ==> r[k] == DiffLine(Added, "", lines[k])
  {
    seq(|lines|, k requires 0 <= k < |lines| => DiffLine(Added, "", lines[k]))
  }

  /** The diff lines of all opcodes, in order. */
  function Expand(ops: seq<Opcode>, lines1: seq<string>, lines2: seq<string>): seq<DiffLine>
    requires AllInBounds(ops, |lines1|, |lines2|)
  {
    if ops == [] then []
    else
      var n := |ops| - 1;
      Expand(ops[..n], lines1, lines2) + OpLines(ops[n], lines1, lines2)
  }

  /**
   * `compare_texts`: nothing for two empty texts; every non-blank line added
   * (or removed) when only one text is empty; otherwise the opcodes of the
   * two texts' stripped non-blank lines expanded into diff lines.
   */
  method CompareTexts(text1: string, text2: string, ops: seq<Opcode>) returns (result: seq<DiffLine>)
    requires text1 != "" && text2 != "" ==> AllInBounds(ops, |Lines(text1)|, |Lines(text2)|)
    ensures text1 == "" && text2 == "" ==> result == []
    ensures text1 == "" && text2 != "" ==> result == AddedLines(NonBlank(Split(text2, '\n')))
    ensures text1 != "" && text2 == "" ==> result == RemovedLines(NonBlank(Split(text1, '\n')))
    ensures text1 != "" && text2 != "" ==> result == Expand(ops, Lines(text1), Lines(text2))
  {
    if text1 == "" && text2 == "" {
      return [];
    }
    if text1 == "" {
      return AddedLines(NonBlank(Split(text2, '\n')));
    }
    if text2 == "" {
      return RemovedLines(NonBlank(Split(text1, '\n')));
    }
    result := ExpandOpcodes(ops, Lines(text1), Lines(text2));
  }

  /** The opcode loop of `compare_texts`. */
  method ExpandOpcodes(ops: seq<Opcode>, lines1: seq<string>, lines2: seq<string>) returns (result: seq<DiffLine>)
    requires AllInBounds(ops, |lines1|, |lines2|)
    ensures result == Expand(ops, lines1, lines2)
  {
    result := [];
    for k := 0 to |ops|
      invariant result == Expand(ops[..k], lines1, lines2)
    {
      assert ops[..k + 1][..k] == ops[..k];
      result := result + OpLines(ops[k], lines1, lines2);
    }
    assert ops[..|ops|] == ops;
  }

  /** The original side of a diff: every entry that is not an addition. */
  function Originals(d: seq<DiffLine>): seq<string> {
    if d == [] then []
    else
      var n := |d| - 1;
      Originals(d[..n]) + (if d[n].kind != Added then [d[n].original] else [])
  }

  /** The modified side of a diff: every entry that is not a removal. */
  function Modifieds(d: seq<DiffLine>): seq<string> {
    if d == [] then []
    else
      var n := |d| - 1;
      Modifieds(d[..n]) + (if d[n].kind != Removed then [d[n].modified] else [])
  }

  lemma {:induction false} SidesAppend(a: seq<DiffLine>, b: seq<DiffLine>)
    ensures Originals(a + b) == Originals(a) + Originals(b)
    ensures Modifieds(a + b) == Modifieds(a) + Modifieds(b)
    decreases |b|
  {
    if b == [] {
      assert a + b == a;
    } else {
      var n := |b| - 1;
      assert (a + b)[..|a + b| - 1] == a + b[..n];
      SidesAppend(a, b[..n]);
    }
  }

  /** The original side of lines all of one kind. */
  lemma {:induction false} OriginalsOfUniform(d: seq<DiffLine>, kind: DiffKind)
    requires forall k :: 0 <= k < |d| ==> d[k].kind == kind
    ensures kind != Added ==> |Originals(d)| == |d| && forall k :: 0 <= k < |d| ==> Originals(d)[k] == d[k].original
    ensures kind == Added ==> Originals(d) == []
  {
    if d != [] {
      OriginalsOfUniform(d[..|d| - 1], kind);
    }
  }

  /** The modified side of lines all of one kind. */
  lemma {:induction false} ModifiedsOfUniform(d: seq<DiffLine>, kind: DiffKind)
    requires forall k :: 0 <= k < |d| ==> d[k].kind == kind
    ensures kind != Removed ==> |Modifieds(d)| == |d| && forall k :: 0 <= k < |d| ==> Modifieds(d)[k] == d[k].modified
    ensures kind == Removed ==> Modifieds(d) == []
  {
    if d != [] {
      ModifiedsOfUniform(d[..|d| - 1], kind);
    }
  }

  /**
   * What the sequence matcher guarantees of an opcode: equal ranges hold
   * equal lines, a deletion covers no modified line and an insertion no
   * original line.
   */
  predicate Faithful(op: Opcode, lines1: seq<string>, lines2: seq<string>)
    requires InBounds(op, |lines1|, |lines2|)
  {
    match op.tag
      case Equal => lines1[op.i1..op.i2] == lines2[op.j1..op.j2]
      case Replace => true
      case Delete => op.j1 == op.j2
      case Insert => op.i1 == op.i2
  }

  /** One opcode's diff lines hold exactly its original and its modified lines. */
  lemma OpLinesSides(op: Opcode, lines1: seq<string>, lines2: seq<string>)
    requires InBounds(op, |lines1|, |lines2|) && Faithful(op, lines1, lines2)
    ensures Originals(OpLines(op, lines1, lines2)) == lines1[op.i1..op.i2]
    ensures Modifieds(OpLines(op, lines1, lines2)) == lines2[op.j1..op.j2]
  {
    var orig, mods := lines1[op.i1..op.i2], lines2[op.j1..op.j2];
    match op.tag
      case Equal =>
        SidesOfUnchanged(orig);
      case Replace =>
        if |orig| == |mods| {
          SidesOfModified(orig, mods);
        } else {
          SidesOfRemoved(orig);
          SidesOfAdded(mods);
          SidesAppend(RemovedLines(orig), AddedLines(mods));
        }
      case Delete =>
        SidesOfRemoved(orig);
      case Insert =>
        SidesOfAdded(mods);
  }

  lemma SidesOfUnchanged(lines: seq<string>)
    ensures Originals(UnchangedLines(lines)) == lines && Modifieds(UnchangedLines(lines)) == lines
  {
    var d := UnchangedLines(lines);
    OriginalsOfUniform(d, Unchanged);
    ModifiedsOfUniform(d, Unchanged);
    assert Originals(d) == lines;
    assert Modifieds(d) == lines;
  }

  lemma SidesOfModified(orig: seq<string>, mods: seq<string>)
    requires |orig| == |mods|
    ensures Originals(ModifiedLines(orig, mods)) == orig && Modifieds(ModifiedLines(orig, mods)) == mods
  {
    var d := ModifiedLines(orig, mods);
    OriginalsOfUniform(d, Modified);
    ModifiedsOfUniform(d, Modified);
    assert Originals(d) == orig;
    assert Modifieds(d) == mods;
  }

  lemma SidesOfRemoved(lines: seq<string>)
    ensures Originals(RemovedLines(lines)) == lines && Modifieds(RemovedLines(lines)) == []
  {
    var d := RemovedLines(lines);
    OriginalsOfUniform(d, Removed);
    ModifiedsOfUniform(d, Removed);
    assert Originals(d) == lines;
  }

  lemma SidesOfAdded(lines: seq<string>)
    ensures Originals(AddedLines(lines)) == [] && Modifieds(AddedLines(lines)) == lines
  {
    var d := AddedLines(lines);
    OriginalsOfUniform(d, Added);
    ModifiedsOfUniform(d, Added);
    assert Modifieds(d) == lines;
  }

  /** The opcodes cover `lines1[..n1]` and `lines2[..n2]` in order, without gaps, each faithfully. */
  predicate Tiles(ops: seq<Opcode>, lines1: seq<string>, lines2: seq<string>, n1: nat, n2: nat)
    requires AllInBounds(ops, |lines1|, |lines2|)
  {
    if ops == [] then n1 == 0 && n2 == 0
    else
      var last := ops[|ops| - 1];
      && last.i2 == n1 && last.j2 == n2
      && Faithful(last, lines1, lines2)
      && Tiles(ops[..|ops| - 1], lines1, lines2, last.i1, last.j1)
  }

  /**
   * Expanding opcodes that tile both line lists gives a diff whose original
   * side is the first list and whose modified side is the second.
   */
  lemma {:induction false} ExpandReconstructs(ops: seq<Opcode>, lines1: seq<string>, lines2: seq<string>, n1: nat, n2: nat)
    requires AllInBounds(ops, |lines1|, |lines2|)
    requires Tiles(ops, lines1, lines2, n1, n2)
    ensures n1 <= |lines1| && n2 <= |lines2|
    ensures Originals(Expand(ops, lines1, lines2)) == lines1[..n1]
    ensures Modifieds(Expand(ops, lines1, lines2)) == lines2[..n2]
  {
    if ops != [] {
      var n := |ops| - 1;
      var last := ops[n];
      assert AllInBounds(ops[..n], |lines1|, |lines2|);
      ExpandReconstructs(ops[..n], lines1, lines2, last.i1, last.j1);
      ExpandStep(ops, lines1, lines2);
    }
  }

  /** One more faithful opcode extends both sides by its ranges. */
  lemma ExpandStep(ops: seq<Opcode>, lines1: seq<string>, lines2: seq<string>)
    requires ops != [] && AllInBounds(ops, |lines1|, |lines2|)
    requires Faithful(ops[|ops| - 1], lines1, lines2)
    requires var last, init := ops[|ops| - 1], ops[..|ops| - 1];
      && Originals(Expand(init, lines1, lines2)) == lines1[..last.i1]
      && Modifieds(Expand(init, lines1, lines2)) == lines2[..last.j1]
    ensures var last := ops[|ops| - 1];
      && Originals(Expand(ops, lines1, lines2)) == lines1[..last.i2]
      && Modifieds(Expand(ops, lines1, lines2)) == lines2[..last.j2]
  {
    var n := |ops| - 1;
    var last := ops[n];
    OpLinesSides(last, lines1, lines2);
    SidesConcat(Expand(ops[..n], lines1, lines2), OpLines(last, lines1, lines2), lines1, lines2,
                last.i1, last.i2, last.j1, last.j2);
  }

  /** Diffs of consecutive ranges concatenate to a diff of the joined range. */
  lemma SidesConcat(a: seq<DiffLine>, b: seq<DiffLine>, lines1: seq<string>, lines2: seq<string>,
                    i1: nat, i2: nat, j1: nat, j2: nat)
    requires i1 <= i2 <= |lines1| && j1 <= j2 <= |lines2|
    requires Originals(a) == lines1[..i1] && Modifieds(a) == lines2[..j1]
    requires Originals(b) == lines1[i1..i2] && Modifieds(b) == lines2[j1..j2]
    ensures Originals(a + b) == lines1[..i2] && Modifieds(a + b) == lines2[..j2]
  {
    SidesAppend(a, b);
    SliceJoin(lines1, i1, i2);
    SliceJoin(lines2, j1, j2);
  }

  lemma SliceJoin(xs: seq<string>, i: nat, j: nat)
    requires i <= j <= |xs|
    ensures xs[..i] + xs[i..j] == xs[..j]
  {
  }

  // ---------------------------------------------------------------------------
  // calculate_similarity
  // ---------------------------------------------------------------------------

  /** A ratio (the sequence matcher's) that lies in [0, 1]. */
  ghost predicate RatioInUnit(ratio: (string, string) -> real) {
    forall a, b :: 0.0 <= ratio(a, b) <= 1.0
  }

  /** `calculate_similarity`: a percentage; 100 for two empty texts, 0 when only one is empty. */
  function CalculateSimilarity(text1: string, text2: string, ratio: (string, string) -> real): (r: real)
    ensures text1 == "" && text2 == "" ==> r == 100.0
    ensures (text1 == "") != (text2 == "") ==> r == 0.0
    ensures text1 != "" && text2 != "" ==> r == ratio(text1, text2) * 100.0
    ensures RatioInUnit(ratio) ==> 0.0 <= r <= 100.0
  {
    if text1 == "" && text2 == "" then 100.0
    else if text1 == "" || text2 == "" then 0.0
    else ratio(text1, text2) * 100.0
  }

  // ---------------------------------------------------------------------------
  // find_moved_content
  // ---------------------------------------------------------------------------

  /** Line `j` of the second text repeats `line`, found at `i`, more than two lines away, with a high ratio. */
  predicate IsMoveTarget(line: string, i: nat, lines2: seq<string>, j: nat, ratio: (string, string) -> real)
    requires j < |lines2|
  {
    line == lines2[j] && Abs(i - j) > 2 && ratio(line, lines2[j]) > 0.9
  }

  /** The first move target at or after `from`. */
  function FirstTarget(line: string, i: nat, lines2: seq<string>, from: nat, ratio: (string, string) -> real)
    : (r: Option<nat>)
    ensures r.Some? ==> from <= r.value < |lines2| && IsMoveTarget(line, i, lines2, r.value, ratio)
    ensures r.Some? ==> forall j :: from <= j < r.value ==> !IsMoveTarget(line, i, lines2, j, ratio)
    ensures r.None? ==> forall j :: from <= j < |lines2| ==> !IsMoveTarget(line, i, lines2, j, ratio)
    decreases |lines2| - from
  {
    if from >= |lines2| then None
    else if IsMoveTarget(line, i, lines2, from, ratio) then Some(from)
    else FirstTarget(line, i, lines2, from + 1, ratio)
  }

  /** A moved line: its content and its positions in the two texts. */
  datatype Move = Move(content: string, i: nat, j: nat)

  /** The moves of the first `n` lines of the first text. */
  function MovesUpTo(lines1: seq<string>, lines2: seq<string>, n: nat, ratio: (string, string) -> real): seq<Move>
    requires n <= |lines1|
  {
    if n == 0 then []
    else
      var i := n - 1;
      var target := FirstTarget(lines1[i], i, lines2, 0, ratio);
      MovesUpTo(lines1, lines2, i, ratio)
        + (if |lines1[i]| >= 20 && target.Some? then [Move(lines1[i], i, target.value)] else [])
  }

  /** The scan of the second text for one line: the first move target, as the inner loop finds it. */
  method FindTarget(line: string, i: nat, lines2: seq<string>, ratio: (string, string) -> real) returns (r: Option<nat>)
    ensures r == FirstTarget(line, i, lines2, 0, ratio)
  {
    for j := 0 to |lines2|
      invariant FirstTarget(line, i, lines2, 0, ratio) == FirstTarget(line, i, lines2, j, ratio)
    {
      if line == lines2[j] && Abs(i - j) > 2 {
        if ratio(line, lines2[j]) > 0.9 {
          return Some(j);
        }
      }
    }
    return None;
  }

  /** `find_moved_content`: for each long enough line of the first text, its first move target. */
  method FindMovedContent(text1: string, text2: string, ratio: (string, string) -> real) returns (moved: seq<Move>)
    ensures moved == MovesUpTo(Lines(text1), Lines(text2), |Lines(text1)|, ratio)
  {
    moved := FindMoves(Lines(text1), Lines(text2), ratio);
  }

  /** The loop of `find_moved_content` over the stripped non-blank lines. */
  method FindMoves(lines1: seq<string>, lines2: seq<string>, ratio: (string, string) -> real) returns (moved: seq<Move>)
    ensures moved == MovesUpTo(lines1, lines2, |lines1|, ratio)
  {
    moved := [];
    for i := 0 to |lines1|
      invariant moved == MovesUpTo(lines1, lines2, i, ratio)
    {
      if |lines1[i]| < 20 {
        continue;
      }
      var target := FindTarget(lines1[i], i, lines2, ratio);
      if target.Some? {
        moved := moved + [Move(lines1[i], i, target.value)];
      }
    }
  }

  /**
   * A reported move: a line of at least 20 characters found at `i < n` in the
   * first text and at its first move target `j` in the second.
   */
  predicate MoveSound(m: Move, lines1: seq<string>, lines2: seq<string>, n: nat, ratio: (string, string) -> real) {
    && m.i < n && m.i < |lines1| && m.j < |lines2|
    && |m.content| >= 20
    && m.content == lines1[m.i] == lines2[m.j]
    && Abs(m.i - m.j) > 2
    && Some(m.j) == FirstTarget(lines1[m.i], m.i, lines2, 0, ratio)
  }

  /** Every move of `ms` is sound for the first `n` lines, and the moves come in increasing `i`. */
  ghost predicate SoundMoves(ms: seq<Move>, lines1: seq<string>, lines2: seq<string>, n: nat, ratio: (string, string) -> real) {
    (forall k :: 0 <= k < |ms| ==> MoveSound(ms[k], lines1, lines2, n, ratio))
    && (forall k1, k2 :: 0 <= k1 < k2 < |ms| ==> ms[k1].i < ms[k2].i)
  }

  lemma MovesSoundStep(lines1: seq<string>, lines2: seq<string>, i: nat, ratio: (string, string) -> real)
    requires i < |lines1| && SoundMoves(MovesUpTo(lines1, lines2, i, ratio), lines1, lines2, i, ratio)
    ensures SoundMoves(MovesUpTo(lines1, lines2, i + 1, ratio), lines1, lines2, i + 1, ratio)
  {
    var prev := MovesUpTo(lines1, lines2, i, ratio);
    var ms := MovesUpTo(lines1, lines2, i + 1, ratio);
    var t := FirstTarget(lines1[i], i, lines2, 0, ratio);
    forall k | 0 <= k < |prev| ensures MoveSound(prev[k], lines1, lines2, i + 1, ratio) {
      assert MoveSound(prev[k], lines1, lines2, i, ratio);
    }
    if |lines1[i]| >= 20 && t.Some? {
      assert IsMoveTarget(lines1[i], i, lines2, t.value, ratio);
      assert ms == prev + [Move(lines1[i], i, t.value)];
      forall k | 0 <= k < |ms| ensures MoveSound(ms[k], lines1, lines2, i + 1, ratio) {
        if k < |prev| {
          assert ms[k] == prev[k];
        }
      }
      forall k1, k2 | 0 <= k1 < k2 < |ms| ensures ms[k1].i < ms[k2].i {
        assert ms[k1] == prev[k1] && MoveSound(prev[k1], lines1, lines2, i, ratio);
        if k2 < |prev| {
          assert ms[k2] == prev[k2];
        }
      }
    } else {
      assert ms == prev;
    }
  }

  /** Every move is sound, and there is at most one per line, in increasing `i`. */
  lemma MovesSound(lines1: seq<string>, lines2: seq<string>, n: nat, ratio: (string, string) -> real)
    requires n <= |lines1|
    ensures SoundMoves(MovesUpTo(lines1, lines2, n, ratio), lines1, lines2, n, ratio)
  {
    for i := 0 to n
      invariant SoundMoves(MovesUpTo(lines1, lines2, i, ratio), lines1, lines2, i, ratio)
    {
      MovesSoundStep(lines1, lines2, i, ratio);
    }
  }

  lemma {:induction false} MovesComplete(lines1: seq<string>, lines2: seq<string>, n: nat, ratio: (string, string) -> real, i: nat)
    requires i < n <= |lines1|
    requires |lines1[i]| >= 20 && FirstTarget(lines1[i], i, lines2, 0, ratio).Some?
    ensures exists k :: 0 <= k < |MovesUpTo(lines1, lines2, n, ratio)| && MovesUpTo(lines1, lines2, n, ratio)[k].i == i
  {
    var ms := MovesUpTo(lines1, lines2, n, ratio);
    if i < n - 1 {
      MovesComplete(lines1, lines2, n - 1, ratio, i);
      var k :| 0 <= k < |MovesUpTo(lines1, lines2, n - 1, ratio)| && MovesUpTo(lines1, lines2, n - 1, ratio)[k].i == i;
      assert ms[k] == MovesUpTo(lines1, lines2, n - 1, ratio)[k];
    } else {
      assert ms[|ms| - 1].i == i;
    }
  }

  /**
   * With the matcher's ratio of a line to itself above 0.9 (it is 1 for a
   * non-empty line), the target is the first equal line more than two lines away.
   */
  lemma FirstTargetIsFirstEqual(line: string, i: nat, lines2: seq<string>, ratio: (string, string) -> real, j: nat)
    requires forall s :: ratio(s, s) > 0.9
    requires FirstTarget(line, i, lines2, 0, ratio) == Some(j)
    ensures j < |lines2| && lines2[j] == line && Abs(i - j) > 2
    ensures forall j' :: 0 <= j' < j ==> lines2[j'] != line || Abs(i - j') <= 2
  {
    forall j' | 0 <= j' < j
      ensures lines2[j'] != line || Abs(i - j') <= 2
    {
      assert !IsMoveTarget(line, i, lines2, j', ratio);
    }
  }

  // ---------------------------------------------------------------------------
  // ContentAnalyzer
  // ---------------------------------------------------------------------------

  function Kinds(d: seq<DiffLine>): (r: seq<DiffKind>)
    ensures |r| == |d| && forall k :: 0 <= k < |d| ==> r[k] == d[k].kind
  {
    seq(|d|, k requires 0 <= k < |d| => d[k].kind)
  }

  datatype DiffStatistics = DiffStatistics(unchangedCount: nat, addedCount: nat, removedCount: nat, modifiedCount: nat, totalLines: nat)
  {
    function Count(kind: DiffKind): nat {
      match kind
        case Unchanged => unchangedCount
        case Added => addedCount
        case Removed => removedCount
        case Modified => modifiedCount
    }
  }

  /** `get_statistics`: the number of entries of each kind, and of all. */
  method GetStatistics(d: seq<DiffLine>) returns (st: DiffStatistics)
    ensures st.totalLines == |d|
    ensures forall kind :: st.Count(kind) == Occurrences(Kinds(d), kind)
  {
    st := DiffStatistics(0, 0, 0, 0, |d|);
    for i := 0 to |d|
      invariant st.totalLines == |d|
      invariant forall kind :: st.Count(kind) == Occurrences(Kinds(d[..i]), kind)
    {
      assert Kinds(d[..i + 1]) == Kinds(d[..i]) + [d[i].kind];
      forall kind ensures Occurrences(Kinds(d[..i + 1]), kind) == Occurrences(Kinds(d[..i]), kind) + (if d[i].kind == kind then 1 else 0) {
        OccurrencesSnoc(Kinds(d[..i]), d[i].kind, kind);
      }
      match d[i].kind
        case Unchanged => st := st.(unchangedCount := st.unchangedCount + 1);
        case Added => st := st.(addedCount := st.addedCount + 1);
        case Removed => st := st.(removedCount := st.removedCount + 1);
        case Modified => st := st.(modifiedCount := st.modifiedCount + 1);
    }
    assert d[..|d|] == d;
  }

  /** The four counts of the statistics add up to the number of entries. */
  lemma StatisticsAddUp(d: seq<DiffLine>, st: DiffStatistics)
    requires st.totalLines == |d|
    requires forall kind :: st.Count(kind) == Occurrences(Kinds(d), kind)
    ensures st.unchangedCount + st.addedCount + st.removedCount + st.modifiedCount == st.totalLines
  {
    var keys := [Unchanged, Added, Removed, Modified];
    var xs := Kinds(d);
    assert Distinct(keys);
    forall x | x in xs ensures x in keys {
      match x
      case Unchanged => assert keys[0] == x;
      case Added => assert keys[1] == x;
      case Removed => assert keys[2] == x;
      case Modified => assert keys[3] == x;
    }
    SumOccurrencesTotal(xs, keys);
    var k3, k2, k1 := keys[..3], keys[..2], keys[..1];
    assert k3[..2] == k2 && k2[..1] == k1 && k1[..0] == [];
    assert SumOccurrences(xs, keys) == SumOccurrences(xs, k3) + Occurrences(xs, Modified);
    assert SumOccurrences(xs, k3) == SumOccurrences(xs, k2) + Occurrences(xs, Removed);
    assert SumOccurrences(xs, k2) == SumOccurrences(xs, k1) + Occurrences(xs, Added);
    assert SumOccurrences(xs, k1) == Occurrences(xs, Unchanged);
    assert st.Count(Unchanged) == st.unchangedCount && st.Count(Added) == st.addedCount;
    assert st.Count(Removed) == st.removedCount && st.Count(Modified) == st.modifiedCount;
  }

  /** A change that `extract_key_changes` keeps: not unchanged, and mentioning a keyword when there are any. */
  predicate IsKeyChange(e: DiffLine, keywords: seq<string>) {
    e.kind != Unchanged && (keywords == [] || ContainsAny(Lower(e.original + " " + e.modified), LowerAll(keywords)))
  }

  function LowerAll(keywords: seq<string>): (r: seq<string>)
    ensures |r| == |keywords| && forall k :: 0 <= k < |r| ==> r[k] == Lower(keywords[k])
  {
    seq(|keywords|, k requires 0 <= k < |keywords| => Lower(keywords[k]))
  }

  /** The entries of `d` that satisfy `IsKeyChange`, in order. */
  function KeyChanges(d: seq<DiffLine>, keywords: seq<string>): (r: seq<DiffLine>)
    ensures |r| <= |d|
  {
    if d == [] then []
    else
      var n := |d| - 1;
      KeyChanges(d[..n], keywords) + (if IsKeyChange(d[n], keywords) then [d[n]] else [])
  }

  /** The entries that are not unchanged, in order: the comprehension branch of `extract_key_changes`. */
  function Changes(d: seq<DiffLine>): (r: seq<DiffLine>)
    ensures |r| <= |d|
  {
    if d == [] then []
    else
      var n := |d| - 1;
      Changes(d[..n]) + (if d[n].kind != Unchanged then [d[n]] else [])
  }

  /** Without keywords the key changes are all the changes. */
  lemma {:induction false} KeyChangesWithoutKeywords(d: seq<DiffLine>)
    ensures KeyChanges(d, []) == Changes(d)
  {
    if d != [] {
      KeyChangesWithoutKeywords(d[..|d| - 1]);
    }
  }

  lemma {:induction false} KeyChangesMembers(d: seq<DiffLine>, keywords: seq<string>, e: DiffLine)
    ensures e in KeyChanges(d, keywords) <==> e in d && IsKeyChange(e, keywords)
  {
    if d != [] {
      var n := |d| - 1;
      KeyChangesMembers(d[..n], keywords, e);
      assert d == d[..n] + [d[n]];
    }
  }

  /**
   * `extract_key_changes`: the changes when there are no keywords, else the
   * changes whose lowercased `original + " " + modified` contains a lowercased
   * keyword, in order.
   */
  method ExtractKeyChanges(d: seq<DiffLine>, keywords: seq<string>) returns (r: seq<DiffLine>)
    ensures r == KeyChanges(d, keywords)
    ensures keywords == [] ==> r == Changes(d)
    ensures forall k :: 0 <= k < |r| ==> r[k].kind != Unchanged
  {
    if keywords == [] {
      KeyChangesWithoutKeywords(d);
      r := Changes(d);
    } else {
      var lowered := LowerAll(keywords);
      r := [];
      for i := 0 to |d|
        invariant r == KeyChanges(d[..i], keywords)
      {
        assert d[..i + 1][..i] == d[..i];
        if d[i].kind == Unchanged {
          continue;
        }
        var text := Lower(d[i].original + " " + d[i].modified);
        if ContainsAny(text, lowered) {
          r := r + [d[i]];
        }
      }
      assert d[..|d|] == d;
    }
    forall k | 0 <= k < |r| ensures r[k].kind != Unchanged {
      KeyChangesMembers(d, keywords, r[k]);
    }
  }

  /**
   * The entries between consecutive unchanged entries (and before the first
   * and after the last): one more piece than there are unchanged entries.
   */
  function Pieces(d: seq<DiffLine>): (r: seq<seq<DiffLine>>)
    ensures r != []
  {
    if d == [] then [[]]
    else
      var n := |d| - 1;
      var p := Pieces(d[..n]);
      if d[n].kind == Unchanged then p + [[]]
      else p[..|p| - 1] + [p[|p| - 1] + [d[n]]]
  }

  /** The non-empty pieces, in order. */
  function NonEmpty(ps: seq<seq<DiffLine>>): (r: seq<seq<DiffLine>>)
    ensures forall k :: 0 <= k < |r| ==> r[k] != []
  {
    if ps == [] then []
    else
      var n := |ps| - 1;
      NonEmpty(ps[..n]) + (if ps[n] != [] then [ps[n]] else [])
  }

  lemma NonEmptySnoc(ps: seq<seq<DiffLine>>, p: seq<DiffLine>)
    ensures NonEmpty(ps + [p]) == NonEmpty(ps) + (if p != [] then [p] else [])
  {
    assert (ps + [p])[..|ps|] == ps;
  }

  /** The groups of changes: the maximal runs without an unchanged entry. */
  function Groups(d: seq<DiffLine>): seq<seq<DiffLine>> {
    NonEmpty(Pieces(d))
  }

  /** `group_consecutive_changes`: the runs of changes between unchanged entries, empty runs dropped. */
  method GroupConsecutiveChanges(d: seq<DiffLine>) returns (groups: seq<seq<DiffLine>>)
    ensures groups == Groups(d)
  {
    if d == [] {
      return [];
    }
    groups := [];
    var current: seq<DiffLine> := [];
    for i := 0 to |d|
      invariant GroupState(Pieces(d[..i]), groups, current)
    {
      PiecesStep(d, i);
      if d[i].kind == Unchanged {
        GroupStepUnchanged(Pieces(d[..i]), groups, current);
        if current != [] {
          groups := groups + [current];
          current := [];
        }
      } else {
        GroupStepChange(Pieces(d[..i]), groups, current, d[i]);
        current := current + [d[i]];
      }
    }
    assert d[..|d|] == d;
    GroupStepUnchanged(Pieces(d), groups, current);
    if current != [] {
      groups := groups + [current];
    }
  }

  /** The loop state after a prefix with pieces `p`: the open group is the last piece, the groups the other non-empty ones. */
  predicate GroupState(p: seq<seq<DiffLine>>, groups: seq<seq<DiffLine>>, current: seq<DiffLine>) {
    p != [] && current == p[|p| - 1] && groups == NonEmpty(p[..|p| - 1])
  }

  lemma PiecesStep(d: seq<DiffLine>, i: nat)
    requires i < |d|
    ensures var p := Pieces(d[..i]);
      Pieces(d[..i + 1]) == if d[i].kind == Unchanged then p + [[]] else p[..|p| - 1] + [p[|p| - 1] + [d[i]]]
  {
    assert d[..i + 1][..i] == d[..i];
  }

  /** An unchanged entry closes the open group, which is kept when it is not empty. */
  lemma GroupStepUnchanged(p: seq<seq<DiffLine>>, groups: seq<seq<DiffLine>>, current: seq<DiffLine>)
    requires GroupState(p, groups, current)
    ensures NonEmpty(p) == groups + (if current != [] then [current] else [])
    ensures GroupState(p + [[]], groups + (if current != [] then [current] else []), [])
  {
    assert p == p[..|p| - 1] + [current];
    NonEmptySnoc(p[..|p| - 1], current);
    assert (p + [[]])[..|p|] == p;
  }

  /** A change joins the open group. */
  lemma GroupStepChange(p: seq<seq<DiffLine>>, groups: seq<seq<DiffLine>>, current: seq<DiffLine>, x: DiffLine)
    requires GroupState(p, groups, current)
    ensures GroupState(p[..|p| - 1] + [current + [x]], groups, current + [x])
  {
    assert (p[..|p| - 1] + [current + [x]])[..|p| - 1] == p[..|p| - 1];
  }

  function Flatten(ps: seq<seq<DiffLine>>): seq<DiffLine> {
    if ps == [] then [] else Flatten(ps[..|ps| - 1]) + ps[|ps| - 1]
  }

  lemma FlattenSnoc(ps: seq<seq<DiffLine>>, p: seq<DiffLine>)
    ensures Flatten(ps + [p]) == Flatten(ps) + p
  {
    assert (ps + [p])[..|ps|] == ps;
  }

  lemma {:induction false} FlattenNonEmpty(ps: seq<seq<DiffLine>>)
    ensures Flatten(NonEmpty(ps)) == Flatten(ps)
  {
    if ps != [] {
      var n := |ps| - 1;
      FlattenNonEmpty(ps[..n]);
      if ps[n] != [] {
        FlattenSnoc(NonEmpty(ps[..n]), ps[n]);
      } else {
        assert NonEmpty(ps) == NonEmpty(ps[..n]) + [];
        assert NonEmpty(ps[..n]) + [] == NonEmpty(ps[..n]);
        assert Flatten(ps[..n]) + ps[n] == Flatten(ps[..n]);
      }
    }
  }

  /** The pieces hold no unchanged entry, and together they are the changes, in order. */
  lemma PiecesSound(d: seq<DiffLine>)
    ensures forall k, m :: 0 <= k < |Pieces(d)| && 0 <= m < |Pieces(d)[k]| ==> Pieces(d)[k][m].kind != Unchanged
    ensures Flatten(Pieces(d)) == Changes(d)
    ensures |Pieces(d)| == Occurrences(Kinds(d), Unchanged) + 1
  {
    PiecesHoldChanges(d);
    PiecesFlatten(d);
    PiecesCount(d);
  }

  lemma {:induction false} PiecesHoldChanges(d: seq<DiffLine>)
    ensures forall k, m :: 0 <= k < |Pieces(d)| && 0 <= m < |Pieces(d)[k]| ==> Pieces(d)[k][m].kind != Unchanged
  {
    if d != [] {
      var n := |d| - 1;
      PiecesHoldChanges(d[..n]);
    }
  }

  lemma {:induction false} PiecesFlatten(d: seq<DiffLine>)
    ensures Flatten(Pieces(d)) == Changes(d)
  {
    if d != [] {
      var n := |d| - 1;
      var p := Pieces(d[..n]);
      PiecesFlatten(d[..n]);
      assert p == p[..|p| - 1] + [p[|p| - 1]];
      if d[n].kind == Unchanged {
        FlattenSnoc(p, []);
      } else {
        FlattenSnoc(p[..|p| - 1], p[|p| - 1]);
        FlattenSnoc(p[..|p| - 1], p[|p| - 1] + [d[n]]);
      }
    }
  }

  lemma {:induction false} PiecesCount(d: seq<DiffLine>)
    ensures |Pieces(d)| == Occurrences(Kinds(d), Unchanged) + 1
  {
    if d != [] {
      var n := |d| - 1;
      PiecesCount(d[..n]);
      assert Kinds(d) == Kinds(d[..n]) + [d[n].kind];
      OccurrencesSnoc(Kinds(d[..n]), d[n].kind, Unchanged);
    }
  }

  /**
   * The groups are non-empty runs of changes; concatenated they are the diff
   * without its unchanged entries; there are at most one more of them than
   * there are unchanged entries.
   */
  lemma GroupsSound(d: seq<DiffLine>)
    ensures forall k :: 0 <= k < |Groups(d)| ==> Groups(d)[k] != []
    ensures forall k, m :: 0 <= k < |Groups(d)| && 0 <= m < |Groups(d)[k]| ==> Groups(d)[k][m].kind != Unchanged
    ensures Flatten(Groups(d)) == Changes(d)
  {
    PiecesSound(d);
    FlattenNonEmpty(Pieces(d));
    NonEmptyFrom(Pieces(d));
  }

  lemma {:induction false} NonEmptyFrom(ps: seq<seq<DiffLine>>)
    ensures forall k :: 0 <= k < |NonEmpty(ps)| ==> NonEmpty(ps)[k] in ps
  {
    if ps != [] {
      NonEmptyFrom(ps[..|ps| - 1]);
    }
  }
}
