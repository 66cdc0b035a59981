/**
 * Paragraph segmentation: the lines of a text are grouped into paragraphs
 * at blank lines, at list markers, at heading-like lines and at sentence
 * boundaries; paragraphs shorter than 10 characters are dropped; paragraphs
 * split by page or column breaks can be merged back.
 */
module ParagraphExtractor {
  import opened Wrappers
  import opened TextUtil

  /** Paragraphs shorter than this are dropped. */
  const MinParagraphLength: nat := 10

  datatype ParagraphType = Normal | Numbered | Bullet | Heading

  /** A paragraph with its structure: the lines `startPosition` up to `endPosition` (excluded) of the text. */
  datatype Paragraph = Paragraph(text: string, paragraphType: ParagraphType, number: Option<string>,
                                 startPosition: nat, endPosition: nat)

  // ---------------------------------------------------------------------------
  // Line markers
  // ---------------------------------------------------------------------------

  /** The length of the longest prefix of `s` made of groups of digits each followed by a dot. */
  function DottedGroups(s: string): (n: nat)
    ensures n <= |s|
    decreases |s|
  {
    var k := DigitSpan(s);
    if k > 0 && k < |s| && s[k] == '.' then k + 1 + DottedGroups(s[k + 1..]) else 0
  }

  /** `^(\d+\.(?:\d+\.)*)\s+`: a number such as `1.` or `1.2.3.` followed by whitespace; the number. */
  function NumberedMarker(line: string): (r: Option<string>)
    ensures r.Some? ==> r.value != [] && StartsWith(line, r.value) && |r.value| < |line|
                        && r.value[|r.value| - 1] == '.' && IsSpace(line[|r.value|])
  {
    var n := DottedGroups(line);
    if n > 0 && n < |line| && IsSpace(line[n]) then
      assert line[n - 1] == '.' by { DottedGroupsEndInDot(line); }
      Some(line[..n])
    else None
  }

  lemma {:induction false} DottedGroupsEndInDot(s: string)
    requires DottedGroups(s) > 0
    ensures s[DottedGroups(s) - 1] == '.'
    decreases |s|
  {
    var k := DigitSpan(s);
    assert k > 0 && k < |s| && s[k] == '.';
    var rest := s[k + 1..];
    var n := DottedGroups(rest);
    assert DottedGroups(s) == k + 1 + n;
    if n > 0 {
      DottedGroupsEndInDot(rest);
      assert s[k + n] == rest[n - 1];
    }
  }

  /** `^([a-z]\))\s+`: a lower-case letter and a parenthesis followed by whitespace; the marker. */
  function LetterMarker(line: string): (r: Option<string>)
    ensures r.Some? ==> |r.value| == 2 && StartsWith(line, r.value)
  {
    if |line| >= 3 && IsLower(line[0]) && line[1] == ')' && IsSpace(line[2]) then Some(line[..2]) else None
  }

  /** A letter of a roman numeral, in either case. */
  predicate IsRomanLetter(c: char) {
    LowerChar(c) in "ivxlcdm"
  }

  function RomanSpan(s: string): (n: nat)
    ensures n <= |s|
    ensures forall k :: 0 <= k < n ==> IsRomanLetter(s[k])
    ensures n < |s| ==> !IsRomanLetter(s[n])
  {
    if s == [] || !IsRomanLetter(s[0]) then 0 else 1 + RomanSpan(s[1..])
  }

  /** `^([ivxlcdm]+\.)\s+` in any case: roman numeral letters and a dot followed by whitespace; the marker. */
  function RomanMarker(line: string): (r: Option<string>)
    ensures r.Some? ==> |r.value| >= 2 && StartsWith(line, r.value) && r.value[|r.value| - 1] == '.'
  {
    var k := RomanSpan(line);
    if k > 0 && k + 1 < |line| && line[k] == '.' && IsSpace(line[k + 1]) then Some(line[..k + 1]) else None
  }

  /** `^[•\-\*]\s+`: a bullet, a dash or a star followed by whitespace. */
  predicate IsBulletLine(line: string) {
    |line| >= 2 && line[0] in "•-*" && IsSpace(line[1])
  }

  // ---------------------------------------------------------------------------
  // Headings, abbreviations and sentence boundaries
  // ---------------------------------------------------------------------------

  /** `str.isupper` on ASCII: some upper-case letter and no lower-case one. */
  predicate IsUpperText(s: string) {
    (exists k :: 0 <= k < |s| && IsUpper(s[k])) && forall k :: 0 <= k < |s| ==> !IsLower(s[k])
  }

  /** Whether `s` ends with one of `suffixes`. */
  predicate EndsWithAny(s: string, suffixes: seq<string>) {
    exists k :: 0 <= k < |suffixes| && EndsWith(s, suffixes[k])
  }

  /** The number of the words that start with an upper-case letter. */
  function Capitalized(words: seq<string>): (n: nat)
    ensures n <= |words|
  {
    if words == [] then 0
    else Capitalized(words[..|words| - 1]) + (var w := words[|words| - 1]; if w != [] && IsUpper(w[0]) then 1 else 0)
  }

  /**
   * A line that looks like a heading: in capitals and shorter than 100
   * characters, or shorter than 80 characters, starting with a capital,
   * not ending in punctuation, of at most 8 words of which more than half
   * are capitalised.
   */
  predicate LooksLikeHeading(line: string) {
    line != [] &&
    ((IsUpperText(line) && |line| < 100) ||
     (|line| < 80 && IsUpper(line[0]) && !EndsWithAny(line, [".", ",", ";", ":", "!", "?"]) &&
      var words := Words(line);
      |words| <= 8 && 2 * Capitalized(words) > |words|))
  }

  const Abbreviations: seq<string> := ["Mr.", "Mrs.", "Ms.", "Dr.", "Prof.", "Sr.", "Jr.", "Inc.", "Ltd.", "Corp.", "Co.",
                                       "etc.", "e.g.", "i.e.", "vs.", "Fig.", "Tab.", "Eq."]

  /** Whether a line ends with a common abbreviation, whose dot does not end a sentence. */
  predicate IsAbbreviationEnding(line: string) {
    EndsWithAny(line, Abbreviations)
  }

  const Terminators: seq<string> := [".", "!", "?", ":", ";"]

  /** The previous line ends a sentence and the line opens a new one with a capital letter. */
  predicate SentenceBoundary(lastLine: string, line: string) {
    EndsWithAny(lastLine, Terminators) && line != [] && IsUpper(line[0]) && !IsAbbreviationEnding(lastLine)
  }

  /** Whether a line opens a list item: numbered, lettered, roman or bulleted. */
  predicate HasListMarker(line: string) {
    NumberedMarker(line).Some? || LetterMarker(line).Some? || RomanMarker(line).Some? || IsBulletLine(line)
  }

  /** Whether a stripped line starts a new paragraph, given the lines of the paragraph being built. */
  predicate IsParagraphStart(line: string, currentPara: seq<string>) {
    currentPara == [] || HasListMarker(line) || LooksLikeHeading(line)
    || SentenceBoundary(currentPara[|currentPara| - 1], line)
  }

  /** A line after an abbreviation continues the paragraph unless it carries a marker or looks like a heading. */
  lemma AbbreviationContinues(currentPara: seq<string>, line: string)
    requires currentPara != [] && IsAbbreviationEnding(currentPara[|currentPara| - 1])
    requires !HasListMarker(line) && !LooksLikeHeading(line)
    ensures !IsParagraphStart(line, currentPara)
  {
  }

  /** `Dr.` ends with an abbreviation and `Smith.` does not, so only the second can end a sentence. */
  lemma AbbreviationExample()
    ensures !SentenceBoundary("Dr.", "Smith")
    ensures SentenceBoundary("Smith.", "Then")
  {
    assert EndsWith("Dr.", Abbreviations[3]);
    assert EndsWith("Smith.", Terminators[0]);
    forall k | 0 <= k < |Abbreviations| ensures !EndsWith("Smith.", Abbreviations[k]) {
    }
  }

  /** The type of a paragraph and its number, from its first line. */
  function DetectParagraphType(line: string): (r: (ParagraphType, Option<string>))
    ensures r.0 == Numbered <==> NumberedMarker(line).Some? || LetterMarker(line).Some? || RomanMarker(line).Some?
    ensures r.0 == Numbered ==> r.1 == (if NumberedMarker(line).Some? then NumberedMarker(line)
                                      else if LetterMarker(line).Some? then LetterMarker(line)
                                      else RomanMarker(line))
    ensures r.0 == Bullet <==> r.0 != Numbered && IsBulletLine(line)
    ensures r.0 == Heading <==> !HasListMarker(line) && LooksLikeHeading(line)
    ensures r.0 != Numbered ==> r.1 == None
  {
    if NumberedMarker(line).Some? then (Numbered, NumberedMarker(line))
    else if LetterMarker(line).Some? then (Numbered, LetterMarker(line))
    else if RomanMarker(line).Some? then (Numbered, RomanMarker(line))
    else if IsBulletLine(line) then (Bullet, None)
    else if LooksLikeHeading(line) then (Heading, None)
    else (Normal, None)
  }

  /** A line typed other than normal always starts a paragraph. */
  lemma TypedLineStarts(line: string, currentPara: seq<string>)
    requires DetectParagraphType(line).0 != Normal
    ensures IsParagraphStart(line, currentPara)
  {
  }

  // ---------------------------------------------------------------------------
  // Segmentation
  // ---------------------------------------------------------------------------

  /** A paragraph closed by the segmentation: its stripped lines, where it starts and ends, its type and number. */
  datatype Block = Block(lines: seq<string>, start: nat, end: nat, kind: ParagraphType, number: Option<string>)

  /** The state after some lines: the blocks closed so far and the one being built. */
  datatype Segmentation = Segmentation(closed: seq<Block>, current: seq<string>, start: nat,
                                       kind: ParagraphType, number: Option<string>)

  /** The block being built, closed by line `i`. */
  function CloseAt(s: Segmentation, i: nat): Block {
    Block(s.current, s.start, i, s.kind, s.number)
  }

  /** One step of the segmentation: line `i` of the text, `x` once stripped. */
  function Step(s: Segmentation, x: string, i: nat): Segmentation {
    if x == [] then
      if s.current != [] then Segmentation(s.closed + [CloseAt(s, i)], [], s.start, Normal, None) else s
    else if IsParagraphStart(x, s.current) then
      var closed := if s.current != [] then s.closed + [CloseAt(s, i)] else s.closed;
      var typed := DetectParagraphType(x);
      Segmentation(closed, [x], i, typed.0, typed.1)
    else
      Segmentation(s.closed, s.current + [x], s.start, s.kind, s.number)
  }

  /** The segmentation after the first `n` lines, given stripped. */
  function Segment(xs: seq<string>, n: nat): Segmentation
    requires n <= |xs|
  {
    if n == 0 then Segmentation([], [], 0, Normal, None) else Step(Segment(xs, n - 1), xs[n - 1], n - 1)
  }

  /** All blocks of the stripped lines, the last one closed by the end of the text. */
  function Blocks(xs: seq<string>): seq<Block> {
    var s := Segment(xs, |xs|);
    s.closed + (if s.current != [] then [CloseAt(s, |xs|)] else [])
  }

  function ToParagraph(b: Block): Paragraph {
    Paragraph(Join(" ", b.lines), b.kind, b.number, b.start, b.end)
  }

  /** The blocks long enough to report, as paragraphs. */
  function Emitted(blocks: seq<Block>): (r: seq<Paragraph>)
    ensures forall k :: 0 <= k < |r| ==> |r[k].text| >= MinParagraphLength
  {
    if blocks == [] then []
    else
      var b := blocks[|blocks| - 1];
      Emitted(blocks[..|blocks| - 1]) + (if |Join(" ", b.lines)| >= MinParagraphLength then [ToParagraph(b)] else [])
  }

  lemma EmittedSnoc(blocks: seq<Block>, b: Block)
    ensures Emitted(blocks + [b]) == Emitted(blocks) + (if |Join(" ", b.lines)| >= MinParagraphLength then [ToParagraph(b)] else [])
  {
    assert (blocks + [b])[..|blocks|] == blocks;
  }

  function Texts(ps: seq<Paragraph>): (r: seq<string>)
    ensures |r| == |ps| && forall k :: 0 <= k < |ps| ==> r[k] == ps[k].text
  {
    seq(|ps|, k requires 0 <= k < |ps| => ps[k].text)
  }

  /** The lines of a text, each stripped. */
  function StrippedLines(content: string): seq<string> {
    StripAll(Split(content, '\n'))
  }

  /** The paragraphs of a text with their structure; none for a blank text. */
  function StructuredParagraphs(content: string): seq<Paragraph> {
    if Strip(content) == [] then [] else Emitted(Blocks(StrippedLines(content)))
  }

  /** The paragraph texts of a text. */
  function ParagraphTexts(content: string): seq<string> {
    Texts(StructuredParagraphs(content))
  }

  // ---------------------------------------------------------------------------
  // What the segmentation keeps
  // ---------------------------------------------------------------------------

  /** The non-blank stripped lines, in order. */
  function NonBlankLines(xs: seq<string>): (r: seq<string>)
    ensures forall k :: 0 <= k < |r| ==> r[k] != []
  {
    if xs == [] then []
    else
      var x := xs[|xs| - 1];
      NonBlankLines(xs[..|xs| - 1]) + (if x == [] then [] else [x])
  }

  /** The lines of the blocks, one after the other. */
  function Flatten(blocks: seq<Block>): seq<string> {
    if blocks == [] then [] else Flatten(blocks[..|blocks| - 1]) + blocks[|blocks| - 1].lines
  }

  lemma FlattenSnoc(blocks: seq<Block>, b: Block)
    ensures Flatten(blocks + [b]) == Flatten(blocks) + b.lines
  {
    assert (blocks + [b])[..|blocks|] == blocks;
  }

  lemma NonBlankStep(xs: seq<string>, n: nat)
    requires n < |xs|
    ensures NonBlankLines(xs[..n + 1]) == NonBlankLines(xs[..n]) + (if xs[n] == [] then [] else [xs[n]])
  {
    assert xs[..n + 1][..n] == xs[..n];
  }

  /** A closed block: not empty, typed by its first line, within the first `n` lines. */
  predicate WellFormedBlock(b: Block, n: nat) {
    b.lines != [] && b.start < b.end <= n && (b.kind, b.number) == DetectParagraphType(b.lines[0])
  }

  /** Blocks in the order of the text, none overlapping the next. */
  predicate Ordered(blocks: seq<Block>) {
    forall k, j :: 0 <= k < j < |blocks| ==> blocks[k].end <= blocks[j].start
  }

  /** Whether every block ends before line `x`. */
  predicate EndBefore(blocks: seq<Block>, x: nat) {
    forall k :: 0 <= k < |blocks| ==> blocks[k].end <= x
  }

  /**
   * What one step on the stripped line `x` can do: nothing, close the block,
   * start a new one, or extend the one being built.
   */
  predicate Transition(s: Segmentation, t: Segmentation, x: string, i: nat) {
    var closedAt := s.closed + [CloseAt(s, i)];
    (x == [] && s.current == [] && t == s)
    || (x == [] && s.current != [] && t.closed == closedAt && t.current == [])
    || (x != [] && t.closed == (if s.current != [] then closedAt else s.closed) && t.current == [x] && t.start == i)
    || (x != [] && s.current != [] && t.closed == s.closed && t.start == s.start && t.kind == s.kind
        && t.number == s.number && t.current == s.current + [x])
  }

  lemma StepTransition(s: Segmentation, x: string, i: nat)
    ensures Transition(s, Step(s, x, i), x, i)
  {
  }

  /** One step keeps the stripped line `x`, if it is not blank, after the lines kept so far. */
  lemma KeepsStep(s: Segmentation, t: Segmentation, x: string, i: nat)
    requires Transition(s, t, x, i)
    ensures Flatten(t.closed) + t.current == Flatten(s.closed) + s.current + (if x == [] then [] else [x])
  {
    var closedAt := s.closed + [CloseAt(s, i)];
    FlattenSnoc(s.closed, CloseAt(s, i));
    if x == [] && s.current == [] && t == s {
    } else if x == [] && s.current != [] && t.closed == closedAt && t.current == [] {
    } else if x != [] && t.closed == (if s.current != [] then closedAt else s.closed) && t.current == [x] && t.start == i {
    } else {
      assert t.closed == s.closed && t.current == s.current + [x];
    }
  }

  /** What the segmentation of the first `n` lines keeps: their non-blank stripped lines, in order. */
  ghost predicate KeepsLines(xs: seq<string>, n: nat)
    requires n <= |xs|
  {
    var s := Segment(xs, n);
    Flatten(s.closed) + s.current == NonBlankLines(xs[..n])
  }

  lemma KeepsLinesStep(xs: seq<string>, i: nat)
    requires i < |xs| && KeepsLines(xs, i)
    ensures KeepsLines(xs, i + 1)
  {
    StepTransition(Segment(xs, i), xs[i], i);
    KeepsStep(Segment(xs, i), Segment(xs, i + 1), xs[i], i);
    NonBlankStep(xs, i);
  }

  /** The segmentation of the first `n` lines keeps their non-blank stripped lines, in order. */
  lemma SegmentKeepsLines(xs: seq<string>, n: nat)
    requires n <= |xs|
    ensures KeepsLines(xs, n)
  {
    for i := 0 to n
      invariant KeepsLines(xs, i)
    {
      KeepsLinesStep(xs, i);
    }
  }

  /** A block started on the stripped line `x` is typed by it. */
  predicate TypedStart(t: Segmentation, x: string) {
    t.current == [x] ==> (t.kind, t.number) == DetectParagraphType(x)
  }

  lemma StepTypedStart(s: Segmentation, x: string, i: nat)
    ensures TypedStart(Step(s, x, i), x)
  {
  }

  /** The blocks of the first `n` lines, and the one being built, are typed by their first line. */
  ghost predicate Typed(n: nat, s: Segmentation) {
    (forall k :: 0 <= k < |s.closed| ==> WellFormedBlock(s.closed[k], n))
    && (s.current != [] ==> (s.kind, s.number) == DetectParagraphType(s.current[0]) && s.start < n)
  }

  lemma TypedStep(s: Segmentation, t: Segmentation, x: string, i: nat)
    requires Typed(i, s) && Transition(s, t, x, i) && TypedStart(t, x)
    ensures Typed(i + 1, t)
  {
    if s.current != [] && t.closed == s.closed + [CloseAt(s, i)] {
      var c := t.closed;
      assert forall k :: 0 <= k < |c| ==> WellFormedBlock(c[k], i + 1) by {
        forall k | 0 <= k < |c| ensures WellFormedBlock(c[k], i + 1) {
          if k < |s.closed| {
            assert c[k] == s.closed[k];
          }
        }
      }
    }
  }

  lemma SegmentTyped(xs: seq<string>, n: nat)
    requires n <= |xs|
    ensures Typed(n, Segment(xs, n))
  {
    for i := 0 to n
      invariant Typed(i, Segment(xs, i))
    {
      StepTransition(Segment(xs, i), xs[i], i);
      StepTypedStart(Segment(xs, i), xs[i], i);
      TypedStep(Segment(xs, i), Segment(xs, i + 1), xs[i], i);
    }
  }

  /** The blocks of the first `n` lines are in text order, before the one being built. */
  ghost predicate InOrder(n: nat, s: Segmentation) {
    Ordered(s.closed) && EndBefore(s.closed, n)
    && (s.current != [] ==> s.start < n && EndBefore(s.closed, s.start))
  }

  lemma OrderedSnoc(blocks: seq<Block>, b: Block)
    requires Ordered(blocks) && EndBefore(blocks, b.start)
    ensures Ordered(blocks + [b])
  {
    var c := blocks + [b];
    forall k, j | 0 <= k < j < |c| ensures c[k].end <= c[j].start {
      if j == |blocks| {
        assert c[k] == blocks[k];
      } else {
        assert c[k] == blocks[k] && c[j] == blocks[j];
      }
    }
  }

  lemma OrderStep(s: Segmentation, t: Segmentation, x: string, i: nat)
    requires InOrder(i, s) && Transition(s, t, x, i)
    ensures InOrder(i + 1, t)
  {
    if s.current != [] && t.closed == s.closed + [CloseAt(s, i)] {
      OrderedSnoc(s.closed, CloseAt(s, i));
      var c := t.closed;
      assert EndBefore(c, i) by {
        forall k | 0 <= k < |c| ensures c[k].end <= i {
          if k < |s.closed| {
            assert c[k] == s.closed[k];
          }
        }
      }
    }
  }

  lemma SegmentInOrder(xs: seq<string>, n: nat)
    requires n <= |xs|
    ensures InOrder(n, Segment(xs, n))
  {
    for i := 0 to n
      invariant InOrder(i, Segment(xs, i))
    {
      StepTransition(Segment(xs, i), xs[i], i);
      OrderStep(Segment(xs, i), Segment(xs, i + 1), xs[i], i);
    }
  }

  /** A block holds the stripped lines `start` up to `end` of the text. */
  predicate LinesOf(xs: seq<string>, b: Block) {
    b.start <= b.end <= |xs| && b.lines == xs[b.start..b.end]
  }

  /** The blocks of the first `n` lines, and the one being built, hold consecutive lines of the text. */
  ghost predicate Consecutive(xs: seq<string>, n: nat, s: Segmentation)
    requires n <= |xs|
  {
    (forall k :: 0 <= k < |s.closed| ==> LinesOf(xs, s.closed[k]))
    && (s.current != [] ==> s.start <= n && s.current == xs[s.start..n])
  }

  lemma LinesOfSnoc(xs: seq<string>, blocks: seq<Block>, b: Block)
    requires (forall k :: 0 <= k < |blocks| ==> LinesOf(xs, blocks[k])) && LinesOf(xs, b)
    ensures forall k :: 0 <= k < |blocks + [b]| ==> LinesOf(xs, (blocks + [b])[k])
  {
    forall k | 0 <= k < |blocks + [b]| ensures LinesOf(xs, (blocks + [b])[k]) {
      if k < |blocks| {
        assert (blocks + [b])[k] == blocks[k];
      }
    }
  }

  lemma ConsecutiveStep(xs: seq<string>, s: Segmentation, t: Segmentation, i: nat)
    requires i < |xs| && Consecutive(xs, i, s) && Transition(s, t, xs[i], i)
    ensures Consecutive(xs, i + 1, t)
  {
    var x := xs[i];
    var closedAt := s.closed + [CloseAt(s, i)];
    if s.current != [] {
      LinesOfSnoc(xs, s.closed, CloseAt(s, i));
    }
    if x == [] {
    } else if t.closed == (if s.current != [] then closedAt else s.closed) && t.current == [x] && t.start == i {
      assert xs[i..i + 1] == [x];
    } else {
      assert xs[s.start..i + 1] == xs[s.start..i] + [x];
    }
  }

  lemma SegmentConsecutive(xs: seq<string>, n: nat)
    requires n <= |xs|
    ensures Consecutive(xs, n, Segment(xs, n))
  {
    for i := 0 to n
      invariant Consecutive(xs, i, Segment(xs, i))
    {
      StepTransition(Segment(xs, i), xs[i], i);
      ConsecutiveStep(xs, Segment(xs, i), Segment(xs, i + 1), i);
    }
  }

  /** Every block holds consecutive stripped lines of the text. */
  lemma BlocksConsecutive(xs: seq<string>)
    ensures forall k :: 0 <= k < |Blocks(xs)| ==> LinesOf(xs, Blocks(xs)[k])
  {
    var s := Segment(xs, |xs|);
    SegmentConsecutive(xs, |xs|);
    var blocks := Blocks(xs);
    forall k | 0 <= k < |blocks| ensures LinesOf(xs, blocks[k]) {
      if k < |s.closed| {
        assert blocks[k] == s.closed[k];
      }
    }
  }

  /** The blocks hold the non-blank stripped lines of the text, in order: no line is lost or repeated. */
  lemma BlocksKeepLines(xs: seq<string>)
    ensures Flatten(Blocks(xs)) == NonBlankLines(xs)
  {
    var s := Segment(xs, |xs|);
    SegmentKeepsLines(xs, |xs|);
    assert Flatten(s.closed) + s.current == NonBlankLines(xs) by {
      assert xs[..|xs|] == xs;
    }
    if s.current != [] {
      FlattenSnoc(s.closed, CloseAt(s, |xs|));
    } else {
      assert Blocks(xs) == s.closed;
    }
  }

  /** Every block is non-empty, within the text, and typed by its first line. */
  lemma BlocksTyped(xs: seq<string>)
    ensures forall k :: 0 <= k < |Blocks(xs)| ==> WellFormedBlock(Blocks(xs)[k], |xs|)
  {
    var s := Segment(xs, |xs|);
    SegmentTyped(xs, |xs|);
    var blocks := Blocks(xs);
    forall k | 0 <= k < |blocks| ensures WellFormedBlock(blocks[k], |xs|) {
      if k < |s.closed| {
        assert blocks[k] == s.closed[k];
      }
    }
  }

  /** The blocks follow the order of the text without overlapping. */
  lemma BlocksOrdered(xs: seq<string>)
    ensures Ordered(Blocks(xs))
  {
    var s := Segment(xs, |xs|);
    SegmentInOrder(xs, |xs|);
    if s.current != [] {
      OrderedSnoc(s.closed, CloseAt(s, |xs|));
    }
  }

  // ---------------------------------------------------------------------------
  // The paragraphs reported
  // ---------------------------------------------------------------------------

  /** Each reported paragraph is a block long enough to report; `j` is that block. */
  lemma {:induction false} EmittedSource(blocks: seq<Block>, k: nat) returns (j: nat)
    requires k < |Emitted(blocks)|
    ensures j < |blocks| && Emitted(blocks)[k] == ToParagraph(blocks[j])
    ensures |Join(" ", blocks[j].lines)| >= MinParagraphLength
    decreases |blocks|
  {
    var init := blocks[..|blocks| - 1];
    if k < |Emitted(init)| {
      j := EmittedSource(init, k);
      assert blocks[j] == init[j];
    } else {
      j := |blocks| - 1;
    }
  }

  /** Paragraphs in the order of the text, none overlapping the next. */
  predicate InTextOrder(ps: seq<Paragraph>) {
    forall k, j :: 0 <= k < j < |ps| ==> ps[k].endPosition <= ps[j].startPosition
  }

  /** The reported paragraphs keep the order of their blocks. */
  lemma {:induction false} EmittedOrdered(blocks: seq<Block>)
    requires Ordered(blocks)
    ensures InTextOrder(Emitted(blocks))
    decreases |blocks|
  {
    if blocks != [] {
      var init := blocks[..|blocks| - 1];
      var last := blocks[|blocks| - 1];
      EmittedOrdered(init);
      var ps := Emitted(blocks);
      var qs := Emitted(init);
      assert ps == qs + (if |Join(" ", last.lines)| >= MinParagraphLength then [ToParagraph(last)] else []);
      forall k, j | 0 <= k < j < |ps| ensures ps[k].endPosition <= ps[j].startPosition {
        if j < |qs| {
          assert ps[k] == qs[k] && ps[j] == qs[j];
        } else {
          var source := EmittedSource(init, k);
          assert ps[k] == qs[k] && blocks[source] == init[source];
          assert ps[j] == ToParagraph(last);
          assert source < |blocks| - 1 && blocks[source].end <= blocks[|blocks| - 1].start;
        }
      }
    }
  }

  lemma JoinAvoids(sep: string, parts: seq<string>, c: char)
    requires c !in sep && forall k :: 0 <= k < |parts| ==> c !in parts[k]
    ensures c !in Join(sep, parts)
  {
    if |parts| > 1 {
      JoinAvoids(sep, parts[1..], c);
    }
  }

  /** A block of lines none of which holds `c` joins, with spaces, to a text without `c`. */
  lemma BlockAvoids(xs: seq<string>, b: Block, c: char)
    requires LinesOf(xs, b) && c != ' ' && forall m :: 0 <= m < |xs| ==> c !in xs[m]
    ensures c !in Join(" ", b.lines)
  {
    forall m | 0 <= m < |b.lines| ensures c !in b.lines[m] {
      assert b.lines[m] == xs[b.start + m];
    }
    JoinAvoids(" ", b.lines, c);
  }

  /** A reported paragraph of blocks holding consecutive stripped lines joins such lines. */
  lemma EmittedParagraph(xs: seq<string>, blocks: seq<Block>, c: char, k: nat) returns (b: Block)
    requires k < |Emitted(blocks)| && c != ' ' && forall m :: 0 <= m < |xs| ==> c !in xs[m]
    requires forall j :: 0 <= j < |blocks| ==> LinesOf(xs, blocks[j]) && WellFormedBlock(blocks[j], |xs|)
    ensures var p := Emitted(blocks)[k];
      p == ToParagraph(b) && LinesOf(xs, b) && WellFormedBlock(b, |xs|) && c !in p.text
  {
    var j := EmittedSource(blocks, k);
    b := blocks[j];
    BlockAvoids(xs, b, c);
  }

  /** Every paragraph reported for the stripped lines `xs` joins consecutive lines of them, none blank. */
  lemma LinesParagraph(xs: seq<string>, c: char, k: nat) returns (b: Block)
    requires k < |Emitted(Blocks(xs))| && c != ' ' && forall m :: 0 <= m < |xs| ==> c !in xs[m]
    ensures var p := Emitted(Blocks(xs))[k];
      p == ToParagraph(b) && LinesOf(xs, b) && WellFormedBlock(b, |xs|) && c !in p.text
  {
    BlocksConsecutive(xs);
    BlocksTyped(xs);
    b := EmittedParagraph(xs, Blocks(xs), c, k);
  }

  /** No stripped line of a text holds a line break. */
  lemma StrippedLinesUnbroken(content: string)
    ensures forall m :: 0 <= m < |StrippedLines(content)| ==> '\n' !in StrippedLines(content)[m]
  {
    var lines := Split(content, '\n');
    forall m | 0 <= m < |lines| ensures '\n' !in StrippedLines(content)[m] {
      StripAvoids(lines[m], '\n');
    }
  }

  /** Every reported paragraph joins consecutive stripped lines of the text, is long enough and holds no line break. */
  lemma ParagraphStructure(content: string, k: nat) returns (b: Block)
    requires k < |StructuredParagraphs(content)|
    ensures var xs := StrippedLines(content); var p := StructuredParagraphs(content)[k];
      p == ToParagraph(b) && LinesOf(xs, b) && WellFormedBlock(b, |xs|)
      && |p.text| >= MinParagraphLength && '\n' !in p.text
  {
    StrippedLinesUnbroken(content);
    b := LinesParagraph(StrippedLines(content), '\n', k);
  }

  /** The reported paragraphs follow the order of the text. */
  lemma ParagraphsInOrder(content: string)
    ensures InTextOrder(StructuredParagraphs(content))
  {
    if Strip(content) != [] {
      var xs := StrippedLines(content);
      BlocksOrdered(xs);
      EmittedOrdered(Blocks(xs));
      assert StructuredParagraphs(content) == Emitted(Blocks(xs));
    }
  }

  // ---------------------------------------------------------------------------
  // The extraction loops
  // ---------------------------------------------------------------------------

  lemma SegmentStep(xs: seq<string>, i: nat)
    requires i < |xs|
    ensures Segment(xs, i + 1) == Step(Segment(xs, i), xs[i], i)
  {
  }

  lemma TextsSnoc(ps: seq<Paragraph>, p: Paragraph)
    ensures Texts(ps + [p]) == Texts(ps) + [p.text]
  {
  }

  /** Closes the paragraph being built: it is reported when it is long enough. */
  method CloseParagraph(paragraphs: seq<Paragraph>, ghost closed: seq<Block>, b: Block) returns (r: seq<Paragraph>)
    requires paragraphs == Emitted(closed)
    ensures r == Emitted(closed + [b])
  {
    EmittedSnoc(closed, b);
    var paraText := Join(" ", b.lines);
    r := paragraphs;
    if |paraText| >= MinParagraphLength {
      r := r + [Paragraph(paraText, b.kind, b.number, b.start, b.end)];
    }
  }

  /** Closes the paragraph being built, keeping only its text. */
  method CloseText(paragraphs: seq<string>, ghost closed: seq<Block>, currentPara: seq<string>, ghost b: Block)
    returns (r: seq<string>)
    requires paragraphs == Texts(Emitted(closed)) && b.lines == currentPara
    ensures r == Texts(Emitted(closed + [b]))
  {
    EmittedSnoc(closed, b);
    var paraText := Join(" ", currentPara);
    r := paragraphs;
    if |paraText| >= MinParagraphLength {
      TextsSnoc(Emitted(closed), ToParagraph(b));
      r := r + [paraText];
    }
  }

  /** The loop of `ExtractWithStructure` over the lines of a text. */
  method StructureOfLines(lines: seq<string>) returns (paragraphs: seq<Paragraph>)
    ensures paragraphs == Emitted(Blocks(StripAll(lines)))
  {
    ghost var xs := StripAll(lines);
    paragraphs := [];
    var currentPara: seq<string> := [];
    var currentType := Normal;
    var currentNumber: Option<string> := None;
    var startPos: nat := 0;
    ghost var s := Segment(xs, 0);
    for i := 0 to |lines|
      invariant s == Segment(xs, i)
      invariant s == Segmentation(s.closed, currentPara, startPos, currentType, currentNumber)
      invariant paragraphs == Emitted(s.closed)
    {
      SegmentStep(xs, i);
      var lineStripped := Strip(lines[i]);
      if lineStripped == [] {
        if currentPara != [] {
          paragraphs := CloseParagraph(paragraphs, s.closed, Block(currentPara, startPos, i, currentType, currentNumber));
          currentPara, currentType, currentNumber := [], Normal, None;
        }
      } else if IsParagraphStart(lineStripped, currentPara) {
        if currentPara != [] {
          paragraphs := CloseParagraph(paragraphs, s.closed, Block(currentPara, startPos, i, currentType, currentNumber));
        }
        startPos := i;
        var typed := DetectParagraphType(lineStripped);
        currentType, currentNumber := typed.0, typed.1;
        currentPara := [lineStripped];
      } else {
        currentPara := currentPara + [lineStripped];
      }
      s := Segment(xs, i + 1);
    }
    if currentPara != [] {
      paragraphs := CloseParagraph(paragraphs, s.closed, Block(currentPara, startPos, |lines|, currentType, currentNumber));
    } else {
      assert Blocks(xs) == s.closed;
    }
  }

  /** The paragraphs of a text with their type, number and line range. */
  method ExtractWithStructure(content: string) returns (paragraphs: seq<Paragraph>)
    ensures paragraphs == StructuredParagraphs(content)
  {
    if content == [] || Strip(content) == [] {
      return [];
    }
    var lines := Split(content, '\n');
    paragraphs := StructureOfLines(lines);
  }

  /** The loop of `ExtractParagraphs` over the lines of a text. */
  method TextsOfLines(lines: seq<string>) returns (paragraphs: seq<string>)
    ensures paragraphs == Texts(Emitted(Blocks(StripAll(lines))))
  {
    ghost var xs := StripAll(lines);
    paragraphs := [];
    var currentPara: seq<string> := [];
    ghost var s := Segment(xs, 0);
    for i := 0 to |lines|
      invariant s == Segment(xs, i) && currentPara == s.current
      invariant paragraphs == Texts(Emitted(s.closed))
    {
      SegmentStep(xs, i);
      var lineStripped := Strip(lines[i]);
      if lineStripped == [] {
        if currentPara != [] {
          paragraphs := CloseText(paragraphs, s.closed, currentPara, CloseAt(s, i));
          currentPara := [];
        }
      } else if IsParagraphStart(lineStripped, currentPara) {
        if currentPara != [] {
          paragraphs := CloseText(paragraphs, s.closed, currentPara, CloseAt(s, i));
        }
        currentPara := [lineStripped];
      } else {
        currentPara := currentPara + [lineStripped];
      }
      s := Segment(xs, i + 1);
    }
    if currentPara != [] {
      paragraphs := CloseText(paragraphs, s.closed, currentPara, CloseAt(s, |lines|));
    } else {
      assert Blocks(xs) == s.closed;
    }
  }

  /** The paragraph texts of a text. */
  method ExtractParagraphs(content: string) returns (paragraphs: seq<string>)
    ensures paragraphs == ParagraphTexts(content)
  {
    if content == [] || Strip(content) == [] {
      return [];
    }
    var lines := Split(content, '\n');
    paragraphs := TextsOfLines(lines);
  }

  // ---------------------------------------------------------------------------
  // Merging paragraphs split by page or column breaks
  // ---------------------------------------------------------------------------

  /**
   * Two paragraphs are merged when neither is empty, the first does not end
   * a sentence and the second does not open a numbered, lettered or bulleted
   * item. Roman numerals are not looked for here.
   */
  predicate ShouldMerge(para1: string, para2: string) {
    para1 != [] && para2 != [] && !EndsWithAny(RStrip(para1), Terminators)
    && !(NumberedMarker(para2).Some? || LetterMarker(para2).Some? || IsBulletLine(para2))
  }

  /** Trailing whitespace on a non-empty first paragraph never changes the decision: the test reads `para1.rstrip()`. */
  lemma ShouldMergeIgnoresTrailingSpace(para1: string, para2: string, c: char)
    requires para1 != [] && IsSpace(c)
    ensures ShouldMerge(para1 + [c], para2) == ShouldMerge(para1, para2)
  {
  }

  /** A second paragraph opening with a capital letter is still merged: only list markers keep it apart. */
  lemma CapitalisedContinuationIsMerged()
    ensures ShouldMerge("see clause", "The scope")
  {
  }

  /** An item numbered with a roman numeral starts a paragraph ... */
  lemma RomanItemStarts()
    ensures IsParagraphStart("ii. Scope", ["see clause"])
  {
    assert RomanSpan(". Scope") == 0;
    assert RomanSpan("i. Scope") == 1 by {
      assert "i. Scope"[1..] == ". Scope";
    }
    assert RomanSpan("ii. Scope") == 2 by {
      assert "ii. Scope"[1..] == "i. Scope";
    }
    assert "ii. Scope"[..3] == "ii.";
    assert RomanMarker("ii. Scope") == Some("ii.");
    assert HasListMarker("ii. Scope");
  }

  /** ... yet is merged into an unfinished paragraph. */
  lemma RomanItemIsMerged()
    ensures ShouldMerge("see clause", "ii. Scope")
  {
    assert DigitSpan("ii. Scope") == 0;
    assert RStrip("see clause") == "see clause";
    forall k | 0 <= k < |Terminators| ensures !EndsWith("see clause", Terminators[k]) {
    }
  }

  /** The paragraphs merged so far and the one being extended, after the first `n` paragraphs. */
  function MergeFrom(ps: seq<string>, n: nat): (seq<string>, string)
    requires 1 <= n <= |ps|
  {
    if n == 1 then ([], ps[0])
    else
      var (merged, current) := MergeFrom(ps, n - 1);
      if ShouldMerge(current, ps[n - 1]) then (merged, current + " " + ps[n - 1])
      else (merged + [current], ps[n - 1])
  }

  /** The paragraphs after merging: fewer than two are returned as they are. */
  function Merged(ps: seq<string>): seq<string> {
    if |ps| < 2 then ps else MergeFrom(ps, |ps|).0 + [MergeFrom(ps, |ps|).1]
  }

  lemma JoinSnoc(sep: string, a: seq<string>, x: string)
    requires a != []
    ensures Join(sep, a + [x]) == Join(sep, a) + sep + x
  {
    JoinAppend(sep, a, [x]);
  }

  lemma JoinExtendLast(sep: string, a: seq<string>, c: string, x: string)
    ensures Join(sep, a + [c + sep + x]) == Join(sep, a + [c]) + sep + x
  {
    if a != [] {
      JoinSnoc(sep, a, c);
      JoinSnoc(sep, a, c + sep + x);
    }
  }

  /** After the first `n` paragraphs, the merged ones and the one being extended join to the same text, and are fewer. */
  predicate KeepsText(ps: seq<string>, n: nat)
    requires 1 <= n <= |ps|
  {
    var r := MergeFrom(ps, n);
    Join(" ", r.0 + [r.1]) == Join(" ", ps[..n]) && |r.0| < n
  }

  lemma MergeStep(ps: seq<string>, n: nat)
    requires 1 <= n < |ps| && KeepsText(ps, n)
    ensures KeepsText(ps, n + 1)
  {
    var (merged, current) := MergeFrom(ps, n);
    var x := ps[n];
    assert ps[..n + 1] == ps[..n] + [x];
    JoinSnoc(" ", ps[..n], x);
    if ShouldMerge(current, x) {
      JoinExtendLast(" ", merged, current, x);
    } else {
      JoinSnoc(" ", merged + [current], x);
    }
  }

  /** Merging joins neighbours with a space: the text, joined by spaces, is unchanged, and no paragraph is added. */
  lemma MergedKeepsText(ps: seq<string>)
    ensures Join(" ", Merged(ps)) == Join(" ", ps)
    ensures |Merged(ps)| <= |ps|
    ensures |ps| >= 2 ==> Merged(ps) != []
  {
    if |ps| >= 2 {
      assert ps[..1] == [ps[0]];
      for n := 1 to |ps|
        invariant KeepsText(ps, n)
      {
        MergeStep(ps, n);
      }
      assert ps[..|ps|] == ps;
    }
  }

  /** When no neighbours should be merged, the paragraphs are returned unchanged. */
  lemma NothingToMerge(ps: seq<string>)
    requires forall k :: 0 <= k < |ps| - 1 ==> !ShouldMerge(ps[k], ps[k + 1])
    ensures Merged(ps) == ps
  {
    if |ps| >= 2 {
      for n := 1 to |ps|
        invariant MergeFrom(ps, n) == (ps[..n - 1], ps[n - 1])
      {
        assert ps[..n] == ps[..n - 1] + [ps[n - 1]];
      }
      assert ps[..|ps| - 1] + [ps[|ps| - 1]] == ps;
    }
  }

  /** Merges paragraphs split by page or column breaks, neighbour by neighbour. */
  method MergeSplitParagraphs(paragraphs: seq<string>) returns (merged: seq<string>)
    ensures merged == Merged(paragraphs)
  {
    if |paragraphs| == 0 || |paragraphs| < 2 {
      return paragraphs;
    }
    merged := [];
    var current := paragraphs[0];
    for i := 1 to |paragraphs|
      invariant MergeFrom(paragraphs, i) == (merged, current)
    {
      var nextPara := paragraphs[i];
      if ShouldMerge(current, nextPara) {
        current := current + " " + nextPara;
      } else {
        merged := merged + [current];
        current := nextPara;
      }
    }
    merged := merged + [current];
  }
}
