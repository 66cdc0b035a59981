/**
 * The heading-navigation comparator: recognising page numbers and running
 * headers or footers, filtering heading candidates and estimating their
 * level, pairing the headings of two documents into numbered matches and
 * listing those matches for a dropdown.
 */
module PdfCompareOptimized {
  import opened Wrappers
  import opened TextUtil
  import opened Counting
  import opened Indices

  /** A heading found in a document. */
  datatype HeadingInfo = HeadingInfo(level: int, title: string, pageNumber: int, startLine: int, identifier: string)

  // ---------------------------------------------------------------------------
  // Page numbers
  // ---------------------------------------------------------------------------

  /** The text a pattern ending in `$` must match in full: `$` also matches before one final newline. */
  function Anchored(line: string): (r: string)
    ensures r == line || line == r + "\n"
  {
    if line != [] && line[|line| - 1] == '\n' then line[..|line| - 1] else line
  }

  /** `\d+` on the whole string. */
  predicate DigitRun(s: string) {
    s != [] && AllDigits(s)
  }

  predicate AllSpaces(s: string) {
    forall k :: 0 <= k < |s| ==> IsSpace(s[k])
  }

  /** `Page\s+\d+` on the whole string, the word `Page` in any case. */
  predicate PageLabel(s: string) {
    |s| >= 4 && Lower(s[..4]) == "page" &&
    var t := s[4..];
    var k := SpaceSpan(t);
    k > 0 && DigitRun(t[k..])
  }

  /** `\s*\d+` on the whole string. */
  predicate SpacedDigits(u: string) {
    DigitRun(u[SpaceSpan(u)..])
  }

  /** `\s*\/\s*\d+` on the whole string. */
  predicate SlashDigits(t: string) {
    var j := SpaceSpan(t);
    j < |t| && t[j] == '/' && SpacedDigits(t[j + 1..])
  }

  /** `\d+\s*\/\s*\d+` on the whole string. */
  predicate Fraction(s: string) {
    var i := DigitSpan(s);
    i > 0 && SlashDigits(s[i..])
  }

  /** A line that is just a page number: `5`, `Page 5` or `5 / 250`. */
  predicate IsPageNumber(line: string) {
    var b := Anchored(line);
    DigitRun(b) || PageLabel(b) || Fraction(b)
  }

  /** Every `Page` label is recognised, whatever the case of the word and the spacing. */
  lemma PageLabelOf(word: string, spaces: string, digits: string)
    requires |word| == 4 && Lower(word) == "page"
    requires spaces != [] && AllSpaces(spaces) && DigitRun(digits)
    ensures PageLabel(word + spaces + digits)
  {
    var s := word + spaces + digits;
    assert s[..4] == word;
    assert s[4..] == spaces + digits;
    SpaceSpanOfRun(spaces, digits);
    assert (spaces + digits)[|spaces|..] == digits;
  }

  /** A recognised `Page` label splits into the word, a run of spaces and a run of digits. */
  lemma PageLabelParts(s: string) returns (spaces: string, digits: string)
    requires PageLabel(s)
    ensures s == s[..4] + spaces + digits && Lower(s[..4]) == "page"
    ensures spaces != [] && AllSpaces(spaces) && DigitRun(digits)
  {
    var t := s[4..];
    var k := SpaceSpan(t);
    spaces, digits := t[..k], t[k..];
    assert t == spaces + digits;
  }

  lemma DropPrefix(a: string, b: string)
    ensures (a + b)[|a|..] == b
  {
  }

  lemma SpacedDigitsOf(sp: string, d: string)
    requires AllSpaces(sp) && DigitRun(d)
    ensures SpacedDigits(sp + d)
  {
    SpaceSpanOfRun(sp, d);
    DropPrefix(sp, d);
  }

  lemma SlashDigitsOf(sp1: string, u: string)
    requires AllSpaces(sp1) && SpacedDigits(u)
    ensures SlashDigits(sp1 + "/" + u)
  {
    var after := "/" + u;
    assert sp1 + "/" + u == sp1 + after;
    SpaceSpanOfRun(sp1, after);
    DropPrefix(sp1, after);
    DropPrefix("/", u);
  }

  /** Every fraction of two digit runs is recognised, with or without spaces around the slash. */
  lemma FractionOf(a: string, sp1: string, sp2: string, d: string)
    requires DigitRun(a) && AllSpaces(sp1) && AllSpaces(sp2) && DigitRun(d)
    ensures Fraction(a + sp1 + "/" + sp2 + d)
  {
    SpacedDigitsOf(sp2, d);
    SlashDigitsOf(sp1, sp2 + d);
    var rest := sp1 + "/" + (sp2 + d);
    assert rest[0] == if sp1 == [] then '/' else sp1[0];
    DigitSpanOfRun(a, rest);
    Regroup(a, sp1, "/", sp2, d);
    DropPrefix(a, rest);
  }

  lemma SplitAt(s: string, i: nat)
    requires i <= |s|
    ensures s == s[..i] + s[i..]
  {
  }

  lemma SpacedDigitsParts(u: string) returns (sp: string, d: string)
    requires SpacedDigits(u)
    ensures u == sp + d && AllSpaces(sp) && DigitRun(d)
  {
    var k := SpaceSpan(u);
    sp, d := u[..k], u[k..];
    SplitAt(u, k);
  }

  lemma SlashDigitsParts(t: string) returns (sp: string, u: string)
    requires SlashDigits(t)
    ensures t == sp + "/" + u && AllSpaces(sp) && SpacedDigits(u)
  {
    var j := SpaceSpan(t);
    sp, u := t[..j], t[j + 1..];
    SplitAround(t, j);
  }

  lemma SplitAround(s: string, i: nat)
    requires i < |s|
    ensures s == s[..i] + [s[i]] + s[i + 1..]
  {
  }

  /** A recognised fraction splits into digits, spaces, a slash, spaces and digits. */
  lemma FractionParts(s: string) returns (a: string, sp1: string, sp2: string, d: string)
    requires Fraction(s)
    ensures s == a + sp1 + "/" + sp2 + d
    ensures DigitRun(a) && AllSpaces(sp1) && AllSpaces(sp2) && DigitRun(d)
  {
    var i := DigitSpan(s);
    a := s[..i];
    SplitAt(s, i);
    var u;
    sp1, u := SlashDigitsParts(s[i..]);
    sp2, d := SpacedDigitsParts(u);
    Regroup(a, sp1, "/", sp2, d);
  }

  lemma Regroup(a: string, b: string, c: string, d: string, e: string)
    ensures a + (b + c + (d + e)) == a + b + c + d + e
  {
  }

  // ---------------------------------------------------------------------------
  // Running headers and footers
  // ---------------------------------------------------------------------------

  /** `lines[:3]` */
  function Head(lines: seq<string>): seq<string> {
    if |lines| <= 3 then lines else lines[..3]
  }

  /** `lines[-3:]` */
  function Tail(lines: seq<string>): seq<string> {
    if |lines| <= 3 then lines else lines[|lines| - 3..]
  }

  /** The stripped lines longer than 3 characters, in order. */
  function Kept(lines: seq<string>): seq<string> {
    if lines == [] then []
    else
      var c := Strip(lines[|lines| - 1]);
      Kept(lines[..|lines| - 1]) + (if |c| > 3 then [c] else [])
  }

  lemma KeptSnoc(lines: seq<string>, i: nat)
    requires i < |lines|
    ensures Kept(lines[..i + 1]) == Kept(lines[..i]) + (if |Strip(lines[i])| > 3 then [Strip(lines[i])] else [])
  {
    assert lines[..i + 1][..i] == lines[..i];
  }

  /** The lines one page contributes to the count: its first three, then its last three. */
  function PageCandidates(lines: seq<string>): seq<string> {
    Kept(Head(lines)) + Kept(Tail(lines))
  }

  /** The contributions of all pages, page after page. */
  function Candidates(pages: seq<seq<string>>): seq<string> {
    if pages == [] then [] else Candidates(pages[..|pages| - 1]) + PageCandidates(pages[|pages| - 1])
  }

  lemma CandidatesSnoc(pages: seq<seq<string>>, p: nat)
    requires p < |pages|
    ensures Candidates(pages[..p + 1]) == Candidates(pages[..p]) + Kept(Head(pages[p])) + Kept(Tail(pages[p]))
  {
    assert pages[..p + 1][..p] == pages[..p];
  }

  /** `max(2, pages * 0.5)`: the count a header or footer needs. */
  function Threshold(numPages: nat): (t: real)
    ensures t >= 2.0 && t >= numPages as real * 0.5
    ensures t == 2.0 || t == numPages as real * 0.5
  {
    if numPages as real * 0.5 > 2.0 then numPages as real * 0.5 else 2.0
  }

  /** The lines whose count reaches the threshold. */
  function HeadersFooters(pages: seq<seq<string>>): set<string> {
    var c := Candidates(pages);
    set l | l in c && Occurrences(c, l) as real >= Threshold(|pages|)
  }

  /** A line is reported iff it is counted at least twice and at least once per two pages. */
  lemma HeadersFootersIff(pages: seq<seq<string>>, l: string)
    ensures var n := Occurrences(Candidates(pages), l);
            l in HeadersFooters(pages) <==> n >= 2 && 2 * n >= |pages|
  {
    var c := Candidates(pages);
    OccurrencesPositive(c, l);
  }

  /** Counts one line list into `freq`, as each of the two inner loops of the detector does. */
  method CountKept(freq0: map<string, nat>, lines: seq<string>, ghost before: seq<string>)
    returns (freq: map<string, nat>)
    requires CountsOf(freq0, before)
    ensures CountsOf(freq, before + Kept(lines))
  {
    freq := freq0;
    ghost var seen := before;
    assert before + Kept(lines[..0]) == before;
    for i := 0 to |lines|
      invariant seen == before + Kept(lines[..i])
      invariant CountsOf(freq, seen)
    {
      var line := lines[i];
      freq := CountLine(freq, line, seen);
      SeenStep(before, lines, i);
      seen := seen + Extra(line);
    }
    assert lines[..|lines|] == lines;
  }

  /** What one line adds to the count: itself stripped, when longer than 3 characters. */
  function Extra(line: string): seq<string> {
    if |Strip(line)| > 3 then [Strip(line)] else []
  }

  lemma SeenStep(before: seq<string>, lines: seq<string>, i: nat)
    requires i < |lines|
    ensures before + Kept(lines[..i + 1]) == before + Kept(lines[..i]) + Extra(lines[i])
  {
    KeptSnoc(lines, i);
  }

  /** One step of the inner loops: a stripped line longer than 3 characters is counted. */
  method CountLine(freq0: map<string, nat>, line: string, ghost before: seq<string>) returns (freq: map<string, nat>)
    requires CountsOf(freq0, before)
    ensures CountsOf(freq, before + Extra(line))
  {
    freq := freq0;
    var clean := Strip(line);
    if clean != [] && |clean| > 3 {
      CountsSnoc(freq, before, clean);
      freq := freq[clean := (if clean in freq then freq[clean] else 0) + 1];
    } else {
      assert before + [] == before;
    }
  }

  /** Keeping the entries of a count map that reach `t` keeps the elements counted at least `t` times. */
  lemma CountsAtLeast(freq: map<string, nat>, c: seq<string>, t: real)
    requires CountsOf(freq, c)
    ensures (set l | l in freq && freq[l] as real >= t) == (set l | l in c && Occurrences(c, l) as real >= t)
  {
  }

  /**
   * The lines seen among the first and last three lines of the pages (one
   * line list per page) often enough to be taken for a running header or
   * footer.
   */
  method DetectHeadersFooters(pages: seq<seq<string>>) returns (r: set<string>)
    ensures r == HeadersFooters(pages)
  {
    var freq: map<string, nat> := map[];
    for p := 0 to |pages|
      invariant CountsOf(freq, Candidates(pages[..p]))
    {
      CandidatesSnoc(pages, p);
      freq := CountKept(freq, Head(pages[p]), Candidates(pages[..p]));
      freq := CountKept(freq, Tail(pages[p]), Candidates(pages[..p]) + Kept(Head(pages[p])));
    }
    assert pages[..|pages|] == pages;
    var threshold := Threshold(|pages|);
    r := set l | l in freq && freq[l] as real >= threshold;
    CountsAtLeast(freq, Candidates(pages), threshold);
  }

  /**
   * A page of one line counts that line twice, once as a header and once as
   * a footer, so a document of a single page takes its own line for a
   * running header.
   */
  lemma OnePageCountsItsLineTwice()
    ensures Candidates([["Confidential"]]) == ["Confidential", "Confidential"]
    ensures "Confidential" in HeadersFooters([["Confidential"]])
  {
    var pages := [["Confidential"]];
    assert pages[..0] == [];
    assert Strip("Confidential") == "Confidential" by {
      assert RStrip("Confidential") == "Confidential" by {
        assert !IsSpace('l');
      }
      assert !IsSpace('C');
    }
    assert Kept(["Confidential"]) == ["Confidential"] by {
      assert ["Confidential"][..0] == [];
    }
    var c := Candidates(pages);
    assert c == ["Confidential", "Confidential"];
    assert c[..1] == ["Confidential"];
    assert c[..1][..0] == [];
    assert Occurrences(c, "Confidential") == 2;
  }

  /** The number of the lists that contain `l`. */
  function ListsWith(lists: seq<seq<string>>, l: string): (n: nat)
    ensures n <= |lists|
  {
    if lists == [] then 0 else ListsWith(lists[..|lists| - 1], l) + (if l in lists[|lists| - 1] then 1 else 0)
  }

  /** The candidate lines of each page. */
  function PerPage(pages: seq<seq<string>>): (r: seq<seq<string>>)
    ensures |r| == |pages| && forall i :: 0 <= i < |pages| ==> r[i] == PageCandidates(pages[i])
  {
    seq(|pages|, i requires 0 <= i < |pages| => PageCandidates(pages[i]))
  }

  /** The number of pages among whose first or last three lines `l` occurs. */
  function PagesWith(pages: seq<seq<string>>, l: string): (n: nat)
    ensures n <= |pages|
  {
    ListsWith(PerPage(pages), l)
  }

  /** The detector counting pages rather than line positions. */
  function HeadersFootersByPage(pages: seq<seq<string>>): set<string> {
    set l | l in Candidates(pages) && PagesWith(pages, l) as real >= Threshold(|pages|)
  }

  /** A list counted for a line contains it. */
  lemma {:induction false} ListsWithOne(lists: seq<seq<string>>, l: string) returns (i: nat)
    requires ListsWith(lists, l) >= 1
    ensures i < |lists| && l in lists[i]
  {
    var n := |lists| - 1;
    if l in lists[n] {
      i := n;
    } else {
      i := ListsWithOne(lists[..n], l);
    }
  }

  /** Two lists counted for a line are two different lists containing it. */
  lemma {:induction false} ListsWithTwo(lists: seq<seq<string>>, l: string) returns (i: nat, j: nat)
    requires ListsWith(lists, l) >= 2
    ensures i < j < |lists| && l in lists[i] && l in lists[j]
  {
    var n := |lists| - 1;
    if l in lists[n] {
      i := ListsWithOne(lists[..n], l);
      j := n;
    } else {
      i, j := ListsWithTwo(lists[..n], l);
    }
  }

  /** Counting pages, every reported line sits at the top or the bottom of two different pages. */
  lemma ByPageNeedsTwoPages(pages: seq<seq<string>>, l: string) returns (i: nat, j: nat)
    requires l in HeadersFootersByPage(pages)
    ensures i < j < |pages| && l in PageCandidates(pages[i]) && l in PageCandidates(pages[j])
    ensures 2 * PagesWith(pages, l) >= |pages|
  {
    i, j := ListsWithTwo(PerPage(pages), l);
  }

  /** Counting pages, a single page reports nothing. */
  lemma ByPageOnePage(lines: seq<string>)
    ensures HeadersFootersByPage([lines]) == {}
  {
    assert [lines][..0] == [];
  }

  // ---------------------------------------------------------------------------
  // Heading candidates
  // ---------------------------------------------------------------------------

  /** The heading patterns, tried in this order. */
  datatype PatternKind = Numbered | Caps | TitleCase | Colon

  const HeadingPatterns: seq<PatternKind> := [Numbered, Caps, TitleCase, Colon]

  /** What a pattern captured on a line: the section number (numbered pattern only) and the title. */
  datatype Capture = Capture(number: string, title: string)

  /** What each pattern's regular expression captured on a line, None where it did not match. */
  datatype Captures = Captures(numbered: Option<Capture>, caps: Option<Capture>, titleCase: Option<Capture>,
                               colon: Option<Capture>)
  {
    /** The captures in the order the patterns are tried. */
    function InOrder(): (r: seq<Option<Capture>>)
      ensures |r| == |HeadingPatterns|
    {
      [numbered, caps, titleCase, colon]
    }
  }

  /** The level a heading of the given pattern gets from the length of its line. */
  function EstimateLevel(line: string, kind: PatternKind): (level: int)
    ensures 1 <= level <= 3
    ensures level == 1 <==> kind == Caps && |line| < 30
    ensures kind == Colon ==> level == 2
    ensures kind == Numbered ==> level == 3
  {
    match kind
    case Caps => if |line| < 30 then 1 else 2
    case TitleCase => if |line| < 40 then 2 else 3
    case Colon => 2
    case Numbered => 3
  }

  /** A longer line of the same pattern never gets a higher level (a smaller number). */
  lemma EstimateLevelMonotone(short: string, long: string, kind: PatternKind)
    requires |short| <= |long|
    ensures EstimateLevel(short, kind) <= EstimateLevel(long, kind)
  {
  }

  const CommonWords: seq<string> := ["the", "and", "or", "is", "are", "was", "were", "in", "on", "at"]

  /** The number of the words of `words` that are common words. */
  function CommonCount(words: seq<string>): (n: nat)
    ensures n <= |words|
  {
    if words == [] then 0
    else CommonCount(words[..|words| - 1]) + (if words[|words| - 1] in CommonWords then 1 else 0)
  }

  /** Long lines, and lines of more than 10 words with more than 3 common ones, are content. */
  predicate LooksLikeContent(line: string) {
    |line| > 150 || (|Words(line)| > 10 && CommonCount(Words(Lower(line))) > 3)
  }

  /** A capture whose stripped title has between 3 and 120 characters. */
  predicate Acceptable(c: Option<Capture>) {
    c.Some? && 3 <= |Strip(c.value.title)| <= 120
  }

  /** The position, from `from` on, of the first acceptable capture, or -1. */
  function FirstAcceptable(cs: seq<Option<Capture>>, from: nat): (k: int)
    requires from <= |cs|
    ensures k == -1 || from <= k < |cs|
    ensures k == -1 <==> forall i :: from <= i < |cs| ==> !Acceptable(cs[i])
    ensures k >= 0 ==> Acceptable(cs[k]) && forall i :: from <= i < k ==> !Acceptable(cs[i])
    decreases |cs| - from
  {
    if from == |cs| then -1
    else if Acceptable(cs[from]) then from
    else FirstAcceptable(cs, from + 1)
  }

  /** The level of a numbered heading: one more than the dots in its number. */
  function NumberedLevel(number: string): (level: nat)
    ensures level >= 1
  {
    Occurrences(number, '.') + 1
  }

  /** A line read as a heading, given what each heading pattern captured on it. */
  function IdentifyHeading(line: string, pageNum: int, lineNum: int, captures: Captures): (r: Option<HeadingInfo>)
    ensures var cs := captures.InOrder();
            r.None? <==> LooksLikeContent(line) || forall i :: 0 <= i < |cs| ==> !Acceptable(cs[i])
    ensures r.Some? ==> 3 <= |r.value.title| <= 120 && 1 <= r.value.level
    ensures r.Some? ==> r.value.pageNumber == pageNum && r.value.startLine == lineNum && r.value.identifier == ""
    ensures var cs := captures.InOrder();
            var k := FirstAcceptable(cs, 0);
            r.Some? ==> k >= 0 && r.value.title == Strip(cs[k].value.title)
                        && r.value.level == (if HeadingPatterns[k] == Numbered then NumberedLevel(cs[k].value.number)
                                             else EstimateLevel(line, HeadingPatterns[k]))
  {
    if LooksLikeContent(line) then None
    else
      var cs := captures.InOrder();
      var k := FirstAcceptable(cs, 0);
      if k == -1 then None
      else
        var kind := HeadingPatterns[k];
        var c := cs[k].value;
        var level := if kind == Numbered then NumberedLevel(c.number) else EstimateLevel(line, kind);
        Some(HeadingInfo(level, Strip(c.title), pageNum, lineNum, ""))
  }

  /** Whether a line is the given heading, possibly broken over several lines. */
  predicate IsHeadingLine(line: string, heading: Option<HeadingInfo>) {
    heading.Some? && (line == heading.value.title || Contains(line, heading.value.title) || Contains(heading.value.title, line))
  }

  lemma ContainsSelf(s: string)
    ensures Contains(s, s)
  {
    assert s[..|s|] == s;
  }

  lemma ContainsEmpty(s: string)
    ensures Contains(s, "")
  {
  }

  /**
   * The test is symmetric in the line and the title, holds for the title
   * itself and, since the empty string is inside every string, for an
   * empty line.
   */
  lemma IsHeadingLineProperties(line: string, h: HeadingInfo)
    ensures IsHeadingLine(line, Some(h)) == IsHeadingLine(h.title, Some(h.(title := line)))
    ensures IsHeadingLine(h.title, Some(h))
    ensures IsHeadingLine("", Some(h))
    ensures !IsHeadingLine(line, None)
  {
    ContainsEmpty(h.title);
  }

  // ---------------------------------------------------------------------------
  // Walking the heading list
  // ---------------------------------------------------------------------------

  /** `xs.index(x)`: the first position holding `x`. */
  function FirstIndex<T(==)>(xs: seq<T>, x: T): (i: nat)
    requires x in xs
    ensures i < |xs| && xs[i] == x
    ensures forall k :: 0 <= k < i ==> xs[k] != x
  {
    if xs[0] == x then 0 else 1 + FirstIndex(xs[1..], x)
  }

  /** The heading after the first occurrence of `current`, if any. */
  function GetNextHeading(current: HeadingInfo, headings: seq<HeadingInfo>): (r: Option<HeadingInfo>)
    ensures r.Some? <==> current in headings && FirstIndex(headings, current) + 1 < |headings|
    ensures r.Some? ==> r.value == headings[FirstIndex(headings, current) + 1]
  {
    if current !in headings then None
    else
      var i := FirstIndex(headings, current);
      if i + 1 < |headings| then Some(headings[i + 1]) else None
  }

  /** Over distinct headings the lookup walks the list: each heading's successor, and none after the last. */
  lemma NextHeadingWalks(headings: seq<HeadingInfo>, i: nat)
    requires Distinct(headings) && i < |headings|
    ensures i + 1 < |headings| ==> GetNextHeading(headings[i], headings) == Some(headings[i + 1])
    ensures i + 1 == |headings| ==> GetNextHeading(headings[i], headings) == None
  {
    var j := FirstIndex(headings, headings[i]);
  }

  // ---------------------------------------------------------------------------
  // Matching the headings of two documents
  // ---------------------------------------------------------------------------

  datatype MatchStatus = Matched | Removed | Added

  /** One entry of the match dictionary. */
  datatype HeadingMatch = HeadingMatch(original: Option<HeadingInfo>, modified: Option<HeadingInfo>,
                                       matchScore: real, status: MatchStatus)

  /** Accepting a candidate needs a title score above this. */
  const MatchThreshold: real := 60.0

  /** A match holds the headings its status says, and a score only when matched. */
  predicate WellFormed(m: HeadingMatch) {
    match m.status
    case Matched => m.original.Some? && m.modified.Some? && m.matchScore > MatchThreshold
    case Removed => m.original.Some? && m.modified.None? && m.matchScore == 0.0
    case Added => m.original.None? && m.modified.Some? && m.matchScore == 0.0
  }

  /** The key of the match added when `k` matches are already present: `match_k`. */
  function MatchId(k: nat): string {
    "match_" + NatToString(k)
  }

  /** Different positions get different keys, so no match overwrites another. */
  lemma MatchIdInjective(a: nat, b: nat)
    requires MatchId(a) == MatchId(b)
    ensures a == b
  {
    var p := "match_";
    assert NatToString(a) == MatchId(a)[|p|..];
    assert NatToString(b) == MatchId(b)[|p|..];
    NatToStringInjective(a, b);
  }

  /**
   * The decision for one original heading given the modified positions
   * already used: the first unused modified heading of highest title score,
   * when that score is above 60; `-1` when no unused one scores above 60.
   */
  predicate HeadingChosen(o: HeadingInfo, mods: seq<HeadingInfo>, used: set<int>, choice: int,
                          score: (string, string) -> real) {
    if choice == -1 then
      forall j :: 0 <= j < |mods| && j !in used ==> score(o.title, mods[j].title) <= MatchThreshold
    else
      0 <= choice < |mods| && choice !in used && score(o.title, mods[choice].title) > MatchThreshold
      && (forall j :: 0 <= j < |mods| && j !in used ==> score(o.title, mods[j].title) <= score(o.title, mods[choice].title))
      && (forall j :: 0 <= j < choice && j !in used ==> score(o.title, mods[j].title) < score(o.title, mods[choice].title))
  }

  /** The scan of the unused modified headings for the first best one scoring above 60. */
  method BestHeading(o: HeadingInfo, mods: seq<HeadingInfo>, used: set<int>, score: (string, string) -> real)
    returns (best: int, bestScore: real)
    ensures HeadingChosen(o, mods, used, best, score)
    ensures best != -1 ==> bestScore == score(o.title, mods[best].title)
  {
    best, bestScore := -1, 0.0;
    for j := 0 to |mods|
      invariant best == -1 ==> (bestScore == 0.0 &&
        forall j' :: 0 <= j' < j && j' !in used ==> score(o.title, mods[j'].title) <= MatchThreshold)
      invariant best != -1 ==> (0 <= best < j && best !in used
        && bestScore == score(o.title, mods[best].title) && bestScore > MatchThreshold
        && (forall j' :: 0 <= j' < j && j' !in used ==> score(o.title, mods[j'].title) <= bestScore)
        && (forall j' :: 0 <= j' < best && j' !in used ==> score(o.title, mods[j'].title) < bestScore))
    {
      if j in used {
        continue;
      }
      var sc := score(o.title, mods[j].title);
      if sc > bestScore && sc > MatchThreshold {
        best, bestScore := j, sc;
      }
    }
  }

  /**
   * The positions marked used after the decisions `pairing`: for each
   * heading taken, the first position holding an equal heading.
   */
  function Marks(mods: seq<HeadingInfo>, pairing: seq<int>): (r: set<int>)
    ensures forall j :: j in r ==> 0 <= j < |mods|
  {
    set i | 0 <= i < |pairing| && 0 <= pairing[i] < |mods| :: FirstIndex(mods, mods[pairing[i]])
  }

  lemma MarksAppend(mods: seq<HeadingInfo>, pairing: seq<int>, x: int)
    requires -1 <= x < |mods|
    ensures Marks(mods, pairing + [x]) == Marks(mods, pairing) + (if x == -1 then {} else {FirstIndex(mods, mods[x])})
  {
    var q := pairing + [x];
    assert q[|pairing|] == x;
    assert forall i :: 0 <= i < |pairing| ==> q[i] == pairing[i];
  }

  /** Over distinct headings a heading is first found at its own position, so the marks are the positions taken. */
  lemma MarksOfDistinct(mods: seq<HeadingInfo>, pairing: seq<int>)
    requires Distinct(mods)
    requires forall i :: 0 <= i < |pairing| ==> -1 <= pairing[i] < |mods|
    ensures Marks(mods, pairing) == UsedSet(pairing)
  {
    forall i | 0 <= i < |pairing| && 0 <= pairing[i] < |mods|
      ensures FirstIndex(mods, mods[pairing[i]]) == pairing[i]
    {
      var j := FirstIndex(mods, mods[pairing[i]]);
    }
  }

  /** The entry recorded for original heading `i` under the decisions `pairing`. */
  function OriginalEntry(orig: seq<HeadingInfo>, mods: seq<HeadingInfo>, pairing: seq<int>, i: nat,
                         score: (string, string) -> real): HeadingMatch
    requires i < |orig| && i < |pairing| && -1 <= pairing[i] < |mods|
  {
    if pairing[i] == -1 then HeadingMatch(Some(orig[i]), None, 0.0, Removed)
    else
      var j := pairing[i];
      HeadingMatch(Some(orig[i]), Some(mods[j]), score(orig[i].title, mods[j].title), Matched)
  }

  /** The entries for the modified headings at positions `idx`, keyed from `match_start` on. */
  function AddedEntries(mods: seq<HeadingInfo>, idx: seq<nat>, start: nat): (r: seq<(string, HeadingMatch)>)
    requires forall k :: 0 <= k < |idx| ==> idx[k] < |mods|
    ensures |r| == |idx|
    ensures forall k :: 0 <= k < |idx| ==> r[k] == (MatchId(start + k), HeadingMatch(None, Some(mods[idx[k]]), 0.0, Added))
  {
    seq(|idx|, k requires 0 <= k < |idx| => (MatchId(start + k), HeadingMatch(None, Some(mods[idx[k]]), 0.0, Added)))
  }

  /** Each of the decisions `pairing` is the greedy choice given the positions marked before it. */
  ghost predicate ChoicesMade(orig: seq<HeadingInfo>, mods: seq<HeadingInfo>, score: (string, string) -> real,
                              pairing: seq<int>) {
    && |pairing| <= |orig|
    && (forall i :: 0 <= i < |pairing| ==> -1 <= pairing[i] < |mods|)
    && (forall i :: 0 <= i < |pairing| ==> HeadingChosen(orig[i], mods, Marks(mods, pairing[..i]), pairing[i], score))
  }

  /** Each entry is keyed by its position and records what its decision determines. */
  ghost predicate EntriesRecorded(orig: seq<HeadingInfo>, mods: seq<HeadingInfo>, score: (string, string) -> real,
                                  pairing: seq<int>, entries: seq<(string, HeadingMatch)>) {
    && |pairing| == |entries| <= |orig|
    && (forall i :: 0 <= i < |pairing| ==> -1 <= pairing[i] < |mods|)
    && (forall i :: 0 <= i < |pairing| ==> entries[i] == (MatchId(i), OriginalEntry(orig, mods, pairing, i, score)))
  }

  /** The first pass after `|pairing|` original headings. */
  ghost predicate FirstPassDone(orig: seq<HeadingInfo>, mods: seq<HeadingInfo>, score: (string, string) -> real,
                                pairing: seq<int>, entries: seq<(string, HeadingMatch)>) {
    ChoicesMade(orig, mods, score, pairing) && EntriesRecorded(orig, mods, score, pairing, entries)
  }

  lemma ChoicesStep(orig: seq<HeadingInfo>, mods: seq<HeadingInfo>, score: (string, string) -> real,
                    pairing: seq<int>, choice: int)
    requires ChoicesMade(orig, mods, score, pairing) && |pairing| < |orig|
    requires HeadingChosen(orig[|pairing|], mods, Marks(mods, pairing), choice, score)
    ensures ChoicesMade(orig, mods, score, pairing + [choice])
  {
    var pairing' := pairing + [choice];
    assert pairing'[..|pairing|] == pairing;
    forall i | 0 <= i < |pairing| ensures pairing'[..i] == pairing[..i] { }
  }

  lemma EntriesStep(orig: seq<HeadingInfo>, mods: seq<HeadingInfo>, score: (string, string) -> real,
                    pairing: seq<int>, entries: seq<(string, HeadingMatch)>, choice: int)
    requires EntriesRecorded(orig, mods, score, pairing, entries) && |pairing| < |orig| && -1 <= choice < |mods|
    ensures EntriesRecorded(orig, mods, score, pairing + [choice],
                            entries + [(MatchId(|pairing|), OriginalEntry(orig, mods, pairing + [choice], |pairing|, score))])
  {
  }

  lemma FirstPassStep(orig: seq<HeadingInfo>, mods: seq<HeadingInfo>, score: (string, string) -> real,
                      pairing: seq<int>, entries: seq<(string, HeadingMatch)>, choice: int)
    requires FirstPassDone(orig, mods, score, pairing, entries) && |pairing| < |orig|
    requires HeadingChosen(orig[|pairing|], mods, Marks(mods, pairing), choice, score)
    ensures FirstPassDone(orig, mods, score, pairing + [choice],
                          entries + [(MatchId(|pairing|), OriginalEntry(orig, mods, pairing + [choice], |pairing|, score))])
    ensures Marks(mods, pairing + [choice]) == Marks(mods, pairing) + (if choice == -1 then {} else {FirstIndex(mods, mods[choice])})
  {
    ChoicesStep(orig, mods, score, pairing, choice);
    EntriesStep(orig, mods, score, pairing, entries, choice);
    MarksAppend(mods, pairing, choice);
  }

  /** The whole matching: the first pass over every original heading, then the modified headings never marked. */
  ghost predicate HeadingsPaired(orig: seq<HeadingInfo>, mods: seq<HeadingInfo>, score: (string, string) -> real,
                                 pairing: seq<int>, entries: seq<(string, HeadingMatch)>) {
    && |pairing| == |orig| <= |entries|
    && FirstPassDone(orig, mods, score, pairing, entries[..|orig|])
    && entries[|orig|..] == AddedEntries(mods, Unmatched(|mods|, Marks(mods, pairing)), |orig|)
  }

  /**
   * Every entry is keyed by its position and holds the headings its status
   * says; each original heading has its entry, in order; and there is one
   * entry per original heading and one per modified position never marked.
   */
  lemma PairedEntries(orig: seq<HeadingInfo>, mods: seq<HeadingInfo>, score: (string, string) -> real,
                      pairing: seq<int>, entries: seq<(string, HeadingMatch)>)
    requires HeadingsPaired(orig, mods, score, pairing, entries)
    ensures |entries| == |orig| + |mods| - |Marks(mods, pairing)|
    ensures forall k :: 0 <= k < |entries| ==> entries[k].0 == MatchId(k) && WellFormed(entries[k].1)
    ensures forall i :: 0 <= i < |orig| ==> entries[i].1.original == Some(orig[i]) && entries[i].1.status != Added
    ensures forall k :: |orig| <= k < |entries| ==> entries[k].1.status == Added
  {
    UnmatchedLength(|mods|, Marks(mods, pairing));
    var first := entries[..|orig|];
    forall k | 0 <= k < |entries|
      ensures entries[k].0 == MatchId(k) && WellFormed(entries[k].1)
    {
      if k < |orig| {
        assert entries[k] == first[k];
        assert HeadingChosen(orig[k], mods, Marks(mods, pairing[..k]), pairing[k], score);
      } else {
        assert entries[k] == entries[|orig|..][k - |orig|];
      }
    }
    forall k | |orig| <= k < |entries| ensures entries[k].1.status == Added {
      assert entries[k] == entries[|orig|..][k - |orig|];
    }
    forall i | 0 <= i < |orig| ensures entries[i].1.original == Some(orig[i]) && entries[i].1.status != Added {
      assert entries[i] == first[i];
    }
  }

  /**
   * Over distinct modified headings no modified heading is taken twice, and
   * the ones reported added are exactly those no original heading took.
   */
  lemma PairedDistinct(orig: seq<HeadingInfo>, mods: seq<HeadingInfo>, score: (string, string) -> real,
                       pairing: seq<int>, entries: seq<(string, HeadingMatch)>)
    requires HeadingsPaired(orig, mods, score, pairing, entries) && Distinct(mods)
    ensures PairingValid(pairing, |mods|)
    ensures Marks(mods, pairing) == UsedSet(pairing)
    ensures |entries| == |orig| + |mods| - |UsedSet(pairing)|
  {
    MarksOfDistinct(mods, pairing);
    forall i1, i2 | 0 <= i1 < i2 < |pairing| && pairing[i1] != -1 ensures pairing[i1] != pairing[i2] {
      MarksOfDistinct(mods, pairing[..i2]);
      assert pairing[..i2][i1] == pairing[i1];
      assert pairing[i1] in UsedSet(pairing[..i2]);
      assert HeadingChosen(orig[i2], mods, Marks(mods, pairing[..i2]), pairing[i2], score);
    }
    UnmatchedLength(|mods|, Marks(mods, pairing));
  }

  /** The second pass: every modified position not marked is appended as added, keyed on from `|entries0|`. */
  method AppendAdded(mods: seq<HeadingInfo>, used: set<int>, entries0: seq<(string, HeadingMatch)>)
    returns (entries: seq<(string, HeadingMatch)>)
    ensures entries == entries0 + AddedEntries(mods, Unmatched(|mods|, used), |entries0|)
  {
    entries := entries0;
    for j := 0 to |mods|
      invariant entries == entries0 + AddedEntries(mods, Unmatched(j, used), |entries0|)
    {
      if j !in used {
        assert Unmatched(j + 1, used) == Unmatched(j, used) + [j];
        entries := entries + [(MatchId(|entries|), HeadingMatch(None, Some(mods[j]), 0.0, Added))];
      }
    }
  }

  /** The two passes of the matcher over the heading lists `orig` and `mods`. */
  method PairHeadings(orig: seq<HeadingInfo>, mods: seq<HeadingInfo>, score: (string, string) -> real)
    returns (entries: seq<(string, HeadingMatch)>, ghost pairing: seq<int>)
    ensures HeadingsPaired(orig, mods, score, pairing, entries)
  {
    var usedModified: set<int> := {};
    entries := [];
    pairing := [];
    for i := 0 to |orig|
      invariant |pairing| == i && FirstPassDone(orig, mods, score, pairing, entries)
      invariant usedModified == Marks(mods, pairing)
    {
      var best, bestScore := BestHeading(orig[i], mods, usedModified, score);
      FirstPassStep(orig, mods, score, pairing, entries, best);
      var m;
      if best != -1 {
        usedModified := usedModified + {FirstIndex(mods, mods[best])};
        m := HeadingMatch(Some(orig[i]), Some(mods[best]), bestScore, Matched);
      } else {
        m := HeadingMatch(Some(orig[i]), None, 0.0, Removed);
      }
      assert m == OriginalEntry(orig, mods, pairing + [best], i, score);
      entries := entries + [(MatchId(|entries|), m)];
      pairing := pairing + [best];
    }
    var firstPass := entries;
    entries := AppendAdded(mods, usedModified, firstPass);
    assert entries[..|orig|] == firstPass;
  }

  /** What the dropdown shows for a match: an icon, a tag for removed and added headings, and the title. */
  function Display(m: HeadingMatch): string
    requires WellFormed(m)
  {
    match m.status
    case Matched => "\U{1F4C4} " + m.original.value.title
    case Removed => "\U{1F534} REMOVED: " + m.original.value.title
    case Added => "\U{1F7E2} ADDED: " + m.modified.value.title
  }

  /** The status read back from a displayed option by its icon. */
  function StatusOfDisplay(display: string): MatchStatus {
    if display != [] && display[0] == '\U{1F534}' then Removed
    else if display != [] && display[0] == '\U{1F7E2}' then Added
    else Matched
  }

  /** A displayed option ends with the title of the heading it shows, and its icon gives back the status. */
  lemma DisplayShowsMatch(m: HeadingMatch)
    requires WellFormed(m)
    ensures StatusOfDisplay(Display(m)) == m.status
    ensures EndsWith(Display(m), if m.status == Added then m.modified.value.title else m.original.value.title)
  {
  }

  /** The comparator of two documents by their headings. */
  class PdfComparator {
    var originalHeadings: seq<HeadingInfo>
    var modifiedHeadings: seq<HeadingInfo>
    /** The match dictionary, as its items in insertion order. */
    var headingMatches: seq<(string, HeadingMatch)>

    /** Every recorded match holds the headings its status says. */
    ghost predicate Valid()
      reads this
    {
      forall k :: 0 <= k < |headingMatches| ==> WellFormed(headingMatches[k].1)
    }

    constructor()
      ensures originalHeadings == [] && modifiedHeadings == [] && headingMatches == []
      ensures Valid()
    {
      originalHeadings, modifiedHeadings, headingMatches := [], [], [];
    }

    /** Records the headings the extractor found in the two documents. */
    method ExtractHeadings(original: seq<HeadingInfo>, modified: seq<HeadingInfo>)
      returns (o: seq<HeadingInfo>, m: seq<HeadingInfo>)
      modifies this
      ensures originalHeadings == o == original && modifiedHeadings == m == modified
      ensures headingMatches == old(headingMatches)
    {
      originalHeadings, modifiedHeadings := original, modified;
      o, m := original, modified;
    }

    /**
     * Pairs the headings greedily by title score and replaces the match
     * dictionary with the result: one entry per original heading, in order,
     * then one per modified heading left over, keyed `match_0`, `match_1`, ...
     */
    method MatchHeadings(score: (string, string) -> real) returns (matches: seq<(string, HeadingMatch)>, ghost pairing: seq<int>)
      modifies this
      ensures HeadingsPaired(originalHeadings, modifiedHeadings, score, pairing, matches)
      ensures headingMatches == matches && Valid()
      ensures originalHeadings == old(originalHeadings) && modifiedHeadings == old(modifiedHeadings)
    {
      matches, pairing := PairHeadings(originalHeadings, modifiedHeadings, score);
      PairedEntries(originalHeadings, modifiedHeadings, score, pairing, matches);
      headingMatches := matches;
    }

    /** The dropdown options: one per match, in the dictionary's order, with its key, display text and status. */
    method GetDropdownOptions() returns (options: seq<(string, string, MatchStatus)>)
      requires Valid()
      ensures |options| == |headingMatches|
      ensures forall k :: 0 <= k < |options| ==>
                options[k] == (headingMatches[k].0, Display(headingMatches[k].1), headingMatches[k].1.status)
    {
      options := [];
      for k := 0 to |headingMatches|
        invariant |options| == k
        invariant forall k' :: 0 <= k' < k ==>
                    options[k'] == (headingMatches[k'].0, Display(headingMatches[k'].1), headingMatches[k'].1.status)
      {
        var (id, m) := headingMatches[k];
        options := options + [(id, Display(m), m.status)];
      }
    }
  }
}
