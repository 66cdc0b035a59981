/**
 * Requirement analysis: keyword-driven detection of RFC 2119 style
 * requirement levels (with German keywords), classification by type,
 * a confidence score, word-set similarity between requirements, greedy
 * matching of requirements across two documents and summary statistics.
 *
 * Every keyword test is Python's substring `in` on the lowercased sentence.
 */
module RequirementAnalyzer {
  import opened Wrappers
  import opened TextUtil
  import opened Indices
  import opened Counting

  datatype RequirementLevel =
    | Must | Shall | Required | Should | Recommended | May | Optional | MustNot | ShallNot

  datatype RequirementType =
    | Functional | NonFunctional | Constraint | Interface | Data | Legal | Business | Unknown

  datatype Requirement = Requirement(
    text: string, level: RequirementLevel, reqType: RequirementType, keywords: seq<string>,
    position: int, paragraphIndex: int, isProhibition: bool, confidence: real)

  datatype ChangeKind = Added | Removed | Modified | LevelChanged | Unchanged

  datatype ChangeSeverity = Critical | Major | Minor

  /** The explanation templates; the values are kept, the rendering to text is not modelled. */
  datatype ChangeExplanation =
    | LevelChangedFromTo(from: RequirementLevel, to: RequirementLevel)
    | TextModified(similarity: real)
    | NoChanges
    | RequirementRemoved(level: RequirementLevel)
    | RequirementAdded(level: RequirementLevel)

  datatype RequirementChange = RequirementChange(
    oldRequirement: Option<Requirement>, newRequirement: Option<Requirement>,
    changeType: ChangeKind, severity: ChangeSeverity, explanation: ChangeExplanation)

  const MustKeywords: seq<string> := [
    "must", "required", "shall", "needs to", "has to", "is required to",
    "is mandatory", "mandatory", "obligatory", "compulsory"]
  const ShouldKeywords: seq<string> := [
    "should", "recommended", "it is recommended", "ought to",
    "advisable", "suggested", "preferred"]
  const MayKeywords: seq<string> := [
    "may", "optional", "can", "could", "might", "possibly",
    "optionally", "at discretion"]
  const ProhibitionKeywords: seq<string> := [
    "must not", "shall not", "may not", "cannot", "prohibited",
    "forbidden", "not allowed", "not permitted"]
  const GermanMustKeywords: seq<string> := [
    "muss", "müssen", "erforderlich", "notwendig", "zwingend",
    "verpflichtend", "obligatorisch"]
  const GermanShouldKeywords: seq<string> := [
    "soll", "sollte", "empfohlen", "ratsam", "angeraten"]
  const GermanMayKeywords: seq<string> := [
    "kann", "könnte", "darf", "optional", "möglich"]

  const FunctionalKeywords: seq<string> := [
    "function", "feature", "capability", "operation", "behavior",
    "process", "calculate", "display", "provide", "enable"]
  const NonFunctionalKeywords: seq<string> := [
    "performance", "speed", "response time", "throughput", "latency",
    "security", "reliability", "availability", "scalability",
    "usability", "maintainability", "portability"]
  const ConstraintKeywords: seq<string> := [
    "constraint", "limitation", "restriction", "bound by", "limited to",
    "not exceed", "maximum", "minimum", "within", "comply with"]
  const LegalKeywords: seq<string> := [
    "legal", "regulation", "compliance", "law", "statute",
    "gdpr", "hipaa", "iso", "standard", "audit", "liability"]
  const InterfaceKeywords: seq<string> := [
    "interface", "api", "protocol", "communication", "integration",
    "connect", "interact", "exchange"]
  const DataKeywords: seq<string> := [
    "data", "database", "storage", "information", "record",
    "file", "format", "structure"]

  const DefaultMinConfidence: real := 0.6
  const DefaultSimilarityThreshold: real := 0.7

  // ---------------------------------------------------------------------------
  // Keyword hits
  // ---------------------------------------------------------------------------

  /** The keywords that occur in `text`, in list order. */
  function Hits(text: string, keywords: seq<string>): (r: seq<string>)
    ensures |r| <= |keywords|
    ensures forall k :: 0 <= k < |r| ==> r[k] in keywords && Contains(text, r[k])
  {
    if keywords == [] then []
    else
      var last := keywords[|keywords| - 1];
      Hits(text, keywords[..|keywords| - 1]) + (if Contains(text, last) then [last] else [])
  }

  /** Every listed keyword that occurs is among the hits. */
  lemma {:induction false} HitsComplete(text: string, keywords: seq<string>, kw: string)
    requires kw in keywords && Contains(text, kw)
    ensures kw in Hits(text, keywords)
  {
    var init := keywords[..|keywords| - 1];
    if kw != keywords[|keywords| - 1] {
      assert kw in init by {
        var k :| 0 <= k < |keywords| && keywords[k] == kw;
        assert init[k] == kw;
      }
      HitsComplete(text, init, kw);
    }
  }

  /** No hit exactly when no keyword of the list occurs. */
  lemma HitsEmpty(text: string, keywords: seq<string>)
    ensures Hits(text, keywords) == [] <==> !ContainsAny(text, keywords)
  {
    if ContainsAny(text, keywords) {
      var k :| 0 <= k < |keywords| && Contains(text, keywords[k]);
      HitsComplete(text, keywords, keywords[k]);
    }
  }

  /** The loop that appends each keyword found in `text` to `found`. */
  method CollectHits(text: string, keywords: seq<string>, found0: seq<string>) returns (found: seq<string>)
    ensures found == found0 + Hits(text, keywords)
  {
    found := found0;
    for i := 0 to |keywords|
      invariant found == found0 + Hits(text, keywords[..i])
    {
      assert keywords[..i + 1][..i] == keywords[..i];
      if Contains(text, keywords[i]) {
        found := found + [keywords[i]];
      }
    }
    assert keywords[..|keywords|] == keywords;
  }

  method CheckProhibition(text: string) returns (isProhibition: bool, found: seq<string>)
    ensures isProhibition <==> ContainsAny(text, ProhibitionKeywords)
    ensures found == Hits(text, ProhibitionKeywords)
  {
    found := CollectHits(text, ProhibitionKeywords, []);
    HitsEmpty(text, ProhibitionKeywords);
    isProhibition := |found| > 0;
  }

  // ---------------------------------------------------------------------------
  // Level detection
  // ---------------------------------------------------------------------------

  datatype Detected = Detected(level: Option<RequirementLevel>, keywords: seq<string>)

  /**
   * The precedence ladder of levels: a prohibition first, then the MUST list,
   * German MUST, SHOULD, German SHOULD, MAY, German MAY (the German lists only
   * when enabled); the first list with a hit decides the level and its hits
   * are the keywords.
   */
  function Ladder(text: string, isProhibition: bool, detectGerman: bool): Detected {
    if isProhibition then
      if Contains(text, "must not") || Contains(text, "shall not")
      then Detected(Some(MustNot), ["must not"])
      else Detected(Some(ShallNot), ["shall not"])
    else if ContainsAny(text, MustKeywords) then
      Detected(Some(if Contains(text, "shall") then Shall else Must), Hits(text, MustKeywords))
    else if detectGerman && ContainsAny(text, GermanMustKeywords) then
      Detected(Some(Must), Hits(text, GermanMustKeywords))
    else ShouldLadder(text, detectGerman)
  }

  /** The rungs below MUST: SHOULD, German SHOULD, then the MAY rungs. */
  function ShouldLadder(text: string, detectGerman: bool): Detected {
    if ContainsAny(text, ShouldKeywords) then
      Detected(Some(Should), Hits(text, ShouldKeywords))
    else if detectGerman && ContainsAny(text, GermanShouldKeywords) then
      Detected(Some(Should), Hits(text, GermanShouldKeywords))
    else MayLadder(text, detectGerman)
  }

  /** The last rungs: MAY, German MAY, else no level. */
  function MayLadder(text: string, detectGerman: bool): Detected {
    if ContainsAny(text, MayKeywords) then
      Detected(Some(May), Hits(text, MayKeywords))
    else if detectGerman && ContainsAny(text, GermanMayKeywords) then
      Detected(Some(May), Hits(text, GermanMayKeywords))
    else Detected(None, [])
  }

  /** Some keyword of an active list occurs in `text`. */
  predicate IsRequirementText(text: string, detectGerman: bool) {
    ContainsAny(text, ProhibitionKeywords) || ContainsAny(text, MustKeywords)
    || (detectGerman && ContainsAny(text, GermanMustKeywords))
    || ContainsAny(text, ShouldKeywords) || (detectGerman && ContainsAny(text, GermanShouldKeywords))
    || ContainsAny(text, MayKeywords) || (detectGerman && ContainsAny(text, GermanMayKeywords))
  }

  /** A level is found exactly when keywords back it; keywords outside a prohibition all occur. */
  lemma LadderKeywords(text: string, isProhibition: bool, detectGerman: bool)
    ensures Ladder(text, isProhibition, detectGerman).level.Some?
        <==> Ladder(text, isProhibition, detectGerman).keywords != []
    ensures !isProhibition ==> forall k :: 0 <= k < |Ladder(text, isProhibition, detectGerman).keywords| ==>
      Contains(text, Ladder(text, isProhibition, detectGerman).keywords[k])
  {
    HitsEmpty(text, MustKeywords);
    HitsEmpty(text, GermanMustKeywords);
    HitsEmpty(text, ShouldKeywords);
    HitsEmpty(text, GermanShouldKeywords);
    HitsEmpty(text, MayKeywords);
    HitsEmpty(text, GermanMayKeywords);
  }

  /** With the prohibition flag as the scan sets it, a level is found exactly for requirement text. */
  lemma LadderFindsRequirements(text: string, detectGerman: bool)
    ensures Ladder(text, ContainsAny(text, ProhibitionKeywords), detectGerman).level.Some?
        <==> IsRequirementText(text, detectGerman)
  {
  }

  /** "shall" is one of the MUST hits exactly when it occurs. */
  lemma ShallHit(text: string)
    ensures "shall" in Hits(text, MustKeywords) <==> Contains(text, "shall")
  {
    if Contains(text, "shall") {
      assert MustKeywords[2] == "shall";
      HitsComplete(text, MustKeywords, "shall");
    }
  }

  /** The staged keyword scan, accumulating found keywords until one stage has a hit. */
  method DetectLevel(text: string, isProhibition: bool, detectGerman: bool)
    returns (level: Option<RequirementLevel>, found: seq<string>)
    ensures Detected(level, found) == Ladder(text, isProhibition, detectGerman)
  {
    found := [];
    if isProhibition {
      if Contains(text, "must not") || Contains(text, "shall not") {
        return Some(MustNot), ["must not"];
      }
      return Some(ShallNot), ["shall not"];
    }
    found := CollectHits(text, MustKeywords, found);
    HitsEmpty(text, MustKeywords);
    if found != [] {
      ShallHit(text);
      if "shall" in found {
        return Some(Shall), found;
      }
      return Some(Must), found;
    }
    if detectGerman {
      found := CollectHits(text, GermanMustKeywords, found);
      HitsEmpty(text, GermanMustKeywords);
      if found != [] {
        return Some(Must), found;
      }
    }
    level, found := DetectWeakerLevel(text, detectGerman);
  }

  /** The SHOULD and MAY stages, reached when no prohibition and no MUST keyword occurs. */
  method DetectWeakerLevel(text: string, detectGerman: bool)
    returns (level: Option<RequirementLevel>, found: seq<string>)
    ensures Detected(level, found) == ShouldLadder(text, detectGerman)
  {
    found := CollectHits(text, ShouldKeywords, []);
    HitsEmpty(text, ShouldKeywords);
    if found != [] {
      return Some(Should), found;
    }
    if detectGerman {
      found := CollectHits(text, GermanShouldKeywords, found);
      HitsEmpty(text, GermanShouldKeywords);
      if found != [] {
        return Some(Should), found;
      }
    }
    level, found := DetectMayLevel(text, detectGerman);
  }

  /** The MAY stages, reached when no stronger keyword occurs. */
  method DetectMayLevel(text: string, detectGerman: bool)
    returns (level: Option<RequirementLevel>, found: seq<string>)
    ensures Detected(level, found) == MayLadder(text, detectGerman)
  {
    found := CollectHits(text, MayKeywords, []);
    HitsEmpty(text, MayKeywords);
    if found != [] {
      return Some(May), found;
    }
    if detectGerman {
      found := CollectHits(text, GermanMayKeywords, found);
      HitsEmpty(text, GermanMayKeywords);
      if found != [] {
        return Some(May), found;
      }
    }
    return None, [];
  }

  // ---------------------------------------------------------------------------
  // Type classification and confidence
  // ---------------------------------------------------------------------------

  /** The scored types in the order the scores are recorded, which breaks ties. */
  const TypeOrder: seq<RequirementType> := [Functional, NonFunctional, Constraint, Legal, Interface, Data]

  function TypeKeywords(t: RequirementType): seq<string> {
    match t
    case Functional => FunctionalKeywords
    case NonFunctional => NonFunctionalKeywords
    case Constraint => ConstraintKeywords
    case Legal => LegalKeywords
    case Interface => InterfaceKeywords
    case Data => DataKeywords
    case _ => []
  }

  /** The number of a type's keywords that occur in `text`. */
  function Score(text: string, t: RequirementType): nat {
    |Hits(text, TypeKeywords(t))|
  }

  function Scores(text: string): (s: seq<nat>)
    ensures |s| == |TypeOrder|
    ensures forall k :: 0 <= k < |s| ==> s[k] == Score(text, TypeOrder[k])
  {
    seq(|TypeOrder|, k requires 0 <= k < |TypeOrder| => Score(text, TypeOrder[k]))
  }

  /** `k` holds a maximum of `s` and no earlier entry reaches it. */
  predicate IsFirstMax(s: seq<nat>, k: nat) {
    k < |s| && (forall j :: 0 <= j < |s| ==> s[j] <= s[k]) && (forall j :: 0 <= j < k ==> s[j] < s[k])
  }

  /** Python's `max` over a non-empty sequence: the first position of the largest value. */
  function FirstMaxIndex(s: seq<nat>): (k: nat)
    requires |s| > 0
    ensures IsFirstMax(s, k)
  {
    if |s| == 1 then 0
    else
      var k := FirstMaxIndex(s[..|s| - 1]);
      if s[|s| - 1] > s[k] then |s| - 1 else k
  }

  /** The type with the most keyword hits, earlier types winning ties; `Unknown` with no hit at all. */
  function ClassifyType(text: string): (t: RequirementType)
    ensures t == Unknown <==> forall k :: 0 <= k < |TypeOrder| ==> Scores(text)[k] == 0
    ensures t != Unknown ==> exists k: nat :: k < |TypeOrder| && IsFirstMax(Scores(text), k) && TypeOrder[k] == t
  {
    var s := Scores(text);
    var k := FirstMaxIndex(s);
    if s[k] > 0 then TypeOrder[k] else Unknown
  }

  /** `Unknown` exactly when no keyword of any scored type occurs. */
  lemma ClassifyUnknownIff(text: string)
    ensures ClassifyType(text) == Unknown <==>
      forall k :: 0 <= k < |TypeOrder| ==> !ContainsAny(text, TypeKeywords(TypeOrder[k]))
  {
    forall k | 0 <= k < |TypeOrder|
      ensures Scores(text)[k] == 0 <==> !ContainsAny(text, TypeKeywords(TypeOrder[k]))
    {
      HitsEmpty(text, TypeKeywords(TypeOrder[k]));
    }
  }

  /**
   * The confidence in tenths: a base of 5, one per level keyword up to two,
   * two for a classified type, one for a sentence of 5 to 50 words, clamped to 0..10.
   */
  function ConfidenceTenths(text: string, keywords: seq<string>, reqType: RequirementType): (c: nat)
    ensures 5 <= c <= 10
    ensures keywords != [] ==> c >= 6
    ensures c == 10 <==> |keywords| >= 2 && reqType != Unknown && 5 <= |Words(text)| <= 50
  {
    var raw := 5 + Min(|keywords|, 2) + (if reqType != Unknown then 2 else 0)
               + (if 5 <= |Words(text)| <= 50 then 1 else 0);
    Min(Max(raw, 0), 10)
  }

  function Confidence(text: string, keywords: seq<string>, reqType: RequirementType): (c: real)
    ensures 0.5 <= c <= 1.0
  {
    ConfidenceTenths(text, keywords, reqType) as real / 10.0
  }

  // ---------------------------------------------------------------------------
  // Sentences and paragraphs
  // ---------------------------------------------------------------------------

  /**
   * What `_analyze_sentence` makes of one sentence: the prohibition flag, the
   * level and keywords of the ladder, the type and the confidence; nothing
   * when no level is found or when the confidence falls below the minimum.
   */
  function SentenceRequirement(sentence: string, position: int, paragraphIndex: int,
                               minConfidence: real, detectGerman: bool): (r: Option<Requirement>)
    ensures var lower := Lower(sentence);
      var ladder := Ladder(lower, ContainsAny(lower, ProhibitionKeywords), detectGerman);
      && (r.Some? <==> IsRequirementText(lower, detectGerman)
                       && minConfidence <= Confidence(lower, ladder.keywords, ClassifyType(lower)))
      && (r.Some? ==>
            && r.value.text == sentence && r.value.position == position && r.value.paragraphIndex == paragraphIndex
            && (r.value.isProhibition <==> ContainsAny(lower, ProhibitionKeywords))
            && ladder.level == Some(r.value.level)
            && r.value.keywords == ladder.keywords + Hits(lower, ProhibitionKeywords)
            && r.value.reqType == ClassifyType(lower)
            && r.value.confidence == Confidence(lower, ladder.keywords, r.value.reqType)
            && minConfidence <= r.value.confidence && 0.6 <= r.value.confidence <= 1.0)
    ensures minConfidence <= 0.6 && IsRequirementText(Lower(sentence), detectGerman) ==> r.Some?
    ensures minConfidence > 1.0 ==> r.None?
  {
    var lower := Lower(sentence);
    var isProhibition := ContainsAny(lower, ProhibitionKeywords);
    var ladder := Ladder(lower, isProhibition, detectGerman);
    LadderFindsRequirements(lower, detectGerman);
    LadderKeywords(lower, isProhibition, detectGerman);
    var reqType := ClassifyType(lower);
    var confidence := Confidence(lower, ladder.keywords, reqType);
    if ladder.level.None? || confidence < minConfidence then None
    else Some(Requirement(sentence, ladder.level.value, reqType, ladder.keywords + Hits(lower, ProhibitionKeywords),
                          position, paragraphIndex, isProhibition, confidence))
  }

  /** One sentence: the prohibition scan, the level ladder, the type, the confidence cut-off. */
  method AnalyzeSentence(sentence: string, position: int, paragraphIndex: int,
                         minConfidence: real, detectGerman: bool)
    returns (r: Option<Requirement>)
    ensures r == SentenceRequirement(sentence, position, paragraphIndex, minConfidence, detectGerman)
  {
    var lower := Lower(sentence);
    var isProhibition, prohibitionKeywords := CheckProhibition(lower);
    var level, levelKeywords := DetectLevel(lower, isProhibition, detectGerman);
    if level.None? {
      return None;
    }
    var reqType := ClassifyType(lower);
    var confidence := Confidence(lower, levelKeywords, reqType);
    if confidence < minConfidence {
      return None;
    }
    r := Some(Requirement(sentence, level.value, reqType, levelKeywords + prohibitionKeywords,
                          position, paragraphIndex, isProhibition, confidence));
  }

  /** The requirement comes from sentence `position` of paragraph `paragraphIndex`. */
  predicate FromSentence(q: Requirement, paragraphs: seq<string>, split: string -> seq<string>) {
    0 <= q.paragraphIndex < |paragraphs| && 0 <= q.position < |split(paragraphs[q.paragraphIndex])|
    && q.text == split(paragraphs[q.paragraphIndex])[q.position]
  }

  /** `q` is what the analysis of its own sentence yields. */
  predicate Analyzed(q: Requirement, minConfidence: real, detectGerman: bool) {
    SentenceRequirement(q.text, q.position, q.paragraphIndex, minConfidence, detectGerman) == Some(q)
  }

  /** Document order of (paragraph, sentence) positions. */
  predicate Before(pa: int, sa: int, pb: int, sb: int) {
    pa < pb || (pa == pb && sa < sb)
  }

  predicate Reported(reqs: seq<Requirement>, p: int, s: int) {
    exists k :: 0 <= k < |reqs| && reqs[k].paragraphIndex == p && reqs[k].position == s
  }

  /** Sentence `s` of paragraph `p` yields a requirement. */
  predicate RequirementSentence(paragraphs: seq<string>, split: string -> seq<string>, p: int, s: int,
                                minConfidence: real, detectGerman: bool) {
    0 <= p < |paragraphs| && 0 <= s < |split(paragraphs[p])|
    && SentenceRequirement(split(paragraphs[p])[s], s, p, minConfidence, detectGerman).Some?
  }

  /** Sentence `s` of paragraph `p` holds a keyword of an active list. */
  predicate KeywordSentence(paragraphs: seq<string>, split: string -> seq<string>, p: int, s: int,
                            detectGerman: bool) {
    0 <= p < |paragraphs| && 0 <= s < |split(paragraphs[p])|
    && IsRequirementText(Lower(split(paragraphs[p])[s]), detectGerman)
  }

  lemma ReportedGrows(reqs: seq<Requirement>, q: Requirement, p: int, s: int)
    requires Reported(reqs, p, s)
    ensures Reported(reqs + [q], p, s)
  {
    var k :| 0 <= k < |reqs| && reqs[k].paragraphIndex == p && reqs[k].position == s;
    assert (reqs + [q])[k] == reqs[k];
  }

  /** With a minimum of at most 0.6, every sentence holding a keyword yields a requirement. */
  lemma KeywordSentencesQualify(paragraphs: seq<string>, split: string -> seq<string>,
                                minConfidence: real, detectGerman: bool)
    requires minConfidence <= 0.6
    ensures forall p, s :: KeywordSentence(paragraphs, split, p, s, detectGerman) ==>
      RequirementSentence(paragraphs, split, p, s, minConfidence, detectGerman)
  {
    forall p, s | KeywordSentence(paragraphs, split, p, s, detectGerman)
      ensures RequirementSentence(paragraphs, split, p, s, minConfidence, detectGerman)
    {
      var r := SentenceRequirement(split(paragraphs[p])[s], s, p, minConfidence, detectGerman);
    }
  }

  /**
   * Every sentence of every paragraph, in order; `split` is the sentence
   * splitter. The requirements are exactly the analyses of the sentences that
   * yield one, each recording its paragraph and its sentence index.
   */
  method AnalyzeParagraphs(paragraphs: seq<string>, split: string -> seq<string>,
                           minConfidence: real, detectGerman: bool)
    returns (reqs: seq<Requirement>)
    ensures forall k :: 0 <= k < |reqs| ==>
      FromSentence(reqs[k], paragraphs, split) && Analyzed(reqs[k], minConfidence, detectGerman)
    ensures forall k1, k2 :: 0 <= k1 < k2 < |reqs| ==>
      Before(reqs[k1].paragraphIndex, reqs[k1].position, reqs[k2].paragraphIndex, reqs[k2].position)
    ensures forall p, s :: RequirementSentence(paragraphs, split, p, s, minConfidence, detectGerman) ==> Reported(reqs, p, s)
    ensures minConfidence <= 0.6 ==> forall p, s ::
      KeywordSentence(paragraphs, split, p, s, detectGerman) ==> Reported(reqs, p, s)
  {
    reqs := [];
    for p := 0 to |paragraphs|
      invariant ScannedUpTo(reqs, paragraphs, split, minConfidence, detectGerman, p, 0)
    {
      reqs := AnalyzeParagraph(paragraphs, split, p, minConfidence, detectGerman, reqs);
    }
    if minConfidence <= 0.6 {
      KeywordSentencesQualify(paragraphs, split, minConfidence, detectGerman);
    }
  }

  /** `analyze_text`: one text read as a single paragraph, so every requirement has paragraph index 0. */
  method AnalyzeText(text: string, split: string -> seq<string>, minConfidence: real, detectGerman: bool)
    returns (reqs: seq<Requirement>)
    ensures forall k :: 0 <= k < |reqs| ==>
      reqs[k].paragraphIndex == 0 && 0 <= reqs[k].position < |split(text)|
      && reqs[k].text == split(text)[reqs[k].position] && Analyzed(reqs[k], minConfidence, detectGerman)
    ensures forall k1, k2 :: 0 <= k1 < k2 < |reqs| ==> reqs[k1].position < reqs[k2].position
    ensures forall s :: 0 <= s < |split(text)| && SentenceRequirement(split(text)[s], s, 0, minConfidence, detectGerman).Some? ==>
      exists k :: 0 <= k < |reqs| && reqs[k].position == s
    ensures minConfidence <= 0.6 ==> forall s :: 0 <= s < |split(text)| && IsRequirementText(Lower(split(text)[s]), detectGerman) ==>
      exists k :: 0 <= k < |reqs| && reqs[k].position == s
  {
    reqs := AnalyzeParagraphs([text], split, minConfidence, detectGerman);
    assert forall s :: 0 <= s < |split(text)| && SentenceRequirement(split(text)[s], s, 0, minConfidence, detectGerman).Some? ==>
      RequirementSentence([text], split, 0, s, minConfidence, detectGerman);
    assert forall s :: 0 <= s < |split(text)| && IsRequirementText(Lower(split(text)[s]), detectGerman) ==>
      KeywordSentence([text], split, 0, s, detectGerman);
  }

  /**
   * The scan has reached sentence `s` of paragraph `p`: every requirement is
   * the analysis of an earlier sentence, in order, and every earlier sentence
   * that yields a requirement is reported.
   */
  ghost predicate ScannedUpTo(reqs: seq<Requirement>, paragraphs: seq<string>, split: string -> seq<string>,
                              minConfidence: real, detectGerman: bool, p: int, s: int) {
    && ScanSound(reqs, paragraphs, split, minConfidence, detectGerman, p, s)
    && ScanOrdered(reqs)
    && ScanComplete(reqs, paragraphs, split, minConfidence, detectGerman, p, s)
  }

  ghost predicate ScanSound(reqs: seq<Requirement>, paragraphs: seq<string>, split: string -> seq<string>,
                            minConfidence: real, detectGerman: bool, p: int, s: int) {
    forall k :: 0 <= k < |reqs| ==>
      FromSentence(reqs[k], paragraphs, split) && Analyzed(reqs[k], minConfidence, detectGerman)
      && Before(reqs[k].paragraphIndex, reqs[k].position, p, s)
  }

  predicate ScanOrdered(reqs: seq<Requirement>) {
    forall k1, k2 :: 0 <= k1 < k2 < |reqs| ==>
      Before(reqs[k1].paragraphIndex, reqs[k1].position, reqs[k2].paragraphIndex, reqs[k2].position)
  }

  ghost predicate ScanComplete(reqs: seq<Requirement>, paragraphs: seq<string>, split: string -> seq<string>,
                               minConfidence: real, detectGerman: bool, p: int, s: int) {
    forall p', s' :: Before(p', s', p, s) && RequirementSentence(paragraphs, split, p', s', minConfidence, detectGerman)
      ==> Reported(reqs, p', s')
  }

  /** Sentence `s` of paragraph `p` is analysed: its requirement, if any, is appended. */
  lemma ScanStep(reqs: seq<Requirement>, paragraphs: seq<string>, split: string -> seq<string>,
                 minConfidence: real, detectGerman: bool, p: int, s: int, r: Option<Requirement>)
    requires 0 <= p < |paragraphs| && 0 <= s < |split(paragraphs[p])|
    requires ScannedUpTo(reqs, paragraphs, split, minConfidence, detectGerman, p, s)
    requires r == SentenceRequirement(split(paragraphs[p])[s], s, p, minConfidence, detectGerman)
    ensures ScannedUpTo(if r.Some? then reqs + [r.value] else reqs, paragraphs, split, minConfidence, detectGerman, p, s + 1)
  {
    if r.Some? {
      ScanSoundStep(reqs, paragraphs, split, minConfidence, detectGerman, p, s, r.value);
      ScanOrderedStep(reqs, paragraphs, split, minConfidence, detectGerman, p, s, r.value);
      ScanCompleteStep(reqs, paragraphs, split, minConfidence, detectGerman, p, s, r.value);
    } else {
      ScanSoundSkip(reqs, paragraphs, split, minConfidence, detectGerman, p, s);
      ScanCompleteSkip(reqs, paragraphs, split, minConfidence, detectGerman, p, s);
    }
  }

  lemma ScanSoundSkip(reqs: seq<Requirement>, paragraphs: seq<string>, split: string -> seq<string>,
                      minConfidence: real, detectGerman: bool, p: int, s: int)
    requires ScanSound(reqs, paragraphs, split, minConfidence, detectGerman, p, s)
    ensures ScanSound(reqs, paragraphs, split, minConfidence, detectGerman, p, s + 1)
  {
  }

  lemma ScanCompleteSkip(reqs: seq<Requirement>, paragraphs: seq<string>, split: string -> seq<string>,
                         minConfidence: real, detectGerman: bool, p: int, s: int)
    requires ScanComplete(reqs, paragraphs, split, minConfidence, detectGerman, p, s)
    requires !RequirementSentence(paragraphs, split, p, s, minConfidence, detectGerman)
    ensures ScanComplete(reqs, paragraphs, split, minConfidence, detectGerman, p, s + 1)
  {
  }

  lemma ScanSoundStep(reqs: seq<Requirement>, paragraphs: seq<string>, split: string -> seq<string>,
                      minConfidence: real, detectGerman: bool, p: int, s: int, q: Requirement)
    requires 0 <= p < |paragraphs| && 0 <= s < |split(paragraphs[p])|
    requires ScanSound(reqs, paragraphs, split, minConfidence, detectGerman, p, s)
    requires q.text == split(paragraphs[p])[s] && q.position == s && q.paragraphIndex == p
    requires Analyzed(q, minConfidence, detectGerman)
    ensures ScanSound(reqs + [q], paragraphs, split, minConfidence, detectGerman, p, s + 1)
  {
    var reqs' := reqs + [q];
    forall k | 0 <= k < |reqs'|
      ensures FromSentence(reqs'[k], paragraphs, split) && Analyzed(reqs'[k], minConfidence, detectGerman)
        && Before(reqs'[k].paragraphIndex, reqs'[k].position, p, s + 1)
    {
      if k < |reqs| {
        assert reqs'[k] == reqs[k];
      }
    }
  }

  lemma ScanOrderedStep(reqs: seq<Requirement>, paragraphs: seq<string>, split: string -> seq<string>,
                        minConfidence: real, detectGerman: bool, p: int, s: int, q: Requirement)
    requires ScanSound(reqs, paragraphs, split, minConfidence, detectGerman, p, s) && ScanOrdered(reqs)
    requires q.position == s && q.paragraphIndex == p
    ensures ScanOrdered(reqs + [q])
  {
    var reqs' := reqs + [q];
    forall k1, k2 | 0 <= k1 < k2 < |reqs'|
      ensures Before(reqs'[k1].paragraphIndex, reqs'[k1].position, reqs'[k2].paragraphIndex, reqs'[k2].position)
    {
      assert reqs'[k1] == reqs[k1];
      if k2 < |reqs| {
        assert reqs'[k2] == reqs[k2];
      }
    }
  }

  lemma ScanCompleteStep(reqs: seq<Requirement>, paragraphs: seq<string>, split: string -> seq<string>,
                         minConfidence: real, detectGerman: bool, p: int, s: int, q: Requirement)
    requires ScanComplete(reqs, paragraphs, split, minConfidence, detectGerman, p, s)
    requires q.position == s && q.paragraphIndex == p
    ensures ScanComplete(reqs + [q], paragraphs, split, minConfidence, detectGerman, p, s + 1)
  {
    var reqs' := reqs + [q];
    assert reqs'[|reqs|] == q;
    forall p', s' | Before(p', s', p, s + 1) && RequirementSentence(paragraphs, split, p', s', minConfidence, detectGerman)
      ensures Reported(reqs', p', s')
    {
      if Before(p', s', p, s) {
        ReportedGrows(reqs, q, p', s');
      }
    }
  }

  /** The last sentence of paragraph `p` done is the same point as the start of paragraph `p + 1`. */
  lemma ScanNextParagraph(reqs: seq<Requirement>, paragraphs: seq<string>, split: string -> seq<string>,
                          minConfidence: real, detectGerman: bool, p: int)
    requires 0 <= p < |paragraphs|
    requires ScannedUpTo(reqs, paragraphs, split, minConfidence, detectGerman, p, |split(paragraphs[p])|)
    ensures ScannedUpTo(reqs, paragraphs, split, minConfidence, detectGerman, p + 1, 0)
  {
  }

  /** The sentences of paragraph `p`, appended after the requirements of earlier paragraphs. */
  method AnalyzeParagraph(paragraphs: seq<string>, split: string -> seq<string>, p: nat,
                          minConfidence: real, detectGerman: bool, reqs0: seq<Requirement>)
    returns (reqs: seq<Requirement>)
    requires p < |paragraphs|
    requires ScannedUpTo(reqs0, paragraphs, split, minConfidence, detectGerman, p, 0)
    ensures ScannedUpTo(reqs, paragraphs, split, minConfidence, detectGerman, p + 1, 0)
  {
    var sentences := split(paragraphs[p]);
    reqs := reqs0;
    for s := 0 to |sentences|
      invariant ScannedUpTo(reqs, paragraphs, split, minConfidence, detectGerman, p, s)
    {
      var r := AnalyzeSentence(sentences[s], s, p, minConfidence, detectGerman);
      ScanStep(reqs, paragraphs, split, minConfidence, detectGerman, p, s, r);
      if r.Some? {
        reqs := reqs + [r.value];
      }
    }
    ScanNextParagraph(reqs, paragraphs, split, minConfidence, detectGerman, p);
  }

  // ---------------------------------------------------------------------------
  // Similarity and matching across two documents
  // ---------------------------------------------------------------------------

  /** The set of lowercase whitespace-separated words of a text. */
  function WordSet(text: string): set<string> {
    set w | w in Words(Lower(text))
  }

  lemma SubsetCardinality(a: set<string>, b: set<string>)
    requires a <= b
    ensures |a| <= |b|
    ensures |a| == |b| ==> a == b
  {
    assert b == a + (b - a);
    assert a * (b - a) == {};
    if |a| == |b| {
      assert |b - a| == 0;
      assert b - a == {};
    }
  }

  lemma FractionFacts(x: nat, y: nat)
    requires 0 < y
    ensures 0.0 <= x as real / y as real
    ensures x <= y ==> x as real / y as real <= 1.0
    ensures x as real / y as real == 1.0 <==> x == y
    ensures x as real / y as real > 0.0 <==> x > 0
  {
    var q := x as real / y as real;
    assert q * y as real == x as real;
  }

  /** The Jaccard index of the two word sets, 0 when either is empty. */
  function RequirementSimilarity(r1: Requirement, r2: Requirement): (s: real)
    ensures 0.0 <= s <= 1.0
    ensures WordSet(r1.text) == {} || WordSet(r2.text) == {} ==> s == 0.0
  {
    var a := WordSet(r1.text);
    var b := WordSet(r2.text);
    if a == {} || b == {} then 0.0
    else
      var union := |a + b|;
      if union > 0 then
        SubsetCardinality(a * b, a + b);
        FractionFacts(|a * b|, union);
        |a * b| as real / union as real
      else 0.0
  }

  lemma SimilaritySymmetric(r1: Requirement, r2: Requirement)
    ensures RequirementSimilarity(r1, r2) == RequirementSimilarity(r2, r1)
  {
    var a := WordSet(r1.text);
    var b := WordSet(r2.text);
    assert a * b == b * a && a + b == b + a;
  }

  /** For non-empty word sets the similarity is 1 exactly when the word sets agree, e.g. for equal texts. */
  lemma SimilarityOne(r1: Requirement, r2: Requirement)
    requires WordSet(r1.text) != {} && WordSet(r2.text) != {}
    ensures RequirementSimilarity(r1, r2) == 1.0 <==> WordSet(r1.text) == WordSet(r2.text)
    ensures RequirementSimilarity(r1, r2) > 0.0 <==> WordSet(r1.text) * WordSet(r2.text) != {}
  {
    var a := WordSet(r1.text);
    var b := WordSet(r2.text);
    var x :| x in a;
    assert x in a + b;
    var union := |a + b|;
    assert union > 0;
    SubsetCardinality(a * b, a + b);
    FractionFacts(|a * b|, union);
    assert RequirementSimilarity(r1, r2) == |a * b| as real / union as real;
    if a == b {
      assert a * b == a + b;
    }
    if |a * b| == union {
      assert a * b == a + b;
      assert a == b by {
        assert a <= a + b && b <= a + b;
      }
    }
    if a * b != {} {
      var y :| y in a * b;
      assert |a * b| > 0;
    }
  }

  lemma SimilarityOfEqualTexts(r1: Requirement, r2: Requirement)
    requires r1.text == r2.text && WordSet(r1.text) != {}
    ensures RequirementSimilarity(r1, r2) == 1.0
  {
    SimilarityOne(r1, r2);
  }

  /** A matched pair: the level decides first, then the text. */
  function PairChange(o: Requirement, n: Requirement, similarity: real): (c: RequirementChange)
    ensures c.oldRequirement == Some(o) && c.newRequirement == Some(n)
  {
    if o.level != n.level then
      RequirementChange(Some(o), Some(n), LevelChanged, Critical, LevelChangedFromTo(o.level, n.level))
    else if o.text != n.text then
      RequirementChange(Some(o), Some(n), Modified, Major, TextModified(similarity))
    else
      RequirementChange(Some(o), Some(n), Unchanged, Minor, NoChanges)
  }

  function RemovedChange(o: Requirement): RequirementChange {
    RequirementChange(Some(o), None, Removed, Critical, RequirementRemoved(o.level))
  }

  function AddedChange(n: Requirement): RequirementChange {
    RequirementChange(None, Some(n), Added, if n.level == Must || n.level == Shall then Major else Minor,
                      RequirementAdded(n.level))
  }

  /** The change kinds against the requirements they relate, and the severity each kind carries. */
  predicate WellClassified(c: RequirementChange) {
    match c.changeType
    case LevelChanged =>
      c.oldRequirement.Some? && c.newRequirement.Some?
      && c.oldRequirement.value.level != c.newRequirement.value.level && c.severity == Critical
    case Modified =>
      c.oldRequirement.Some? && c.newRequirement.Some?
      && c.oldRequirement.value.level == c.newRequirement.value.level
      && c.oldRequirement.value.text != c.newRequirement.value.text && c.severity == Major
    case Unchanged =>
      c.oldRequirement.Some? && c.newRequirement.Some? && c.oldRequirement.value.level == c.newRequirement.value.level
      && c.oldRequirement.value.text == c.newRequirement.value.text && c.severity == Minor
    case Removed => c.oldRequirement.Some? && c.newRequirement.None? && c.severity == Critical
    case Added =>
      c.oldRequirement.None? && c.newRequirement.Some?
      && (c.severity == Major <==> c.newRequirement.value.level in {Must, Shall})
      && (c.severity == Major || c.severity == Minor)
  }

  lemma ChangesWellClassified(o: Requirement, n: Requirement, similarity: real)
    ensures WellClassified(PairChange(o, n, similarity))
    ensures WellClassified(RemovedChange(o)) && WellClassified(AddedChange(n))
  {
  }

  /**
   * The greedy decision for one old requirement given the new indices already
   * used: the first unused new requirement of highest positive similarity,
   * taken when it reaches the threshold; `-1` when no unused one qualifies.
   */
  predicate Chosen(o: Requirement, news: seq<Requirement>, used: set<int>, choice: int, threshold: real,
                   sim: (Requirement, Requirement) -> real) {
    if choice == -1 then
      forall j :: 0 <= j < |news| && j !in used ==> sim(o, news[j]) < threshold || sim(o, news[j]) <= 0.0
    else
      0 <= choice < |news| && choice !in used
      && threshold <= sim(o, news[choice]) && 0.0 < sim(o, news[choice])
      && (forall j :: 0 <= j < |news| && j !in used ==> sim(o, news[j]) <= sim(o, news[choice]))
      && (forall j :: 0 <= j < choice && j !in used ==> sim(o, news[j]) < sim(o, news[choice]))
  }

  /** The change reported for old requirement `i`. */
  function OldChange(olds: seq<Requirement>, news: seq<Requirement>, pairing: seq<int>, i: nat,
                     sim: (Requirement, Requirement) -> real): RequirementChange
    requires i < |olds| && i < |pairing| && -1 <= pairing[i] < |news|
  {
    if pairing[i] == -1 then RemovedChange(olds[i])
    else PairChange(olds[i], news[pairing[i]], sim(olds[i], news[pairing[i]]))
  }

  function AddedChanges(news: seq<Requirement>, idx: seq<nat>): (r: seq<RequirementChange>)
    requires forall k :: 0 <= k < |idx| ==> idx[k] < |news|
    ensures |r| == |idx|
  {
    seq(|idx|, k requires 0 <= k < |idx| => AddedChange(news[idx[k]]))
  }

  /** The scan of the unused new requirements for the first one of highest positive similarity to `o`. */
  method BestMatch(o: Requirement, news: seq<Requirement>, matched: set<int>,
                   sim: (Requirement, Requirement) -> real)
    returns (best: int, bestSim: real)
    ensures best == -1 ==> (bestSim == 0.0 &&
      forall j :: 0 <= j < |news| && j !in matched ==> sim(o, news[j]) <= 0.0)
    ensures best != -1 ==> (0 <= best < |news| && best !in matched
      && bestSim == sim(o, news[best]) && 0.0 < bestSim
      && (forall j :: 0 <= j < |news| && j !in matched ==> sim(o, news[j]) <= bestSim)
      && (forall j :: 0 <= j < best && j !in matched ==> sim(o, news[j]) < bestSim))
  {
    best, bestSim := -1, 0.0;
    for j := 0 to |news|
      invariant best == -1 ==> (bestSim == 0.0 &&
        forall j' :: 0 <= j' < j && j' !in matched ==> sim(o, news[j']) <= 0.0)
      invariant best != -1 ==> (0 <= best < j && best !in matched
        && bestSim == sim(o, news[best]) && 0.0 < bestSim
        && (forall j' :: 0 <= j' < j && j' !in matched ==> sim(o, news[j']) <= bestSim)
        && (forall j' :: 0 <= j' < best && j' !in matched ==> sim(o, news[j']) < bestSim))
    {
      if j in matched {
        continue;
      }
      var similarity := sim(o, news[j]);
      if similarity > bestSim {
        best, bestSim := j, similarity;
      }
    }
  }

  /** The first pass over the first `|pairing|` old requirements: the greedy choices and the changes reported. */
  ghost predicate OldsDone(olds: seq<Requirement>, news: seq<Requirement>, threshold: real,
                           sim: (Requirement, Requirement) -> real, pairing: seq<int>, changes: seq<RequirementChange>) {
    && |pairing| == |changes| <= |olds| && PairingValid(pairing, |news|)
    && (forall i :: 0 <= i < |pairing| ==> Chosen(olds[i], news, UsedSet(pairing[..i]), pairing[i], threshold, sim))
    && (forall i :: 0 <= i < |pairing| ==> changes[i] == OldChange(olds, news, pairing, i, sim))
  }

  lemma OldStep(olds: seq<Requirement>, news: seq<Requirement>, threshold: real,
                sim: (Requirement, Requirement) -> real, pairing: seq<int>, changes: seq<RequirementChange>, choice: int)
    requires OldsDone(olds, news, threshold, sim, pairing, changes) && |pairing| < |olds|
    requires Chosen(olds[|pairing|], news, UsedSet(pairing), choice, threshold, sim)
    ensures OldsDone(olds, news, threshold, sim, pairing + [choice],
                     changes + [OldChange(olds, news, pairing + [choice], |pairing|, sim)])
    ensures UsedSet(pairing + [choice]) == UsedSet(pairing) + (if choice == -1 then {} else {choice})
  {
    var i := |pairing|;
    var pairing' := pairing + [choice];
    UsedSetAppend(pairing, choice);
    assert pairing'[..i] == pairing;
    forall i' | 0 <= i' < i ensures pairing'[..i'] == pairing[..i'] { }
    forall i1, i2 | 0 <= i1 < i2 < |pairing'| && pairing'[i1] != -1 ensures pairing'[i1] != pairing'[i2] {
      if i2 == i {
        assert pairing'[i1] in UsedSet(pairing);
      }
    }
  }

  /**
   * The complete result of the two passes: each old requirement in turn takes
   * its best unused new requirement, or is reported removed; the new
   * requirements never taken are reported added, in order.
   */
  ghost predicate RequirementsPaired(olds: seq<Requirement>, news: seq<Requirement>, threshold: real,
                                     sim: (Requirement, Requirement) -> real, pairing: seq<int>,
                                     changes: seq<RequirementChange>) {
    && |pairing| == |olds| <= |changes| == |olds| + |news| - |UsedSet(pairing)|
    && OldsDone(olds, news, threshold, sim, pairing, changes[..|olds|])
    && (forall j :: j in UsedSet(pairing) ==> 0 <= j < |news|)
    && changes[|olds|..] == AddedChanges(news, Unmatched(|news|, UsedSet(pairing)))
  }

  /**
   * The matching loops for a given similarity: each old requirement in turn
   * takes its best unused new requirement when the similarity reaches the
   * threshold and is reported removed otherwise; the new requirements never
   * taken are reported added, in order. `pairing` records the decisions.
   */
  method MatchRequirements(olds: seq<Requirement>, news: seq<Requirement>, threshold: real,
                           sim: (Requirement, Requirement) -> real)
    returns (changes: seq<RequirementChange>, ghost pairing: seq<int>)
    ensures RequirementsPaired(olds, news, threshold, sim, pairing, changes)
  {
    var matchedNew: set<int> := {};
    changes := [];
    pairing := [];
    for i := 0 to |olds|
      invariant |pairing| == i && OldsDone(olds, news, threshold, sim, pairing, changes)
      invariant matchedNew == UsedSet(pairing)
    {
      var best, bestSim := BestMatch(olds[i], news, matchedNew, sim);
      var choice := if best != -1 && bestSim >= threshold then best else -1;
      OldStep(olds, news, threshold, sim, pairing, changes, choice);
      var c := if choice != -1 then PairChange(olds[i], news[best], bestSim) else RemovedChange(olds[i]);
      assert c == OldChange(olds, news, pairing + [choice], i, sim);
      changes := changes + [c];
      if choice != -1 {
        matchedNew := matchedNew + {best};
      }
      pairing := pairing + [choice];
    }
    assert forall j :: j in matchedNew ==> 0 <= j < |news|;
    var firstPart := changes;
    changes := AppendAddedChanges(news, matchedNew, firstPart);
    assert changes[..|olds|] == firstPart;
    assert changes[|olds|..] == AddedChanges(news, Unmatched(|news|, matchedNew));
    UnmatchedLength(|news|, matchedNew);
  }

  /** The second pass: every new requirement outside `used` is appended as added, in order. */
  method AppendAddedChanges(news: seq<Requirement>, used: set<int>, changes0: seq<RequirementChange>)
    returns (changes: seq<RequirementChange>)
    ensures changes == changes0 + AddedChanges(news, Unmatched(|news|, used))
  {
    changes := changes0;
    for j := 0 to |news|
      invariant changes == changes0 + AddedChanges(news, Unmatched(j, used))
    {
      if j !in used {
        assert Unmatched(j + 1, used) == Unmatched(j, used) + [j];
        changes := changes + [AddedChange(news[j])];
      }
    }
  }

  /** Every change the two passes report is classified consistently with its kind. */
  lemma PairedWellClassified(olds: seq<Requirement>, news: seq<Requirement>, threshold: real,
                             sim: (Requirement, Requirement) -> real, pairing: seq<int>,
                             changes: seq<RequirementChange>)
    requires RequirementsPaired(olds, news, threshold, sim, pairing, changes)
    ensures forall k :: 0 <= k < |changes| ==> WellClassified(changes[k])
  {
    var first := changes[..|olds|];
    var idx := Unmatched(|news|, UsedSet(pairing));
    forall k | 0 <= k < |changes| ensures WellClassified(changes[k]) {
      if k < |olds| {
        assert changes[k] == first[k] == OldChange(olds, news, pairing, k, sim);
        if pairing[k] == -1 {
          ChangesWellClassified(olds[k], olds[k], 0.0);
        } else {
          ChangesWellClassified(olds[k], news[pairing[k]], sim(olds[k], news[pairing[k]]));
        }
      } else {
        assert changes[k] == AddedChanges(news, idx)[k - |olds|];
        ChangesWellClassified(news[idx[k - |olds|]], news[idx[k - |olds|]], 0.0);
      }
    }
  }

  /** Greedy requirement matching with the word-set similarity. */
  method CompareRequirements(olds: seq<Requirement>, news: seq<Requirement>, threshold: real)
    returns (changes: seq<RequirementChange>, ghost pairing: seq<int>)
    ensures RequirementsPaired(olds, news, threshold, RequirementSimilarity, pairing, changes)
    ensures forall k :: 0 <= k < |changes| ==> WellClassified(changes[k])
  {
    changes, pairing := MatchRequirements(olds, news, threshold, RequirementSimilarity);
    PairedWellClassified(olds, news, threshold, RequirementSimilarity, pairing, changes);
  }

  // ---------------------------------------------------------------------------
  // Statistics
  // ---------------------------------------------------------------------------

  datatype RequirementStatistics = RequirementStatistics(
    total: nat, byLevel: map<RequirementLevel, nat>, byType: map<RequirementType, nat>,
    prohibitions: nat, averageConfidence: real)

  const AllLevels: seq<RequirementLevel> :=
    [Must, Shall, Required, Should, Recommended, May, Optional, MustNot, ShallNot]
  const AllTypes: seq<RequirementType> :=
    [Functional, NonFunctional, Constraint, Interface, Data, Legal, Business, Unknown]

  lemma AllLevelsListed()
    ensures Distinct(AllLevels) && forall l: RequirementLevel :: l in AllLevels
  {
    forall l: RequirementLevel ensures l in AllLevels {
      match l
      case Must => assert AllLevels[0] == l;
      case Shall => assert AllLevels[1] == l;
      case Required => assert AllLevels[2] == l;
      case Should => assert AllLevels[3] == l;
      case Recommended => assert AllLevels[4] == l;
      case May => assert AllLevels[5] == l;
      case Optional => assert AllLevels[6] == l;
      case MustNot => assert AllLevels[7] == l;
      case ShallNot => assert AllLevels[8] == l;
    }
  }

  lemma AllTypesListed()
    ensures Distinct(AllTypes) && forall t: RequirementType :: t in AllTypes
  {
    forall t: RequirementType ensures t in AllTypes {
      match t
      case Functional => assert AllTypes[0] == t;
      case NonFunctional => assert AllTypes[1] == t;
      case Constraint => assert AllTypes[2] == t;
      case Interface => assert AllTypes[3] == t;
      case Data => assert AllTypes[4] == t;
      case Legal => assert AllTypes[5] == t;
      case Business => assert AllTypes[6] == t;
      case Unknown => assert AllTypes[7] == t;
    }
  }

  function Levels(reqs: seq<Requirement>): (r: seq<RequirementLevel>)
    ensures |r| == |reqs| && forall k :: 0 <= k < |reqs| ==> r[k] == reqs[k].level
  {
    seq(|reqs|, k requires 0 <= k < |reqs| => reqs[k].level)
  }

  function Types(reqs: seq<Requirement>): (r: seq<RequirementType>)
    ensures |r| == |reqs| && forall k :: 0 <= k < |reqs| ==> r[k] == reqs[k].reqType
  {
    seq(|reqs|, k requires 0 <= k < |reqs| => reqs[k].reqType)
  }

  function ProhibitionFlags(reqs: seq<Requirement>): (r: seq<bool>)
    ensures |r| == |reqs| && forall k :: 0 <= k < |reqs| ==> r[k] == reqs[k].isProhibition
  {
    seq(|reqs|, k requires 0 <= k < |reqs| => reqs[k].isProhibition)
  }

  function SumConfidence(reqs: seq<Requirement>): real {
    if reqs == [] then 0.0 else SumConfidence(reqs[..|reqs| - 1]) + reqs[|reqs| - 1].confidence
  }

  predicate ConfidencesInUnit(reqs: seq<Requirement>) {
    forall k :: 0 <= k < |reqs| ==> 0.0 <= reqs[k].confidence <= 1.0
  }

  lemma {:induction false} SumConfidenceBounds(reqs: seq<Requirement>)
    requires ConfidencesInUnit(reqs)
    ensures 0.0 <= SumConfidence(reqs) <= |reqs| as real
  {
    if reqs != [] {
      SumConfidenceBounds(reqs[..|reqs| - 1]);
    }
  }

  /** A count map over a list of all keys adds up to the number of counted elements. */
  lemma CountsCoverAll<T>(m: map<T, nat>, xs: seq<T>, keys: seq<T>)
    requires forall x :: x in m <==> x in xs
    requires forall x :: x in m ==> m[x] == Occurrences(xs, x)
    requires Distinct(keys) && forall x :: x in xs ==> x in keys
    ensures SumOver(m, keys) == |xs|
  {
    SumOverCounts(m, xs, keys);
    SumOccurrencesTotal(xs, keys);
  }

  /** The `by_level` loop; with every level listed once, its counts add up to the total. */
  method CountLevels(reqs: seq<Requirement>) returns (byLevel: map<RequirementLevel, nat>)
    ensures forall l :: l in byLevel <==> l in Levels(reqs)
    ensures forall l :: l in byLevel ==> byLevel[l] == Occurrences(Levels(reqs), l)
    ensures SumOver(byLevel, AllLevels) == |reqs|
  {
    var order;
    byLevel, order := Tally(Levels(reqs));
    AllLevelsListed();
    CountsCoverAll(byLevel, Levels(reqs), AllLevels);
  }

  /** The `by_type` loop; with every type listed once, its counts add up to the total. */
  method CountTypes(reqs: seq<Requirement>) returns (byType: map<RequirementType, nat>)
    ensures forall t :: t in byType <==> t in Types(reqs)
    ensures forall t :: t in byType ==> byType[t] == Occurrences(Types(reqs), t)
    ensures SumOver(byType, AllTypes) == |reqs|
  {
    var order;
    byType, order := Tally(Types(reqs));
    AllTypesListed();
    CountsCoverAll(byType, Types(reqs), AllTypes);
  }

  /** The prohibition count and the confidence sum, one pass each in the source. */
  method ProhibitionsAndConfidence(reqs: seq<Requirement>) returns (prohibitions: nat, sum: real)
    ensures prohibitions == Occurrences(ProhibitionFlags(reqs), true)
    ensures sum == SumConfidence(reqs)
  {
    prohibitions := 0;
    sum := 0.0;
    for k := 0 to |reqs|
      invariant prohibitions == Occurrences(ProhibitionFlags(reqs)[..k], true)
      invariant sum == SumConfidence(reqs[..k])
    {
      assert ProhibitionFlags(reqs)[..k + 1] == ProhibitionFlags(reqs)[..k] + [reqs[k].isProhibition];
      OccurrencesSnoc(ProhibitionFlags(reqs)[..k], reqs[k].isProhibition, true);
      assert reqs[..k + 1][..k] == reqs[..k];
      if reqs[k].isProhibition {
        prohibitions := prohibitions + 1;
      }
      sum := sum + reqs[k].confidence;
    }
    assert reqs[..|reqs|] == reqs;
    assert ProhibitionFlags(reqs)[..|reqs|] == ProhibitionFlags(reqs);
  }

  /**
   * The statistics dictionary: counts per level and per type (only levels and
   * types that occur get a key), the number of prohibitions and the mean
   * confidence; all zero and empty for no requirements.
   */
  method GetStatistics(reqs: seq<Requirement>) returns (st: RequirementStatistics)
    ensures reqs == [] ==> st == RequirementStatistics(0, map[], map[], 0, 0.0)
    ensures st.total == |reqs|
    ensures forall l :: l in st.byLevel <==> l in Levels(reqs)
    ensures forall l :: l in st.byLevel ==> st.byLevel[l] == Occurrences(Levels(reqs), l)
    ensures forall t :: t in st.byType <==> t in Types(reqs)
    ensures forall t :: t in st.byType ==> st.byType[t] == Occurrences(Types(reqs), t)
    ensures SumOver(st.byLevel, AllLevels) == st.total && SumOver(st.byType, AllTypes) == st.total
    ensures st.prohibitions == Occurrences(ProhibitionFlags(reqs), true) <= st.total
    ensures st.averageConfidence == Mean(SumConfidence(reqs), |reqs|)
    ensures ConfidencesInUnit(reqs) ==> 0.0 <= st.averageConfidence <= 1.0
  {
    if reqs == [] {
      SumOverEmpty(AllLevels);
      SumOverEmpty(AllTypes);
      return RequirementStatistics(0, map[], map[], 0, 0.0);
    }
    var byLevel := CountLevels(reqs);
    var byType := CountTypes(reqs);
    var prohibitions, sum := ProhibitionsAndConfidence(reqs);
    var average := Mean(sum, |reqs|);
    if ConfidencesInUnit(reqs) {
      SumConfidenceBounds(reqs);
    }
    st := RequirementStatistics(|reqs|, byLevel, byType, prohibitions, average);
  }
}
