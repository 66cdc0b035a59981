/**
 * Language detection for multilingual comparison: the decisions taken around
 * the detector (short-text guard, Chinese normalisation, document sampling),
 * the per-document language statistics and the translation test. The
 * detector itself is a parameter: `detectLangs(text)` is its ranked list of
 * candidates, `None` when it raises.
 */
module LanguageDetector {
  import opened Wrappers
  import opened TextUtil
  import opened Counting

  datatype LanguageResult = LanguageResult(language: string, confidence: real, languageName: string)

  /** One entry of the detector's ranking. */
  datatype Candidate = Candidate(lang: string, prob: real)

  /** The detector: its ranking of a text, `None` when it raises. */
  type Detector = string -> Option<seq<Candidate>>

  const SupportedLanguages: map<string, string> := map[
    "en" := "English",
    "de" := "German",
    "zh-cn" := "Chinese (Simplified)",
    "zh-tw" := "Chinese (Traditional)",
    "fr" := "French",
    "es" := "Spanish",
    "it" := "Italian",
    "pt" := "Portuguese",
    "ru" := "Russian",
    "ja" := "Japanese",
    "ko" := "Korean"
  ]

  const PrimaryLanguages: seq<string> := ["en", "de", "zh-cn"]

  predicate IsSupported(code: string) {
    code in SupportedLanguages
  }

  predicate IsPrimaryLanguage(code: string) {
    code in PrimaryLanguages
  }

  /** Every primary language is a supported one. */
  lemma PrimaryLanguagesSupported(code: string)
    requires IsPrimaryLanguage(code)
    ensures IsSupported(code)
  {
    assert code == "en" || code == "de" || code == "zh-cn";
  }

  /** Both Chinese variants count as simplified Chinese. */
  function NormalizeChinese(code: string): (r: string)
    ensures r != "zh-tw"
    ensures (code == "zh-cn" || code == "zh-tw") <==> r == "zh-cn"
    ensures r != "zh-cn" ==> r == code
  {
    if code == "zh-cn" || code == "zh-tw" then "zh-cn" else code
  }

  /** The supported language's name, else the upper-cased code marked as detected. */
  function DetectedName(code: string): string {
    if code in SupportedLanguages then SupportedLanguages[code] else Upper(code) + " (detected)"
  }

  /** The supported language's name, else the upper-cased code. */
  function PrimaryName(code: string): (r: string)
    ensures IsSupported(code) ==> r == SupportedLanguages[code]
  {
    if code in SupportedLanguages then SupportedLanguages[code] else Upper(code)
  }

  /**
   * `detect_language`: English with confidence 0.5 without a detector; English
   * with confidence 0 for a text of fewer than 3 characters once stripped, an
   * empty ranking or a failing detector; otherwise the top candidate, with
   * traditional Chinese reported as simplified.
   */
  function DetectLanguage(text: string, available: bool, detectLangs: Detector): (r: LanguageResult)
    ensures r.language != "zh-tw"
    ensures !available ==> r.language == "en" && r.confidence == 0.5
    ensures available && |Strip(text)| < 3 ==> r.language == "en" && r.confidence == 0.0
    ensures available && |Strip(text)| >= 3 && (detectLangs(text).None? || detectLangs(text).value == []) ==>
      r.language == "en" && r.confidence == 0.0
    ensures available && |Strip(text)| >= 3 && detectLangs(text).Some? && detectLangs(text).value != [] ==>
      var top := detectLangs(text).value[0];
      && r.confidence == top.prob
      && (top.lang != "zh-tw" ==> r.language == top.lang)
      && (top.lang == "zh-tw" ==> r.language == "zh-cn")
      && (IsSupported(r.language) ==> r.languageName == SupportedLanguages[r.language])
  {
    if !available then LanguageResult("en", 0.5, "English (default)")
    else if |Strip(text)| < 3 then LanguageResult("en", 0.0, "Unknown (text too short)")
    else match detectLangs(text)
      case None => LanguageResult("en", 0.0, "English (error fallback)")
      case Some(langs) =>
        if langs == [] then LanguageResult("en", 0.0, "English (default)")
        else
          var code := NormalizeChinese(langs[0].lang);
          LanguageResult(code, langs[0].prob, DetectedName(code))
  }

  /** Python's `xs[:k]`: a negative bound counts from the end. */
  function PrefixSlice<T>(xs: seq<T>, k: int): (r: seq<T>)
    ensures 0 <= k ==> r == xs[..Min(k, |xs|)]
    ensures k < 0 ==> r == xs[..Max(0, |xs| + k)]
  {
    if k >= |xs| then xs
    else if k >= 0 then xs[..k]
    else if |xs| + k > 0 then xs[..|xs| + k]
    else []
  }

  /**
   * `detect_document_language`: English with confidence 0 for no paragraphs,
   * otherwise the detection of the first `sampleSize` paragraphs joined by
   * spaces.
   */
  function DetectDocumentLanguage(paragraphs: seq<string>, sampleSize: int, available: bool, detectLangs: Detector)
    : (r: LanguageResult)
    ensures paragraphs == [] ==> r.language == "en" && r.confidence == 0.0
    ensures paragraphs != [] && 0 <= sampleSize ==>
      r == DetectLanguage(Join(" ", paragraphs[..Min(sampleSize, |paragraphs|)]), available, detectLangs)
  {
    if paragraphs == [] then LanguageResult("en", 0.0, "English (no content)")
    else DetectLanguage(Join(" ", PrefixSlice(paragraphs, Min(sampleSize, |paragraphs|))), available, detectLangs)
  }

  /** The language detected for each paragraph, in order (`detect_per_paragraph`). */
  function Languages(paragraphs: seq<string>, available: bool, detectLangs: Detector): (r: seq<string>)
    ensures |r| == |paragraphs|
    ensures forall k :: 0 <= k < |r| ==> r[k] == DetectLanguage(paragraphs[k], available, detectLangs).language
  {
    seq(|paragraphs|, k requires 0 <= k < |paragraphs| => DetectLanguage(paragraphs[k], available, detectLangs).language)
  }

  /**
   * The statistics of a document's languages. For no paragraphs only the
   * primary language, the counts, the multilingual flag and the total are
   * reported; the other three entries are `None` then.
   */
  datatype LanguageStatistics = LanguageStatistics(
    primaryLanguage: string,
    primaryLanguageName: Option<string>,
    languageCounts: map<string, nat>,
    /** The key order of `languageCounts`: first occurrence. */
    order: seq<string>,
    languagePercentages: Option<map<string, real>>,
    isMultilingual: bool,
    totalParagraphs: nat,
    languagesPresent: Option<nat>)

  /** A language is significant when more than a tenth of the paragraphs are in it. */
  predicate IsSignificant(count: nat, total: nat) {
    total > 0 && (count as real) / (total as real) > 0.1
  }

  lemma SignificantIsTenth(count: nat, total: nat)
    requires total > 0
    ensures IsSignificant(count, total) <==> 10 * count > total
  {
    var c, t := count as real, total as real;
    var q := c / t;
    DivMul(c, t);
    var k := 0.1;
    if 10 * count > total {
      assert k * t < c;
      CancelLt(k, q, t, c);
    } else {
      assert c <= k * t;
      CancelLe(q, k, t, c);
    }
  }

  /** A quotient `q` with `q * t == c` lies above `k` when `c` lies above `k * t`. */
  lemma CancelLt(k: real, q: real, t: real, c: real)
    requires t > 0.0 && q * t == c && k * t < c
    ensures k < q
  {
    assert (q - k) * t > 0.0;
  }

  /** A quotient `q` with `q * t == c` lies at most at `k` when `c` lies at most at `k * t`. */
  lemma CancelLe(q: real, k: real, t: real, c: real)
    requires t > 0.0 && q * t == c && c <= k * t
    ensures q <= k
  {
    assert (k - q) * t >= 0.0;
  }

  lemma DivMul(c: real, t: real)
    requires t > 0.0
    ensures (c / t) * t == c
  {
  }

  /** `pct` is `count` as a percentage of `total`. */
  predicate IsPercentOf(pct: real, count: nat, total: nat) {
    pct * (total as real) == (count as real) * 100.0
  }

  /** A count as a percentage of a positive total. */
  function Percent(count: nat, total: nat): (p: real)
    requires total > 0
    ensures IsPercentOf(p, count, total)
  {
    (count as real) / (total as real) * 100.0
  }

  /** Every key listed in `order` has a count. */
  predicate KeysListed(order: seq<string>, counts: map<string, nat>) {
    forall k :: 0 <= k < |order| ==> order[k] in counts
  }

  /** Each language's share of a positive total, as a percentage. */
  function Percentages(counts: map<string, nat>, total: nat): (p: map<string, real>)
    requires total > 0
    ensures forall x :: x in p <==> x in counts
    ensures forall x :: x in p ==> IsPercentOf(p[x], counts[x], total)
  {
    map x | x in counts :: Percent(counts[x], total)
  }

  /** The significant languages, in key order. */
  function Significant(counts: map<string, nat>, order: seq<string>, total: nat): (r: seq<string>)
    ensures |r| <= |order|
  {
    if order == [] then []
    else
      var n := |order| - 1;
      Significant(counts, order[..n], total)
        + (if order[n] in counts && IsSignificant(counts[order[n]], total) then [order[n]] else [])
  }

  lemma {:induction false} SignificantMembers(counts: map<string, nat>, order: seq<string>, total: nat, x: string)
    requires KeysListed(order, counts)
    ensures x in Significant(counts, order, total) <==> x in order && IsSignificant(counts[x], total)
  {
    if order != [] {
      var n := |order| - 1;
      SignificantMembers(counts, order[..n], total, x);
      assert order == order[..n] + [order[n]];
    }
  }

  /** `order[i]` is the first key of `order` with the largest count: Python's `max` by count. */
  predicate FirstMaximumAt(order: seq<string>, counts: map<string, nat>, i: nat) {
    && KeysListed(order, counts)
    && i < |order|
    && (forall j :: 0 <= j < |order| ==> counts[order[j]] <= counts[order[i]])
    && (forall j :: 0 <= j < i ==> counts[order[j]] < counts[order[i]])
  }

  method FirstMaximum(order: seq<string>, counts: map<string, nat>) returns (best: nat)
    requires order != [] && KeysListed(order, counts)
    ensures FirstMaximumAt(order, counts, best)
  {
    best := 0;
    for i := 1 to |order|
      invariant best < i
      invariant forall j :: 0 <= j < i ==> counts[order[j]] <= counts[order[best]]
      invariant forall j :: 0 <= j < best ==> counts[order[j]] < counts[order[best]]
    {
      if counts[order[i]] > counts[order[best]] {
        best := i;
      }
    }
  }

  /**
   * `get_language_statistics`: the languages are counted per paragraph in
   * first-occurrence order; the primary language is the first most frequent
   * one; the document is multilingual when more than one language is
   * significant.
   */
  method GetLanguageStatistics(paragraphs: seq<string>, available: bool, detectLangs: Detector)
    returns (st: LanguageStatistics)
    ensures paragraphs == [] ==> st == LanguageStatistics("en", None, map[], [], None, false, 0, None)
    ensures paragraphs != [] ==> StatisticsOf(st, Languages(paragraphs, available, detectLangs))
  {
    if paragraphs == [] {
      return LanguageStatistics("en", None, map[], [], None, false, 0, None);
    }
    var langs := Languages(paragraphs, available, detectLangs);
    st := Summarize(langs);
  }

  /** The statistics of the detected languages of a non-empty document. */
  method Summarize(langs: seq<string>) returns (st: LanguageStatistics)
    requires langs != []
    ensures StatisticsOf(st, langs)
  {
    var counts, order := Tally(langs);
    var total := |langs|;
    var best := FirstMaximum(order, counts);
    var primary := order[best];
    var name := PrimaryName(primary);
    var percentages := Percentages(counts, total);
    var significant := Significant(counts, order, total);
    st := LanguageStatistics(primary, Some(name), counts, order, Some(percentages), |significant| > 1, total, Some(|order|));
    SumOverCounts(counts, langs, order);
    SumOccurrencesTotal(langs, order);
    assert CountsReported(st, langs);
    assert PrimaryReported(st) by {
      assert FirstMaximumAt(st.order, st.languageCounts, best);
    }
  }

  /** The statistics of a non-empty document whose paragraphs are in the languages `langs`. */
  ghost predicate StatisticsOf(st: LanguageStatistics, langs: seq<string>) {
    CountsReported(st, langs) && PrimaryReported(st) && SharesReported(st)
  }

  /** One count per distinct language, in first-occurrence order, adding up to the paragraphs. */
  ghost predicate CountsReported(st: LanguageStatistics, langs: seq<string>) {
    && st.totalParagraphs == |langs|
    && (forall x :: x in st.languageCounts <==> x in langs)
    && (forall x :: x in st.languageCounts ==> st.languageCounts[x] == Occurrences(langs, x))
    && st.order == FirstOccurrences(langs)
    && SumOver(st.languageCounts, st.order) == st.totalParagraphs
  }

  /** The primary language is the first most frequent one, named when supported. */
  ghost predicate PrimaryReported(st: LanguageStatistics) {
    && (exists i: nat :: FirstMaximumAt(st.order, st.languageCounts, i) && st.order[i] == st.primaryLanguage)
    && st.primaryLanguageName.Some?
    && (IsSupported(st.primaryLanguage) ==> st.primaryLanguageName.value == SupportedLanguages[st.primaryLanguage])
  }

  /** The multilingual flag, the number of languages and each language's percentage. */
  ghost predicate SharesReported(st: LanguageStatistics) {
    && (st.isMultilingual <==> |Significant(st.languageCounts, st.order, st.totalParagraphs)| > 1)
    && st.languagesPresent == Some(|st.order|)
    && st.languagePercentages.Some?
    && (forall x :: x in st.languagePercentages.value <==> x in st.languageCounts)
    && (forall x :: x in st.languagePercentages.value && x in st.languageCounts ==>
          IsPercentOf(st.languagePercentages.value[x], st.languageCounts[x], st.totalParagraphs))
  }

  /**
   * `needs_translation`: compared without case, a text needs translating
   * unless the two codes agree or both name a Chinese variant.
   */
  predicate NeedsTranslation(source: string, target: string) {
    var s, t := Lower(source), Lower(target);
    !(s == t || ((s == "zh-cn" || s == "zh-tw") && (t == "zh-cn" || t == "zh-tw")))
  }

  lemma NeedsTranslationProperties(source: string, target: string)
    ensures !NeedsTranslation(source, source)
    ensures NeedsTranslation(source, target) == NeedsTranslation(target, source)
    ensures NeedsTranslation(source, target) == NeedsTranslation(Lower(source), Lower(target))
    ensures NeedsTranslation(source, target) ==> Lower(source) != Lower(target)
    ensures !NeedsTranslation(source, target) ==> Lower(source) == Lower(target) || NormalizeChinese(Lower(source)) == "zh-cn" == NormalizeChinese(Lower(target))
  {
    LowerIdempotent(source);
    LowerIdempotent(target);
  }
}
