# Semantic document comparison, modelled in Dafny

This project models the decision logic of a toolkit that compares two
versions of a document: paragraphs paired through a similarity matrix and
labelled as unchanged, modified, moved, added or deleted, with a severity and
an explanation; requirement sentences detected by keyword (RFC 2119 levels,
with German keywords), classified and matched across versions; document
sections arranged into a hierarchy and matched by title and content; headings
recognised and paired for navigation; line diffs post-processed; text split
into paragraphs and split paragraphs merged; and per-document language
statistics.

Each Python file of the core is one Dafny module:

| module | file | what it holds |
|---|---|---|
| `SemanticComparator` | semantic_comparator.py | the paragraph pairing pipeline: matrix, optimal-assignment post-processing, greedy fallback, moves, severity, explanations, result |
| `SemanticEmbedder` | semantic_embedder.py | cosine similarity, the similarity matrix, the `EmbeddingCache` class and cache-aware batch embedding |
| `RequirementAnalyzer` | requirement_analyzer.py | level detection, type classification, confidence, Jaccard similarity, requirement matching, statistics |
| `PdfCompare` | pdf_compare.py | the `Section` class, the stack-based hierarchy, section matching, the summary, critical changes, structural changes |
| `PdfCompareOptimized` | pdf_compare_optimized.py | page numbers, running headers and footers, heading filters and levels, heading matching, dropdown options |
| `SmartDiff` | smart_diff.py | the line diff's empty-text cases and opcode expansion, moved lines, statistics, key changes, grouping |
| `ParagraphExtractor` | paragraph_extractor.py | paragraph segmentation with and without structure, paragraph types, merging of split paragraphs |
| `LanguageDetector` | language_detector.py | the guards around the detector, document sampling, language statistics, the translation test |

`Wrappers` (optional values), `TextUtil` (ASCII versions of Python's string
methods), `Counting` (counting dictionaries with their key order) and
`Indices` (index sets and unused indices) are shared helpers.

Where the Python code mutates objects in place (the embedding cache, the
sections' `children` and `parent_id`, the comparators' summaries) the model
uses classes with `modifies` clauses; loops that grow lists and sets are
methods with loop invariants, proved against specification functions about
which the lemmas state the promised properties. The foreign pieces (the
sentence encoder, the optimal assignment solver, difflib's scores and
opcodes, the language detector, sentence splitting) are parameters of the
operations that use them.

## Model

| member | source | states |
|---|---|---|
| SemanticComparator.PairType | semantic_comparator.py:321-322 | an accepted pair is `UNCHANGED` iff its similarity is above 0.95, and `MODIFIED` otherwise |
| SemanticComparator.AppendUnmatched | semantic_comparator.py:336-360 | after the pairs come one `DELETED` entry per unpaired old paragraph, then one `ADDED` entry per unpaired new paragraph, both in index order |
| SemanticComparator.PairPrefix | semantic_comparator.py:312-334 | the pairs form the leading entries of the result; every pair has both indices set, and the first leftover has `-1` on one side |
| SemanticComparator.LayoutComplete | semantic_comparator.py:313-360 | every old index occurs exactly once in the result, paired or `DELETED`, and so does every new index, paired or `ADDED`; padding never appears; `len(matches) = n_old + n_new - accepted` |
| SemanticComparator.LeftoversUnpaired | semantic_comparator.py:336-360 | every leftover entry has `-1` on one side |
| SemanticComparator.BestCell | semantic_comparator.py:379-393 | the scan returns a free cell of maximal similarity, the first such cell in row-major order (strict `>`), or `(-1, -1)` with 0 when no free cell is above 0 |
| SemanticComparator.GreedyPairs | semantic_comparator.py:371-410 | the greedy pairs are accepted cells (similarity at or above the threshold, typed by `PairType`) on distinct rows and columns; each pair is the best free cell at its turn, and every cell still free at the end is below the threshold; terminates when the threshold is positive |
| SemanticComparator.GreedyNonIncreasing | semantic_comparator.py:379-410 | greedy takes its pairs in non-increasing order of similarity |
| SemanticComparator.GreedyMatching | semantic_comparator.py:364-429 | greedy pairs, then the leftovers of exactly those pairs; every old and every new index is covered once; `len(matches) = n_old + n_new - accepted` |
| SemanticComparator.KeptPairsValid | semantic_comparator.py:313-334 | the pairs kept from a valid assignment are accepted cells on distinct rows and distinct columns |
| SemanticComparator.KeptPairsAssigned | semantic_comparator.py:313-334 | every kept pair is a cell of the assignment |
| SemanticComparator.KeptPairsComplete | semantic_comparator.py:313-334 | every assigned cell inside the real matrix whose similarity reaches the threshold is kept; padding is skipped |
| SemanticComparator.AssignedPairs | semantic_comparator.py:308-334 | the loop over the assignment yields exactly the kept pairs, and its matched sets are their indices |
| SemanticComparator.FindOptimalMatches | semantic_comparator.py:276-362 | with a solver assignment, the pairs are exactly those kept from it; without one, the greedy fallback's pairs; either way the leftovers follow and every index is covered exactly once |
| SemanticComparator.WithMoveDetected | semantic_comparator.py:437-444 | a match changes iff it is `MODIFIED`, its similarity is at least the move threshold and its indices are more than 2 apart; it then becomes `MOVED` with `is_moved` set; indices, texts and similarity never change |
| SemanticComparator.DetectMoves | semantic_comparator.py:431-446 | every match of the array is replaced by its move-detected version |
| SemanticComparator.Severity | semantic_comparator.py:450-468 | the first-rule-wins ladder, as one if-and-only-if per outcome: `UNCHANGED` gives `TRIVIAL`; a keyword in the lowercased `old + " " + new` gives `CRITICAL`; `ADDED`/`DELETED` or similarity below 0.5 gives `MAJOR`; below 0.85 gives `MINOR`; otherwise `TRIVIAL` |
| SemanticComparator.ClassifySeverity | semantic_comparator.py:448-470 | every match gets the severity of the ladder, and nothing else of it changes |
| SemanticComparator.ExplanationFor | semantic_comparator.py:474-485 | one template per change type, chosen iff the match has that type, never blank; positions are counted from 1; a modified pair's percentage lies in [0, 100] |
| SemanticComparator.GenerateExplanations | semantic_comparator.py:472-487 | every match gets the explanation of its type, and nothing else of it changes |
| SemanticComparator.CountsPartition | semantic_comparator.py:503-513 | the five type counts add up to the number of matches |
| SemanticComparator.WithSeverity | semantic_comparator.py:515-519 | the critical (or major) list is no longer than the matches and holds only matches of that severity |
| SemanticComparator.WithSeverityComplete | semantic_comparator.py:515-519 | no match of that severity is left out of its list |
| SemanticComparator.SumSimilarityBounds | semantic_comparator.py:521-524 | similarities in [0, 1] add up to at most the number of matches |
| SemanticComparator.Tally | semantic_comparator.py:502-519 | one pass gives each type count, the critical and major lists and the similarity total |
| SemanticComparator.BuildResult | semantic_comparator.py:489-526 | the result holds the matches and totals; the counts partition the matches; the critical and major lists are the severity filters; the average is sum/len, or 0 for no matches, and lies in [0, 1] when the similarities do |
| SemanticComparator.LayoutEntries | semantic_comparator.py:313-360 | fresh matches are not yet moved, and leftovers have similarity 0; with similarities in [0, 1] every match's is too; when no cell reaches the threshold, nothing is paired and every match is `DELETED` or `ADDED` |
| SemanticComparator.Annotated | semantic_comparator.py:224-234 | move detection, then severity, then explanation: the match keeps its indices, texts and similarity, and ends with the severity and explanation of its final type; `is_moved` holds iff the type is `MOVED` |
| SemanticComparator.Annotate | semantic_comparator.py:224-234 | the three passes annotate every match, and the index columns do not change |
| SemanticComparator.MatchAndAnnotate | semantic_comparator.py:216-234 | the output is a layout `_find_optimal_matches` can produce (the solver's kept cells or a greedy, exhausted choice, then the leftovers) with each match moved, classified and explained in that order; every old and new index is covered once, each match has its ladder severity and its explanation, and `is_moved` holds iff it is `MOVED` |
| SemanticComparator.ProcessMatches | semantic_comparator.py:214-241 | the pipeline after the matrix: the matches are the annotated pairing layout; each count is the number of matches of its type, the critical and major lists are the severity filters, and the average is the mean similarity of the matches, in [0, 1]; every index is covered once; when no cell reaches the threshold, every paragraph is reported as deleted or added |
| SemanticComparator.SemanticComparator.constructor | semantic_comparator.py:158-184 | a given embedder is kept, otherwise a fresh default one is made; the thresholds are stored; an empty or missing keyword list falls back to the thirteen defaults |
| SemanticComparator.SemanticComparator.CompareParagraphs | semantic_comparator.py:190-251 | the whole comparison: the matches are the annotated pairing layout over the matrix `compute_similarity_matrix` builds from the cache as it was; counts, severity lists and average are those of the matches; both totals are recorded and every index is covered once; without numpy (all cells 0) and with a positive threshold, every paragraph is reported as deleted or added |
| SemanticEmbedder.CosineSimilarity | semantic_embedder.py:84-106 | the similarity lies in [0, 1]; it is 0 without numpy, and (dot + 1) / 2 whenever the normalised dot product lies in [-1, 1] |
| SemanticEmbedder.Cell | semantic_comparator.py:269-272 | a matrix cell lies in [0, 1] and is 0.0 when either embedding is missing or numpy is absent |
| SemanticEmbedder.BuildSimilarityMatrix | semantic_comparator.py:253-274 | the table is `n_old x n_new`; each cell is the pair's similarity, lies in [0, 1], and is 0.0 where an embedding is missing or numpy is absent |
| SemanticEmbedder.EmbeddingCache.constructor | semantic_embedder.py:117-121 | a new cache is empty with both counters at zero |
| SemanticEmbedder.EmbeddingCache.Get | semantic_embedder.py:123-141 | a lookup returns the stored embedding for the (model, text) key, if there is one, and that embedding is of the text looked up; a hit increments `hits` and a miss increments `misses`, exactly one of the two; the entries do not change |
| SemanticEmbedder.EmbeddingCache.Set | semantic_embedder.py:143-152 | the embedding is stored under its text and the model name, overwriting any earlier one; the counters do not change |
| SemanticEmbedder.EmbeddingCache.Clear | semantic_embedder.py:159-163 | the cache is emptied and both counters are reset |
| SemanticEmbedder.EmbeddingCache.GetStatistics | semantic_embedder.py:165-176 | reports the size and both counters; the hit rate is 100·hits/(hits+misses), or 0 before any lookup, and lies in [0, 100] |
| SemanticEmbedder.SetThenGet | semantic_embedder.py:123-152 | round trip: after storing an embedding, looking up its text under the same model returns it |
| SemanticEmbedder.Pending | semantic_embedder.py:325-336 | the indices left to embed are uncached texts, in strictly increasing order |
| SemanticEmbedder.PendingComplete | semantic_embedder.py:325-336 | every uncached text is among the indices left to embed |
| SemanticEmbedder.PlacedAt | semantic_embedder.py:352-366 | writing the encoded embeddings back by pending index puts each at its own index and leaves every other index alone |
| SemanticEmbedder.StoredKeeps | semantic_embedder.py:366-368 | storing the encoded embeddings keeps every earlier key, adds the (model, text) key of each, and keeps every entry filed under its own text |
| SemanticEmbedder.BatchEmbeddingsAt | semantic_embedder.py:294-378 | index by index, what `embed_batch` returns for given cache entries: the cached embeddings when all texts are cached; all `None` when the model is missing or encoding fails; otherwise cached texts keep their cached embedding and each uncached text gets its own vector with its text, the model name and its language, or `None` past the encoder's output |
| SemanticEmbedder.BatchEmbeddingsMatchTexts | semantic_embedder.py:318-368 | every embedding a batch returns is of the text at its own index, and one that was not cached carries the embedder's model name and the text's language |
| SemanticEmbedder.PlacedEncoded | semantic_embedder.py:352-368 | writing the encoded embeddings back leaves non-pending positions alone, puts the t-th vector's embedding at the t-th pending index, and leaves pending positions past the encoder's output as they were |
| SemanticEmbedder.BatchEntries | semantic_embedder.py:352-368 | the entries after a batch keep every earlier key and keep every entry filed under its own text |
| SemanticEmbedder.BatchCachesEverything | semantic_embedder.py:318-368 | once the encoder covers every pending text, the batch caches all of them: running it again leaves nothing to embed and finds each text's own embedding |
| SemanticEmbedder.SemanticEmbedder.constructor | semantic_embedder.py:187-213 | the embedder keeps its model name; it has a fresh, empty cache iff caching is enabled |
| SemanticEmbedder.SemanticEmbedder.LookupCached | semantic_embedder.py:320-336 | the cache pass leaves a cached embedding or a `None` placeholder at every position; the texts to embed are the uncached ones, with their indices, in order; the entries do not change, `hits` grows by the number of cached texts and `misses` by the number of uncached ones |
| SemanticEmbedder.SemanticEmbedder.StoreEncoded | semantic_embedder.py:352-368 | the i-th encoded vector lands at the i-th pending index, with that text and its language, and is written to the cache under its text and the model name, in order; every other position is unchanged; pending indices beyond the encoder's output stay `None`; the counters do not change |
| SemanticEmbedder.SemanticEmbedder.EmbedBatch | semantic_embedder.py:294-378 | the output is `BatchEmbeddings` of the entries beforehand, whose content index by index `BatchEmbeddingsAt` gives; the cache afterwards holds the entries `BatchEntries` gives (every newly encoded embedding stored); `hits` grows by the number of cached texts and `misses` by the number of uncached ones |
| SemanticEmbedder.SemanticEmbedder.SimilarityOf | semantic_embedder.py:423-460 | the matrix built from given cache entries is `len(texts1) x len(texts2)`, its cells lie in [0, 1] and are all zero without numpy |
| SemanticEmbedder.SemanticEmbedder.ComputeSimilarityMatrix | semantic_embedder.py:423-460 | each cell is the similarity of the i-th embedding of the first batch and the j-th of the second (0.0 where one is missing), the second batch running against the cache the first leaves behind; the cache ends with the entries of both batches; the matrix is `len(texts1) x len(texts2)` with cells in [0, 1], all zero without numpy |
| RequirementAnalyzer.Hits | requirement_analyzer.py:333-337 | the keywords found are list keywords that occur in the text, in list order, at most one per keyword |
| RequirementAnalyzer.HitsComplete | requirement_analyzer.py:333-337 | every list keyword that occurs in the text is found |
| RequirementAnalyzer.HitsEmpty | requirement_analyzer.py:339 | nothing is found exactly when no keyword of the list occurs |
| RequirementAnalyzer.CollectHits | requirement_analyzer.py:358-360 | the keyword loop appends exactly the keywords found to the list it extends |
| RequirementAnalyzer.CheckProhibition | requirement_analyzer.py:331-339 | the flag is set iff a prohibition keyword occurs, and the list holds exactly the prohibition keywords found |
| RequirementAnalyzer.LadderKeywords | requirement_analyzer.py:341-410 | a level is found iff keywords are returned with it; outside a prohibition every keyword returned occurs in the text |
| RequirementAnalyzer.LadderFindsRequirements | requirement_analyzer.py:341-410 | with the prohibition flag the scan computes, a level is found exactly for text holding a keyword of an active list |
| RequirementAnalyzer.ShallHit | requirement_analyzer.py:362-365 | "shall" is among the MUST hits (which makes the level SHALL) iff it occurs |
| RequirementAnalyzer.DetectLevel | requirement_analyzer.py:341-410 | the staged scan: prohibition gives MUST_NOT/SHALL_NOT, then MUST/SHALL, German MUST, SHOULD, German SHOULD, MAY, German MAY, with the keywords accumulated over the stages passed |
| RequirementAnalyzer.DetectWeakerLevel | requirement_analyzer.py:375-410 | the SHOULD and MAY stages reached after no MUST hit |
| RequirementAnalyzer.DetectMayLevel | requirement_analyzer.py:391-410 | the MAY stages reached after no SHOULD hit |
| RequirementAnalyzer.Scores | requirement_analyzer.py:414-437 | one score per scored type, in recording order: the number of that type's keywords present |
| RequirementAnalyzer.FirstMaxIndex | requirement_analyzer.py:441 | Python's `max` with a key: a position of the largest score, with no earlier position reaching it |
| RequirementAnalyzer.ClassifyType | requirement_analyzer.py:412-445 | `UNKNOWN` iff every score is 0; otherwise the first type of highest score |
| RequirementAnalyzer.ClassifyUnknownIff | requirement_analyzer.py:440-445 | `UNKNOWN` exactly when no keyword of any scored type occurs |
| RequirementAnalyzer.ConfidenceTenths | requirement_analyzer.py:447-477 | the confidence in tenths lies in 5..10, is at least 6 with a keyword, and is 10 iff there are at least two keywords, a known type and 5..50 words |
| RequirementAnalyzer.Confidence | requirement_analyzer.py:447-477 | the confidence lies in [0.5, 1.0] |
| RequirementAnalyzer.SentenceRequirement | requirement_analyzer.py:276-329 | a sentence yields a requirement exactly when it holds a keyword of an active list and its confidence reaches the minimum; the requirement keeps the sentence and its position, its prohibition flag says whether a prohibition phrase occurs, its level and keywords are the ladder's plus the prohibition keywords, its type is the classifier's and its confidence is the computed one, at least 0.6; with a minimum of at most 0.6 every keyword sentence qualifies, above 1.0 none does |
| RequirementAnalyzer.AnalyzeSentence | requirement_analyzer.py:276-329 | the result is `SentenceRequirement` of the sentence: the analysis of one sentence, confidence cut-off included |
| RequirementAnalyzer.KeywordSentencesQualify | requirement_analyzer.py:298-312 | with a minimum confidence of at most 0.6, every sentence holding a keyword yields a requirement |
| RequirementAnalyzer.AnalyzeParagraphs | requirement_analyzer.py:239-267 | the requirements are exactly the analyses of the sentences that yield one, in document order: each is `SentenceRequirement` of the sentence at its recorded paragraph and sentence index, and every sentence that yields a requirement is reported; with a minimum of at most 0.6 every keyword sentence is reported |
| RequirementAnalyzer.AnalyzeText | requirement_analyzer.py:216-237 | the same over one text: paragraph index 0, sentence indices strictly increasing, each requirement the analysis of its sentence, and every sentence that yields a requirement reported |
| RequirementAnalyzer.AnalyzeParagraph | requirement_analyzer.py:258-265 | the inner sentence loop extends the scanned prefix by one paragraph |
| RequirementAnalyzer.RequirementSimilarity | requirement_analyzer.py:571-590 | the Jaccard index of the lowercase word sets lies in [0, 1] and is 0 when either set is empty |
| RequirementAnalyzer.SimilaritySymmetric | requirement_analyzer.py:581-590 | the similarity does not depend on the order of its arguments |
| RequirementAnalyzer.SimilarityOne | requirement_analyzer.py:581-590 | for non-empty word sets the similarity is 1 iff the word sets agree, and positive iff they share a word |
| RequirementAnalyzer.SimilarityOfEqualTexts | requirement_analyzer.py:581-590 | a requirement with words is fully similar to one with the same text |
| RequirementAnalyzer.ChangesWellClassified | requirement_analyzer.py:514-565 | a level change is `level_changed`/critical, a text change `modified`/major, otherwise `unchanged`/minor; a removal is critical; an addition is major iff its level is MUST or SHALL |
| RequirementAnalyzer.BestMatch | requirement_analyzer.py:500-510 | the scan returns the first unused new requirement of highest positive similarity, or none when no unused one is above 0 |
| RequirementAnalyzer.OldStep | requirement_analyzer.py:496-553 | one old requirement's greedy decision extends the first pass and its used set |
| RequirementAnalyzer.MatchRequirements | requirement_analyzer.py:491-567 | each old requirement in turn takes its best unused new requirement when that reaches the threshold, else is removed; the unused new requirements follow as added, in order |
| RequirementAnalyzer.AppendAddedChanges | requirement_analyzer.py:555-565 | the second pass appends exactly the never-taken new requirements, in order |
| RequirementAnalyzer.PairedWellClassified | requirement_analyzer.py:514-565 | every change reported carries the kind and severity that its requirements call for |
| RequirementAnalyzer.CompareRequirements | requirement_analyzer.py:479-569 | the matching with the word-set similarity, every change well classified |
| RequirementAnalyzer.AllLevelsListed | requirement_analyzer.py:25-36 | every level is listed exactly once |
| RequirementAnalyzer.AllTypesListed | requirement_analyzer.py:38-49 | every type is listed exactly once |
| RequirementAnalyzer.SumConfidenceBounds | requirement_analyzer.py:616-617 | confidences in [0, 1] add up to at most the number of requirements |
| RequirementAnalyzer.CountLevels | requirement_analyzer.py:603-607 | the level map counts each level that occurs, and its counts add up to the total |
| RequirementAnalyzer.CountTypes | requirement_analyzer.py:609-613 | the type map counts each type that occurs, and its counts add up to the total |
| RequirementAnalyzer.ProhibitionsAndConfidence | requirement_analyzer.py:615-617 | the prohibition count and the confidence sum |
| RequirementAnalyzer.GetStatistics | requirement_analyzer.py:592-628 | empty input gives all zeros; otherwise total, per-level and per-type counts that add up to the total, the prohibition count, and the mean confidence, in [0, 1] when the confidences are |
| PdfCompare.DefaultSectionId | pdf_compare.py:27-30 | the default id is the level, `_`, then the first 50 title characters with every space made `_`; no space is left after the prefix |
| PdfCompare.Section.constructor | pdf_compare.py:17-30 | the fields are stored, an empty id is replaced by the default id, the id is never empty, and the children list starts empty |
| PdfCompare.Parent | pdf_compare.py:186-194 | the parent of a section is the nearest earlier section of a smaller level, or none (-1) |
| PdfCompare.NearestBelowUnique | pdf_compare.py:186-188 | any index meeting that characterisation is the parent |
| PdfCompare.ChildIdxIncreasing | pdf_compare.py:191-196 | each children list and the root list are in document order |
| PdfCompare.ChildIdxMembers | pdf_compare.py:191-196 | a section is listed under a parent iff that is its parent, and among the roots iff it has none |
| PdfCompare.AncestorChainIncreasing | pdf_compare.py:183-199 | the stack holds an ancestor chain: indices and levels strictly increase from bottom to top |
| PdfCompare.PopStep | pdf_compare.py:187-188 | popping a top at least as deep as the current section leaves that top's parent on top |
| PdfCompare.PopDeeper | pdf_compare.py:186-188 | after the popping loop the top of the stack is the current section's parent, or the stack is empty when it has none |
| PdfCompare.Link | pdf_compare.py:191-193 | the child records the parent's id and is appended to the parent's children; nothing else of the two changes |
| PdfCompare.LinkChild | pdf_compare.py:191-193 | over all sections: exactly one children list grows and exactly one parent id is set |
| PdfCompare.PlaceSection | pdf_compare.py:184-199 | one loop step links the section to its parent (or appends it to the roots) and pushes it, keeping the stack the ancestor chain |
| PdfCompare.BuildHierarchy | pdf_compare.py:179-201 | the roots are the sections without a parent, in order; every section's children gain exactly its child sections in order; a section with a parent gets that parent's id and one without keeps its own |
| PdfCompare.CalculateSimilarity | pdf_compare.py:322-342 | with ratios in [0, 1], the score lies in [5, 100]; a score above 60 needs a title ratio above 0.6; a score above 95 needs a title ratio above 0.9 and a content ratio above 0.8 |
| PdfCompare.BestSection | pdf_compare.py:263-274 | the scan takes the first unused modified section of highest score above 60, or none when no unused one scores above 60 |
| PdfCompare.PairKind | pdf_compare.py:281-286 | `unchanged` iff the score is above 95 and the contents are equal; otherwise `reordered` iff the indices are more than 2 apart, else `modified` |
| PdfCompare.AddedMatches | pdf_compare.py:303-311 | one `added` match with score 0 per listed modified section |
| PdfCompare.FirstPassStep | pdf_compare.py:259-301 | one original section's decision extends the first pass and its used set |
| PdfCompare.PairSections | pdf_compare.py:255-311 | each original section in turn takes its best unused modified section (matched or `removed`), then the unused modified sections follow as `added` |
| PdfCompare.AppendAdded | pdf_compare.py:303-311 | the second pass appends exactly the unused modified sections, in order |
| PdfCompare.InsertByPosition | pdf_compare.py:313-317 | one insertion step of the sort adds exactly the element |
| PdfCompare.SortByPosition | pdf_compare.py:313-317 | the sort is a permutation |
| PdfCompare.InsertSorted | pdf_compare.py:313-317 | an insertion keeps a sorted list sorted by the page key (999 for a missing side) |
| PdfCompare.SortByPositionCorrect | pdf_compare.py:313-317 | the sort orders by the page key and is stable: matches of equal key keep their order |
| PdfCompare.MatchSections | pdf_compare.py:255-320 | the matching before sorting is the two passes, and the result is its stable sort by page key, a permutation of it |
| PdfCompare.KindCountsSum | pdf_compare.py:372-384 | the five kind counts add up to the number of matches |
| PdfCompare.Summary.Bump | pdf_compare.py:374-384 | counting one match raises its kind's counter by one and changes nothing else |
| PdfCompare.StructureComparator.constructor | pdf_compare.py:216-228 | no sections, no matches, every summary entry zero |
| PdfCompare.StructureComparator.UpdateSummary | pdf_compare.py:372-384 | each kind counter grows by the number of matches of that kind, so the counters grow by the number of matches in total; the totals and the matches stay |
| PdfCompare.StructureComparator.Compare | pdf_compare.py:230-253 | the sections are stored, the matches are those of the matching, the totals are the section counts, and the counters grow by the matches of each kind |
| PdfCompare.StructureComparator.Record | pdf_compare.py:233-253 | the documents and matches are stored and counted into the summary |
| PdfCompare.CriticalOfMembers | pdf_compare.py:411-426 | the filter keeps exactly the `removed` or `modified` matches whose section title and content, lowercased, contain a lowercased keyword |
| PdfCompare.FindCriticalChanges | pdf_compare.py:411-426 | the loop returns that filter, in order |
| PdfCompare.ProbedKeys | pdf_compare.py:441-443 | reading the counts of levels 1, 2 and 3 from the default dictionary adds those keys |
| PdfCompare.HierarchyLevels | pdf_compare.py:428-452 | the intended depth: the deepest level present, 0 without sections |
| PdfCompare.HierarchyLevelsAsWrittenIsAtLeastThree | pdf_compare.py:441-448 | as written, the depth is the true depth raised to at least 3, and 3 without sections, because the level probes insert keys 1 to 3 first |
| PdfCompare.HierarchyLevelsAsWrittenCounterexample | pdf_compare.py:441-448 | an empty document, or one with only chapters, is reported with depth 3 |
| PdfCompare.LevelProfile | pdf_compare.py:432-439 | the counts of levels 1, 2 and 3 and the intended depth of one document |
| PdfCompare.DetectStructuralChanges | pdf_compare.py:428-452 | the three count differences, modified minus original, and the intended depth of each document |
| PdfCompareOptimized.Anchored | pdf_compare_optimized.py:370-379 | a pattern ending in `$` matches the line, or the line without one final newline |
| PdfCompareOptimized.PageLabelOf | pdf_compare_optimized.py:375-376 | every `Page` word in any case, followed by spaces and digits, is recognised as a page number |
| PdfCompareOptimized.PageLabelParts | pdf_compare_optimized.py:375-376 | and every recognised `Page` label has exactly that shape |
| PdfCompareOptimized.FractionOf | pdf_compare_optimized.py:377-378 | every `digits / digits` line, with or without spaces around the slash, is recognised |
| PdfCompareOptimized.FractionParts | pdf_compare_optimized.py:377-378 | and every recognised fraction has exactly that shape |
| PdfCompareOptimized.Threshold | pdf_compare_optimized.py:360-361 | the count a header or footer needs is the larger of 2 and half the page count |
| PdfCompareOptimized.HeadersFootersIff | pdf_compare_optimized.py:342-368 | a line is reported iff it is counted at least twice and at least once per two pages (counted at the top and at the bottom of each page) |
| PdfCompareOptimized.CountKept | pdf_compare_optimized.py:348-357 | each inner loop adds the page's kept lines (stripped, longer than 3 characters) to the counts |
| PdfCompareOptimized.CountLine | pdf_compare_optimized.py:349-352 | one line adds itself, stripped, when it is longer than 3 characters, and nothing otherwise |
| PdfCompareOptimized.CountsAtLeast | pdf_compare_optimized.py:363-366 | the lines kept from the count map are the lines counted at least the threshold number of times |
| PdfCompareOptimized.DetectHeadersFooters | pdf_compare_optimized.py:342-368 | the detector as written returns exactly the lines whose count reaches the threshold |
| PdfCompareOptimized.OnePageCountsItsLineTwice | pdf_compare_optimized.py:348-357 | a single page holding one line counts it twice (as header and as footer) and reports it |
| PdfCompareOptimized.PerPage | pdf_compare_optimized.py:346-357 | the candidate lines of each page, page by page |
| PdfCompareOptimized.ByPageNeedsTwoPages | pdf_compare_optimized.py:359-366 | counting pages instead, every reported line sits among the first or last three lines of two different pages, and of at least half the pages |
| PdfCompareOptimized.ByPageOnePage | pdf_compare_optimized.py:359-366 | counting pages instead, a single page reports nothing |
| PdfCompareOptimized.EstimateLevel | pdf_compare_optimized.py:222-230 | the level lies in 1..3; it is 1 iff the pattern is all-caps and the line shorter than 30; a colon heading is at level 2; the numbered fallthrough is 3 |
| PdfCompareOptimized.EstimateLevelMonotone | pdf_compare_optimized.py:222-230 | a longer line of the same pattern never gets a smaller level |
| PdfCompareOptimized.FirstAcceptable | pdf_compare_optimized.py:196-211 | the first pattern whose capture has a stripped title of 3 to 120 characters, or none |
| PdfCompareOptimized.NumberedLevel | pdf_compare_optimized.py:199-202 | a numbered heading's level is one more than the dots in its number, so at least 1 |
| PdfCompareOptimized.IdentifyHeading | pdf_compare_optimized.py:182-220 | no heading iff the line looks like content (over 150 characters, or more than 10 words with more than 3 common ones) or no pattern's capture is acceptable; otherwise the first acceptable pattern gives the stripped title of 3 to 120 characters and the level, with the page and line recorded and an empty identifier |
| PdfCompareOptimized.IsHeadingLineProperties | pdf_compare_optimized.py:381-394 | the test is symmetric in line and title, accepts the title itself and the empty line, and rejects every line without a heading |
| PdfCompareOptimized.FirstIndex | pdf_compare_optimized.py:528 | `list.index`: the first position holding the element |
| PdfCompareOptimized.GetNextHeading | pdf_compare_optimized.py:526-534 | the heading after the first occurrence of the current one, or none when it is absent or last |
| PdfCompareOptimized.NextHeadingWalks | pdf_compare_optimized.py:526-534 | over distinct headings, each heading's successor is the next one, and the last has none |
| PdfCompareOptimized.MatchIdInjective | pdf_compare_optimized.py:462-481 | different counts give different `match_N` keys, so no entry overwrites another |
| PdfCompareOptimized.BestHeading | pdf_compare_optimized.py:444-456 | the scan takes the first unused modified heading of highest title score above 60, or none |
| PdfCompareOptimized.MarksAppend | pdf_compare_optimized.py:458-459 | a match marks the first position holding the chosen heading (`list.index`) |
| PdfCompareOptimized.MarksOfDistinct | pdf_compare_optimized.py:458-459 | over distinct headings the marked positions are exactly the positions chosen |
| PdfCompareOptimized.AddedEntries | pdf_compare_optimized.py:475-484 | one `added` entry per unmarked modified heading, keyed `match_N` by its position in the dictionary |
| PdfCompareOptimized.FirstPassStep | pdf_compare_optimized.py:441-473 | one original heading's decision extends the first pass and its marks |
| PdfCompareOptimized.PairedEntries | pdf_compare_optimized.py:434-486 | the entries are keyed `match_0`, `match_1`, … in order, each well formed; the first ones are the original headings in order, matched or removed, and the rest are added |
| PdfCompareOptimized.PairedDistinct | pdf_compare_optimized.py:434-486 | over distinct modified headings no heading is matched twice and the dictionary has one entry per original plus one per unmatched modified heading |
| PdfCompareOptimized.AppendAdded | pdf_compare_optimized.py:475-484 | the second pass appends exactly the unmarked modified headings, in order |
| PdfCompareOptimized.PairHeadings | pdf_compare_optimized.py:434-486 | each original heading in turn takes its best unused modified heading or is removed; the unmarked modified headings follow as added |
| PdfCompareOptimized.DisplayShowsMatch | pdf_compare_optimized.py:546-555 | a displayed option's icon gives back the status and the option ends with the title of the heading it shows |
| PdfCompareOptimized.PdfComparator.constructor | pdf_compare_optimized.py:412-419 | no headings and no matches |
| PdfCompareOptimized.PdfComparator.ExtractHeadings | pdf_compare_optimized.py:421-432 | both heading lists are stored and returned; the matches stay |
| PdfCompareOptimized.PdfComparator.MatchHeadings | pdf_compare_optimized.py:434-486 | the stored dictionary is the matching of the stored headings, and every entry is well formed |
| PdfCompareOptimized.PdfComparator.GetDropdownOptions | pdf_compare_optimized.py:536-559 | one option per entry, in dictionary order, holding its key, display text and status |
| SmartDiff.NonBlank | smart_diff.py:26 | the kept lines, as they are, are the non-blank ones, no more than the input |
| SmartDiff.Lines | smart_diff.py:33-34 | the stripped non-blank lines of a text are never empty |
| SmartDiff.UnchangedLines | smart_diff.py:42-45 | an `equal` opcode yields one `unchanged` entry per line, the line on both sides |
| SmartDiff.ModifiedLines | smart_diff.py:54-56 | a `replace` of equal length yields one `modified` entry per zipped pair |
| SmartDiff.RemovedLines | smart_diff.py:57-60 | one `removed` entry per line, with an empty modified side |
| SmartDiff.AddedLines | smart_diff.py:61-62 | one `added` entry per line, with an empty original side |
| SmartDiff.CompareTexts | smart_diff.py:15-75 | both texts empty gives `[]`; only the first empty gives one `added` entry per non-blank line of the second, in order; only the second empty gives one `removed` entry per non-blank line of the first; otherwise the opcodes' entries in order |
| SmartDiff.ExpandOpcodes | smart_diff.py:41-73 | the opcode loop yields the entries of each opcode in turn |
| SmartDiff.OpLinesSides | smart_diff.py:41-73 | one opcode's entries hold exactly its original range on the original side and its modified range on the other |
| SmartDiff.SidesOfUnchanged | smart_diff.py:42-45 | unchanged entries give back the lines on both sides |
| SmartDiff.SidesOfModified | smart_diff.py:54-56 | modified entries give back both ranges |
| SmartDiff.SidesOfRemoved | smart_diff.py:57-70 | removed entries give back the original range and nothing on the modified side |
| SmartDiff.SidesOfAdded | smart_diff.py:57-73 | added entries give back the modified range and nothing on the original side |
| SmartDiff.ExpandReconstructs | smart_diff.py:36-75 | for opcodes tiling both line lists, the diff's original side is the first list and its modified side the second |
| SmartDiff.CalculateSimilarity | smart_diff.py:112-120 | 100 for two empty texts, 0 when exactly one is empty, otherwise the ratio as a percentage, in [0, 100] for a ratio in [0, 1] |
| SmartDiff.FirstTarget | smart_diff.py:138-144 | the first line of the second text, from a position on, that equals the line, lies more than 2 lines away and has a ratio above 0.9, or none |
| SmartDiff.FindTarget | smart_diff.py:138-144 | the inner loop finds that first target |
| SmartDiff.FindMovedContent | smart_diff.py:123-146 | the moves are those of the stripped non-blank lines of both texts |
| SmartDiff.FindMoves | smart_diff.py:133-144 | the outer loop collects the first target of every line of at least 20 characters |
| SmartDiff.MovesSound | smart_diff.py:133-146 | every move is a line of at least 20 characters with its first target, and the moves come in strictly increasing line order, so at most one per line |
| SmartDiff.MovesComplete | smart_diff.py:133-146 | every line of at least 20 characters that has a target is reported |
| SmartDiff.FirstTargetIsFirstEqual | smart_diff.py:139-144 | when equal lines always have ratio above 0.9, the target is the first equal line more than 2 lines away |
| SmartDiff.GetStatistics | smart_diff.py:153-167 | `total_lines` is the number of entries and each kind's count is its number of occurrences |
| SmartDiff.StatisticsAddUp | smart_diff.py:155-166 | the four counts add up to `total_lines` |
| SmartDiff.KeyChangesWithoutKeywords | smart_diff.py:172-173 | without keywords the key changes are all the entries that are not unchanged, in order |
| SmartDiff.KeyChangesMembers | smart_diff.py:169-187 | an entry is kept iff it is in the diff, not unchanged, and (with keywords) its lowercased `orig + ' ' + mod` contains a lowercased keyword |
| SmartDiff.ExtractKeyChanges | smart_diff.py:169-187 | the loop returns the key changes in order, never an unchanged entry |
| SmartDiff.GroupConsecutiveChanges | smart_diff.py:189-210 | the loop returns the groups: the maximal runs between unchanged entries, empty runs dropped |
| SmartDiff.PiecesSound | smart_diff.py:198-210 | cutting at every unchanged entry gives one more piece than unchanged entries, none holding an unchanged entry, and together the changes in order |
| SmartDiff.GroupsSound | smart_diff.py:189-210 | every group is non-empty and holds no unchanged entry, and the groups joined are the input without its unchanged entries |
| ParagraphExtractor.NumberedMarker | paragraph_extractor.py:26 | a numbered marker is a non-empty prefix of the line, such as `1.` or `1.2.`, ending in a dot and followed by whitespace |
| ParagraphExtractor.DottedGroupsEndInDot | paragraph_extractor.py:26 | a non-empty run of dotted digit groups ends with its dot |
| ParagraphExtractor.LetterMarker | paragraph_extractor.py:27 | a letter marker is a two-character prefix of the line |
| ParagraphExtractor.RomanSpan | paragraph_extractor.py:28 | the longest prefix of roman numeral letters, in either case |
| ParagraphExtractor.RomanMarker | paragraph_extractor.py:28 | a roman marker is a prefix of at least two characters ending in a dot |
| ParagraphExtractor.AbbreviationContinues | paragraph_extractor.py:165-201 | after a line ending in a listed abbreviation, a line without a marker that does not look like a heading continues the paragraph |
| ParagraphExtractor.AbbreviationExample | paragraph_extractor.py:191-199 | `Dr.` followed by `Smith` is no sentence boundary, while `Smith.` followed by `Then` is |
| ParagraphExtractor.DetectParagraphType | paragraph_extractor.py:203-235 | numbered iff a numbered, letter or roman marker is present, carrying the first of them; else bullet iff a bullet starts the line; else heading iff the line looks like one; else normal; only numbered paragraphs carry a number |
| ParagraphExtractor.TypedLineStarts | paragraph_extractor.py:176-189 | a line typed other than normal always starts a new paragraph |
| ParagraphExtractor.Emitted | paragraph_extractor.py:59-61 | only paragraphs of at least 10 characters are reported |
| ParagraphExtractor.SegmentKeepsLines | paragraph_extractor.py:52-80 | after any number of lines, the closed blocks and the open one hold the non-blank stripped lines so far, in order |
| ParagraphExtractor.BlocksKeepLines | paragraph_extractor.py:52-84 | the blocks hold the non-blank stripped lines, in order: no line is lost or repeated |
| ParagraphExtractor.BlocksTyped | paragraph_extractor.py:109-145 | every block is non-empty, within the text, and typed by its first line |
| ParagraphExtractor.BlocksOrdered | paragraph_extractor.py:109-160 | blocks follow the order of the text without overlapping |
| ParagraphExtractor.BlocksConsecutive | paragraph_extractor.py:109-160 | every block holds exactly the stripped lines from its start position up to its end position |
| ParagraphExtractor.EmittedSource | paragraph_extractor.py:113-160 | every reported paragraph comes from a block long enough to report |
| ParagraphExtractor.EmittedOrdered | paragraph_extractor.py:109-160 | the reported paragraphs keep the order of their blocks |
| ParagraphExtractor.ParagraphStructure | paragraph_extractor.py:88-163 | every reported paragraph is the space-join of the consecutive stripped lines it records, typed by its first line, at least 10 characters long, and free of line breaks |
| ParagraphExtractor.ParagraphsInOrder | paragraph_extractor.py:88-163 | reported paragraphs appear in text order, none overlapping the next |
| ParagraphExtractor.CloseParagraph | paragraph_extractor.py:113-122 | closing the open block reports it iff it is long enough |
| ParagraphExtractor.CloseText | paragraph_extractor.py:57-62 | the same, keeping only the text |
| ParagraphExtractor.StructureOfLines | paragraph_extractor.py:102-161 | the loop over the lines yields the reported blocks of the stripped lines |
| ParagraphExtractor.ExtractWithStructure | paragraph_extractor.py:88-163 | the structured paragraphs of the text; none for a blank text |
| ParagraphExtractor.TextsOfLines | paragraph_extractor.py:48-86 | the loop over the lines yields the texts of those same blocks |
| ParagraphExtractor.ExtractParagraphs | paragraph_extractor.py:35-86 | the paragraph texts, which are the texts of the structured paragraphs; none for a blank text |
| ParagraphExtractor.ShouldMergeIgnoresTrailingSpace | paragraph_extractor.py:329-333 | trailing whitespace on a non-empty first paragraph never changes whether two paragraphs merge |
| ParagraphExtractor.CapitalisedContinuationIsMerged | paragraph_extractor.py:320-340 | a second paragraph opening with a capital letter is still merged into an unfinished one, although the docstring lists that heuristic |
| ParagraphExtractor.RomanItemStarts | paragraph_extractor.py:181-185 | an item numbered `ii.` starts a paragraph when segmenting |
| ParagraphExtractor.RomanItemIsMerged | paragraph_extractor.py:329-340 | yet it is merged into an unfinished paragraph, since the merge test does not look for roman numerals |
| ParagraphExtractor.MergeStep | paragraph_extractor.py:301-310 | each loop step keeps the space-joined text and does not add paragraphs |
| ParagraphExtractor.MergedKeepsText | paragraph_extractor.py:284-318 | merging keeps the space-joined text, never adds a paragraph, and leaves at least one paragraph from two or more |
| ParagraphExtractor.NothingToMerge | paragraph_extractor.py:297-318 | when no neighbours should merge, the paragraphs come back unchanged |
| ParagraphExtractor.MergeSplitParagraphs | paragraph_extractor.py:284-318 | the loop returns the merged paragraphs, which keep the space-joined text; fewer than two come back as they are |
| LanguageDetector.PrimaryLanguagesSupported | language_detector.py:26-41 | every primary language (English, German, simplified Chinese) is a supported one |
| LanguageDetector.NormalizeChinese | language_detector.py:102-104 | both Chinese variants become `zh-cn` and every other code is kept, so `zh-tw` is never reported |
| LanguageDetector.PrimaryName | language_detector.py:250-253 | a supported language is reported by its name |
| LanguageDetector.DetectLanguage | language_detector.py:59-125 | English with confidence 0.5 without a detector; English with confidence 0 for a text under 3 characters once stripped, for an empty ranking and when the detector raises; otherwise the top candidate with its probability, Chinese normalised, named when supported |
| LanguageDetector.PrefixSlice | language_detector.py:149 | Python's `xs[:k]`, counting a negative bound from the end |
| LanguageDetector.DetectDocumentLanguage | language_detector.py:127-157 | English with confidence 0 for no paragraphs; otherwise the language of the first `sample_size` paragraphs joined by spaces |
| LanguageDetector.Languages | language_detector.py:159-183 | one detected language per paragraph, in order |
| LanguageDetector.SignificantIsTenth | language_detector.py:240-245 | a language is significant exactly when more than a tenth of the paragraphs are in it |
| LanguageDetector.Percent | language_detector.py:255-258 | a count as a percentage of the paragraphs |
| LanguageDetector.Percentages | language_detector.py:255-258 | one percentage for each counted language and no other |
| LanguageDetector.SignificantMembers | language_detector.py:242-245 | the significant languages are exactly the counted languages above the tenth |
| LanguageDetector.FirstMaximum | language_detector.py:238 | the first key, in insertion order, with the largest count, as Python's `max` picks it |
| LanguageDetector.Summarize | language_detector.py:228-262 | counts per distinct language in first-occurrence order, each the number of its paragraphs and together their total; the primary language is the first most frequent one, named when supported; multilingual iff more than one language is significant; the number of languages and each one's percentage |
| LanguageDetector.GetLanguageStatistics | language_detector.py:210-262 | for no paragraphs, English with no counts, not multilingual; otherwise the statistics above of the paragraphs' detected languages |
| LanguageDetector.NeedsTranslationProperties | language_detector.py:276-288 | no code needs translating into itself; the test is symmetric and ignores case; it holds only for codes that differ ignoring case, and fails only for codes that agree or are both Chinese |

## Left out

- PDF input and output (`extract_from_pdf`, `extract_toc_and_headings`, `_extract_from_toc`, `extract_section_content`, `get_section_comparison`): they read PDF files through an external library.
- The user interfaces, launchers and command-line `main` functions: they are presentation, not comparison logic.
- The sentence encoder, scipy's optimal assignment, difflib's ratios and opcodes, and the language detector are inputs of the operations that use them. The assignment is taken as a given injective row-to-column map; its optimality is not proved.
- `_split_sentences` (requirement_analyzer.py:269-274) is the `split` parameter of the requirement scan: its regular expression is not modelled.
- The heading regular expressions of `_identify_heading` (pdf_compare_optimized.py:182-220) are inputs: each pattern's capture is given. The page-number and list-marker expressions are written out as scanners.
- `_looks_like_heading`, `str.isupper`, `str.istitle`, `str.strip`, `str.lower` and the case-insensitive matches are modelled on ASCII only. Unicode case and whitespace are not modelled.
- `_identify_heading` and `_estimate_level_from_context` of pdf_compare.py: they only serve PDF extraction.
- The optimized file's `_looks_like_heading` (pdf_compare_optimized.py:396-407): it is only used by PDF extraction.
- Floating point: similarities, confidences and percentages are exact reals. `round()`, numpy's normalisation inside `cosine_similarity` and percentage formatting are not modelled.
- Explanation strings, `generate_change_report`, `format_diff_for_display`, `_escape_html` and `display_title`: text rendering. The explanations are kept as templates carrying their numbers.
- `to_dict`, `from_dict`, `export_to_dict`, `get_summary`, `get_full_path` and `has_content_changes`: projections of the records into dictionaries or strings.
- `get_word_level_diff` (smart_diff.py:77-110): a word-level run of the same external matcher.
- `_compare_content` (pdf_compare.py:344-370): the line-level content changes come from the external matcher.
- `clean_paragraph` (paragraph_extractor.py:342-368): whitespace normalisation by regular expressions, not used by segmentation or merging.
- The `similarity_threshold` argument of `merge_split_paragraphs` is unused by the source, so the model has no such parameter.
- `Embedding.__post_init__`: the SHA-256 text hash and the timestamp are not modelled. The cache key is a pair of model name and text, so the hash is taken as injective.
- `SemanticEmbedder.embed`, `embed_paragraphs`, `compute_similarity`, `get_cache_statistics` and `clear_cache`: single-text or delegating variants of the modelled batch and cache operations.
- `detect_per_paragraph` returns only each paragraph's language (`LanguageDetector.Languages`); the text, confidence and name it also copies into each record are not modelled.
- Configuration set in constructors (keyword lists, thresholds, the German flag, the minimum confidence) is passed as parameters or constants.
- Console logging (`print`) and exception messages are not modelled. A raised exception is an explicit failure value where the source catches it.
- SemanticComparator.GreedyPairs requires a positive threshold. With threshold 0 or less, the source keeps accepting the sentinel pair (-1, -1) and never terminates. `GreedyMatching`, `FindOptimalMatches` and `CompareParagraphs` carry the same requirement.
- PdfCompareOptimized.PairedDistinct: the `.index` lookup of `match_headings` is modelled as written, through `Marks`. The count of one match per heading is proved only when the modified headings are pairwise distinct.

## Findings

| source | as written | input that shows it | evidently intended | confidence | as-written member | corrected member |
|---|---|---|---|---|---|---|
| pdf_compare.py:441-448 | the hierarchy depths are computed after `mod_by_level[1]`, `[2]` and `[3]` have been read on `defaultdict`s, which inserts those keys, so `max(keys)` is always at least 3 | no sections at all, or only chapters of level 1: depth 3 is reported | the deepest level present, 0 for no sections | medium, not executed | PdfCompare.HierarchyLevelsAsWritten, shown by PdfCompare.HierarchyLevelsAsWrittenIsAtLeastThree and PdfCompare.HierarchyLevelsAsWrittenCounterexample | PdfCompare.HierarchyLevels, used by PdfCompare.DetectStructuralChanges and PdfCompare.LevelProfile |
| pdf_compare_optimized.py:342-368 | the first three and the last three lines of a page are both counted, so a page of fewer than six lines counts a line twice | a single page `["Confidential"]`: the line reaches the threshold of 2 and is reported as a running header | a line counts once per page, so one page never makes a header or footer | medium, not executed | PdfCompareOptimized.DetectHeadersFooters, shown by PdfCompareOptimized.OnePageCountsItsLineTwice | PdfCompareOptimized.HeadersFootersByPage, with PdfCompareOptimized.ByPageNeedsTwoPages and PdfCompareOptimized.ByPageOnePage |
