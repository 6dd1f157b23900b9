# AggieSBP backend core, modelled in Dafny

This project models the deterministic core of the AggieSBP backend. The backend collects Rate My Professors reviews, Howdy section data, anex.us grade distributions and the Texas A&M course catalogue. It turns the reviews into per-course and per-professor summaries. The model covers:

- **Course-code normalisation.** The hierarchical summariser's `CourseNormalizer` (module `CourseCodes`) splits merged numbers, resolves department aliases and maps cross-listings. The first-generation normaliser is shared by the old summariser and the database summary service (modules `LegacySummarizer` and `SummaryDb`). It uses alias and cross-listing tables, completes numbers from context, groups reviews, aggregates tags and keeps normalisation statistics.
- **Review preprocessing** (`Preprocess`): text normalisation, the word-count filter and the greedy near-duplicate removal.
- **Clustering bookkeeping** (`Clustering`): grouping by cluster label with noise dropped, grouping by course, and the keyword cluster type.
- **Summariser heuristics** (`Summarizer`): sentence chunking, the extractive fallback, keyword sentiment and the size-based confidence.
- **Aggregation** (`Pipeline`): one review copy per course code, placing summaries into fields, confidence means, strengths, complaints, sentiment and consistency.
- **The embedding cache** (`Embeddings`): a class whose cache map sits in front of the encoder, with the embedding array filled in place.
- **The Howdy section records, terms and restrictions** (`SectionSchemas`), and the section scraper's filters and statistics (`SectionScraper`).
- **The anex.us GPA loaders.** `AnexGpa` covers newest-semester selection and record extraction. `GpaRecords` covers record conversion and batching. `UpsertGpa` covers the incremental loader. `FetchGpaBulk` covers the bulk loader.
- **The course catalogue scraper.**
  - `CourseCatalog`: titles, credits and hours.
  - `CatalogPrereqs`: the prerequisite text and groups.
  - `CatalogCoreqs`: corequisites.
  - `CatalogCross`: cross-listings.
  - `CatalogBlock`: the whole block and the department page.
  - `CatalogDepartments`: the department index.
- **The course loader's converters** (`UpsertCourses`).
- **The review record's validators** (`ReviewSchema`).
- **The Howdy sandbox client** (`HowdySandbox`).

`Common` and `Json` hold the shared vocabulary. `Common` covers ASCII character classes, strip, split and join, order-preserving de-duplication and insertion-ordered grouping. `Json` covers decoded JSON values, `dict.get`, truthiness, `str`, `int` and `float`.

Code that loops or updates state is modelled as methods with loop invariants, proved against specification functions. Examples are the de-duplication loops, the prerequisite-end loop, the group loops of the catalogue parser, the embedding cache and the Howdy client's tables. Pure code is modelled as functions and lemmas. The machine-learning calls and other opaque collaborators are parameters:

- the cluster labels;
- the similarity matrix;
- the sentence encoder;
- the abstractive summariser;
- the JSON decoder, `strptime` and `fromisoformat`;
- `urljoin` and `html.unescape`;
- the clock and the current year.

The model follows the code, including where the code does less, or otherwise, than its names, docstrings and comments suggest. The exceptions are the three defects listed under "## Findings": each is modelled as written and corrected, and the members built on top use the corrected version. Each of those members is named at the head of a line under "## Left out". Places where the code departs from what its names and comments suggest:

- The embedding cache is keyed by review id, not by a hash of the text.
- Reviews labelled as noise are dropped, not kept in a noise cluster.
- Course confidence is the plain mean of the cluster confidences, not a support-weighted one.
- Strengths and complaints are scanned field by field in a fixed order, each truncated to 5, not ranked by frequency and confidence.
- Cross-listing groups are built row by row, each code mapped to the smallest code of its row. They are not merged into connected components.
- An unparseable course code becomes "UNKNOWN", or the cleaned upper-cased text. It is not reported as a separate error.
- In `CourseNormalizer._extract_course_numbers`, the four- and five-digit branch (pipelines/professors/hierarchical_summarization/course_normalizer.py:150-158) can never return two numbers, because the remainder after three digits is at most two digits long.
- In `scripts/fetch_gpa_bulk.py` the comment at line 26 says 5000 records per insert. The constant is 10000, and the model uses 10000.

## Model

| member | source | states |
|---|---|---|
| CourseCodes.ThreeDigitRange | pipelines/professors/hierarchical_summarization/course_normalizer.py:140-142 | a 3-digit chunk passes the 100..999 test exactly when it does not start with '0' |
| CourseCodes.Triples | pipelines/professors/hierarchical_summarization/course_normalizer.py:135-143 | every chunk the 6-or-more-digit split keeps is exactly 3 digits with a value in 100..999 |
| CourseCodes.NumbersOfDigits | pipelines/professors/hierarchical_summarization/course_normalizer.py:129-165 | the numbers of a digit string are empty exactly when the string is, and each is a non-empty digit string |
| CourseCodes.SplitTriples | pipelines/professors/hierarchical_summarization/course_normalizer.py:136-143 | the chunk loop returns exactly the plausible 3-digit chunks at offsets 0, 3, 6, ... |
| CourseCodes.ExtractCourseNumbers | pipelines/professors/hierarchical_summarization/course_normalizer.py:118-165 | `_extract_course_numbers` returns the course numbers of the digits of its input (the 6-digit split when it finds two or more, else the first three digits when plausible, else the digits as they are) |
| CourseCodes.NumbersNeedDigits | pipelines/professors/hierarchical_summarization/course_normalizer.py:129-132 | no course numbers come back exactly when the input holds no digit |
| CourseCodes.ShortNumbersKept | pipelines/professors/hierarchical_summarization/course_normalizer.py:161-165 | one or two digits come back unchanged as the only element |
| CourseCodes.LeadingNumberFirst | pipelines/professors/hierarchical_summarization/course_normalizer.py:134-162 | when the first three digits are in 100..999 the result starts with them and every element has exactly 3 digits |
| CourseCodes.MergedNumbersSplit | pipelines/professors/hierarchical_summarization/course_normalizer.py:122-146 | "221222" gives ["221", "222"] |
| CourseCodes.CleanCodeShape | pipelines/professors/hierarchical_summarization/course_normalizer.py:199-204 | a cleaned code has no surrounding whitespace and no two whitespace characters in a row |
| CourseCodes.MatchDeptNumber | pipelines/professors/hierarchical_summarization/course_normalizer.py:208-213 | a match is capitals, optional whitespace and a maximal digit run at the start; no match exactly when the letters or the digits are missing |
| CourseCodes.CodesOfClean | pipelines/professors/hierarchical_summarization/course_normalizer.py:208-227 | no codes exactly when the pattern does not match; otherwise one code per course number, each the alias-resolved department followed by that number |
| CourseCodes.ExtractAllCourseCodes | pipelines/professors/hierarchical_summarization/course_normalizer.py:196-197 | an empty code gives no codes |
| CourseCodes.CleanCodeUnchanged | pipelines/professors/hierarchical_summarization/course_normalizer.py:199-204 | a code of capitals and digits is left as it is by cleaning |
| CourseCodes.PlainCodeParsed | pipelines/professors/hierarchical_summarization/course_normalizer.py:199-213 | capitals directly followed by digits match as exactly those two groups |
| CourseCodes.SingleCodeResolved | pipelines/professors/hierarchical_summarization/course_normalizer.py:196-227 | a department and one plausible 3-digit number give exactly one code under the resolved department ("CPSC221" gives "CSCE221") |
| CourseCodes.InferDept | pipelines/professors/hierarchical_summarization/course_normalizer.py:347-352 | a department is inferred exactly when the given professor department, upper-cased and stripped, is a non-empty run of letters, and it is that run |
| CourseCodes.SplitCode | pipelines/professors/hierarchical_summarization/course_normalizer.py:309-311 | a split is a non-empty capital prefix followed by a non-empty digit run at the start of the code |
| CourseCodes.Canonical | pipelines/professors/hierarchical_summarization/course_normalizer.py:300-321 | the loaded table wins, then the (department, number) fallback table, else the code itself |
| CourseCodes.CanonicalCodes | pipelines/professors/hierarchical_summarization/course_normalizer.py:299-321 | the canonical codes have no duplicates, are non-empty for non-empty input and are exactly the canonical forms of the input codes |
| CourseCodes.NormalizedCodes | pipelines/professors/hierarchical_summarization/course_normalizer.py:273-323 | `normalize_course_codes` never returns an empty list and never a duplicate; a missing or empty code gives ["UNKNOWN"] |
| CourseCodes.DiscreteStructuresCrossListed | pipelines/professors/hierarchical_summarization/course_normalizer.py:56-62 | without catalogue entries ECEN222 and CSCE222 both normalise to CSCE222 |
| CourseCodes.BareNumberGetsDept | pipelines/professors/hierarchical_summarization/course_normalizer.py:277-290 | a bare number with the professor department "ECON" becomes "ECON202" |
| CourseCodes.BuildGroups | pipelines/professors/hierarchical_summarization/course_normalizer.py:83-95 | every group is keyed by the row's canonical code and contains it first; the key list and the map agree |
| CourseCodes.LoadedMapsDown | pipelines/professors/hierarchical_summarization/course_normalizer.py:85-112 | after loading, every entry maps a code to one that sorts no later than it, and every catalogue course and every row's code has an entry |
| CourseCodes.ApplyGroupsMapsDown | pipelines/professors/hierarchical_summarization/course_normalizer.py:97-101 | mapping each group to its least code keeps every entry pointing no later than its key and covers every group member |
| CourseCodes.MapToSelfMapsDown | pipelines/professors/hierarchical_summarization/course_normalizer.py:108-112 | the self-mapping pass leaves existing entries as they are and gives every catalogue course an entry |
| CourseCodes.AppendNormalized | pipelines/professors/hierarchical_summarization/course_normalizer.py:91-95 | a row's cross-listed codes are appended to its group in their normalised forms, those without one dropped |
| CourseCodes.GroupRows | pipelines/professors/hierarchical_summarization/course_normalizer.py:83-95 | the first loop builds the groups keyed by canonical code, in first-seen order |
| CourseCodes.CourseNormalizer.constructor | pipelines/professors/hierarchical_summarization/course_normalizer.py:64-67 | without a session the loaded table starts empty |
| CourseCodes.CourseNormalizer.LoadCrossListings | pipelines/professors/hierarchical_summarization/course_normalizer.py:69-116 | the table after loading is the old table with each group mapped to its least code, then unmapped courses mapped to themselves |
| CourseCodes.CourseNormalizer.ApplyGroupMappings | pipelines/professors/hierarchical_summarization/course_normalizer.py:97-101 | the groups are applied in key order, a later group overriding an earlier one |
| CourseCodes.CourseNormalizer.MapGroup | pipelines/professors/hierarchical_summarization/course_normalizer.py:98-101 | every code of one group maps to the group's least code, nothing else changes |
| CourseCodes.CourseNormalizer.MapCoursesToSelf | pipelines/professors/hierarchical_summarization/course_normalizer.py:108-112 | catalogue courses not yet in the table map to themselves; existing entries stay |
| CourseCodes.CourseNormalizer.NormalizeCourseCodes | pipelines/professors/hierarchical_summarization/course_normalizer.py:250-323 | `normalize_course_codes` returns the specified distinct canonical codes |
| CourseCodes.CourseNormalizer.Canonicalize | pipelines/professors/hierarchical_summarization/course_normalizer.py:298-321 | the cross-listing loop appends each code's canonical form once, in first-seen order |
| CourseCodes.CourseNormalizer.NormalizeCourseCode | pipelines/professors/hierarchical_summarization/course_normalizer.py:229-248 | `normalize_course_code` is the first canonical code; a missing code gives "UNKNOWN" |
| CourseCodes.CourseNormalizer.GroupReviews | pipelines/professors/hierarchical_summarization/course_normalizer.py:423-455 | every review lands in exactly the group keyed by its normalised code, groups keep input order, and the keys are exactly the codes that occur |
| Preprocess.CapRun | pipelines/professors/hierarchical_summarization/preprocess.py:60-62 | cutting runs of one character to two leaves no run of three, never lengthens the text, and keeps a first character that is not that character |
| Preprocess.CapRunKeeps | pipelines/professors/hierarchical_summarization/preprocess.py:60-62 | cutting runs of one punctuation mark creates no long run of another |
| Preprocess.CollapseKeeps | pipelines/professors/hierarchical_summarization/preprocess.py:65 | collapsing whitespace creates no long run of a non-space character |
| Preprocess.SquashPunctuation | pipelines/professors/hierarchical_summarization/preprocess.py:59-62 | after the three substitutions there is no run of three '!', '?' or '.' |
| Preprocess.CollapseAndStrip | pipelines/professors/hierarchical_summarization/preprocess.py:64-66 | the result has no surrounding whitespace, no two whitespace characters in a row, and only plain spaces |
| Preprocess.CollapsedNormalized | pipelines/professors/hierarchical_summarization/preprocess.py:59-66 | collapsing and stripping a text without long punctuation runs keeps it without them |
| Preprocess.SquashedIsNormalized | pipelines/professors/hierarchical_summarization/preprocess.py:59-66 | the last two normalisation steps establish all guarantees whatever their input |
| Preprocess.NormalizeText | pipelines/professors/hierarchical_summarization/preprocess.py:35-68 | a missing, empty or non-string text gives ""; every result has no surrounding whitespace, single plain spaces and no run of 3 or more '!', '?' or '.' |
| Preprocess.WordCountOf | pipelines/professors/hierarchical_summarization/preprocess.py:70-72 | the word count is zero exactly when the text is blank |
| Preprocess.BlankNoWords | pipelines/professors/hierarchical_summarization/preprocess.py:72 | `split()` gives no tokens exactly when the text is blank |
| Preprocess.FilterByLength | pipelines/professors/hierarchical_summarization/preprocess.py:74-79 | the kept reviews are exactly those with a word count of at least 8, never more than the input |
| Preprocess.FilterByLengthSplits | pipelines/professors/hierarchical_summarization/preprocess.py:76-79 | kept and dropped reviews together account for the whole input |
| Preprocess.KeptIndices | pipelines/professors/hierarchical_summarization/preprocess.py:114-125 | the greedy pass keeps strictly increasing indices |
| Preprocess.KeptMembership | pipelines/professors/hierarchical_summarization/preprocess.py:117-125 | an index is kept exactly when no earlier kept index is at least threshold-similar to it |
| Preprocess.KeptStartsWithFirst | pipelines/professors/hierarchical_summarization/preprocess.py:117-121 | the first review is always kept, and kept first |
| Preprocess.KeptApart | pipelines/professors/hierarchical_summarization/preprocess.py:113-125 | no two kept reviews i < j have similarity at least the threshold |
| Preprocess.DroppedMarked | pipelines/professors/hierarchical_summarization/preprocess.py:113-125 | every dropped review has an earlier kept review at least threshold-similar to it |
| Preprocess.KeptBound | pipelines/professors/hierarchical_summarization/preprocess.py:127 | deduplication never keeps more reviews than it reads |
| Preprocess.DeduplicateReviews | pipelines/professors/hierarchical_summarization/preprocess.py:81-130 | lists shorter than 2 come back unchanged; otherwise the loop returns the reviews at the kept indices, in order |
| Preprocess.OriginalText | pipelines/professors/hierarchical_summarization/preprocess.py:149 | a missing or falsy review text is read as "" |
| Preprocess.ToProcessed | pipelines/professors/hierarchical_summarization/preprocess.py:148-160 | a processed review carries the original text, its normalised form and that form's word count |
| Preprocess.SimilarityMatrix | pipelines/professors/hierarchical_summarization/preprocess.py:95-111 | the pairwise similarity of the texts is an n-by-n matrix |
| Preprocess.ProcessReviews | pipelines/professors/hierarchical_summarization/preprocess.py:132-169 | normalise every review, filter by length, then deduplicate when asked and more than one remains |
| Preprocess.ProcessedReviewsValid | pipelines/professors/hierarchical_summarization/preprocess.py:147-169 | the output is never longer than the input and every output review has at least 8 words and the normalised form of its original text |
| Clustering.ZipLen | pipelines/professors/hierarchical_summarization/clustering.py:57 | `zip` reads exactly as many pairs as the shorter list holds |
| Clustering.ClusterReviews | pipelines/professors/hierarchical_summarization/clustering.py:24-68 | fewer than 3 reviews give {0: reviews}; otherwise the loop builds the label grouping of the zipped reviews and labels |
| Clustering.InClusterAbsent | pipelines/professors/hierarchical_summarization/clustering.py:62-64 | a label that no review carries collects no review |
| Clustering.LabelledMembers | pipelines/professors/hierarchical_summarization/clustering.py:53-64 | a cluster id is present exactly when it is a non-noise label of some review, and its cluster holds exactly the reviews with that label, in input order |
| Clustering.LabelledKeys | pipelines/professors/hierarchical_summarization/clustering.py:57-64 | the cluster ids are the distinct non-noise labels in first-seen order |
| Clustering.LabelledSizes | pipelines/professors/hierarchical_summarization/clustering.py:55-64 | the cluster sizes add up to the number of non-noise reviews |
| Clustering.Score | pipelines/professors/hierarchical_summarization/clustering.py:86 | a type's score is the number of its keywords found in the text, zero exactly when none is found |
| Clustering.Scores | pipelines/professors/hierarchical_summarization/clustering.py:84-87 | one score per type of the keyword table, in table order |
| Clustering.FirstMax | pipelines/professors/hierarchical_summarization/clustering.py:91 | `max` by score picks the first position holding the largest score |
| Clustering.NoKeywordScores | pipelines/professors/hierarchical_summarization/clustering.py:84-90 | every type scores zero exactly when no keyword occurs in the text |
| Clustering.TypeOfOther | pipelines/professors/hierarchical_summarization/clustering.py:80-92 | the type is "other" exactly when no keyword is a substring of the lower-cased joined text |
| Clustering.TypeOfBest | pipelines/professors/hierarchical_summarization/clustering.py:84-91 | otherwise the type has the highest score, and every earlier type scored strictly less (ties go to the earliest type) |
| Clustering.ClusterKeywordNames | pipelines/professors/hierarchical_summarization/config.py:35-53 | the keyword table names declared cluster types and none is called "other" |
| Clustering.IdentifiedTypeDeclared | pipelines/professors/hierarchical_summarization/clustering.py:70-92 | `identify_cluster_type` always returns a declared cluster type |
| Clustering.Enumerate | pipelines/professors/hierarchical_summarization/clustering.py:113 | `enumerate` pairs each review with its position |
| Clustering.CourseEntries | pipelines/professors/hierarchical_summarization/clustering.py:113-119 | the reviews collected for a course are exactly its reviews in order, and each recorded index points at that review |
| Clustering.ClusterByCourse | pipelines/professors/hierarchical_summarization/clustering.py:94-138 | the keys are the distinct course codes (None or "" read as "UNKNOWN") in first-seen order; a course with fewer than 3 reviews is cluster 0 holding them all, otherwise it is clustered on the embeddings at its reviews' original indices |
| Clustering.ClusterCourse | pipelines/professors/hierarchical_summarization/clustering.py:124-136 | one course's clusters: a single cluster below 3 reviews, otherwise the clustering of its own embeddings |
| Clustering.CourseGrouping | pipelines/professors/hierarchical_summarization/clustering.py:110-119 | the course keys of the enumerated reviews are the course keys of the reviews, each has a group, and all indices are in range |
| Clustering.CoursesDistinct | pipelines/professors/hierarchical_summarization/clustering.py:110-119 | the course keys are distinct and every review's course is among them |
| Summarizer.SplitTerminators | pipelines/professors/hierarchical_summarization/summarizer.py:41 | `re.split` on runs of . ! ? gives at least one piece and no piece holds a terminator |
| Summarizer.Sentences | pipelines/professors/hierarchical_summarization/summarizer.py:46-49 | the stripped pieces with the empty ones skipped, none of them empty |
| Summarizer.RunInv | pipelines/professors/hierarchical_summarization/summarizer.py:42-60 | after any number of steps the finished chunks and the current one concatenate to the sentences read, and the estimate variable is the current chunk's estimate |
| Summarizer.CloseChunkInv | pipelines/professors/hierarchical_summarization/summarizer.py:54-57 | starting a new chunk when the estimate would exceed the limit keeps the loop's invariant |
| Summarizer.ExtendChunkInv | pipelines/professors/hierarchical_summarization/summarizer.py:58-60 | adding the sentence to the current chunk keeps the loop's invariant |
| Summarizer.ChunkListsSpec | pipelines/professors/hierarchical_summarization/summarizer.py:41-65 | the chunks' sentence lists concatenated are exactly the non-empty stripped pieces in order; no chunk is empty and a chunk whose estimate exceeds the limit holds a single sentence |
| Summarizer.ChunksNonEmpty | pipelines/professors/hierarchical_summarization/summarizer.py:54-63 | no returned chunk is the empty string |
| Summarizer.ChunkText | pipelines/professors/hierarchical_summarization/summarizer.py:38-65 | `_chunk_text` returns the specified chunks, none empty |
| Summarizer.StripMeaningful | pipelines/professors/hierarchical_summarization/summarizer.py:141-144 | a stripped piece longer than 20 characters is stripped and terminator-free |
| Summarizer.LongSentencesMeaningful | pipelines/professors/hierarchical_summarization/summarizer.py:137-144 | every sentence the extractive summary can use is longer than 20 characters, stripped and terminator-free |
| Summarizer.ExtractiveTextShape | pipelines/professors/hierarchical_summarization/summarizer.py:146-148 | with nothing qualifying the text is "No review text available."; otherwise it starts with the first qualifying sentence and ends with "." |
| Summarizer.ExtractiveSummary | pipelines/professors/hierarchical_summarization/summarizer.py:130-148 | the nested loop collects the long sentences of every non-empty review, in order, and joins the first `max_sentences` with ". " plus "." |
| Summarizer.AddLongPieces | pipelines/professors/hierarchical_summarization/summarizer.py:140-144 | the inner loop appends the stripped pieces longer than 20 characters, in order |
| Summarizer.SentimentOf | pipelines/professors/hierarchical_summarization/summarizer.py:205-235 | the keyword sentiment is always "positive", "negative" or "mixed" |
| Summarizer.SentimentSwap | pipelines/professors/hierarchical_summarization/summarizer.py:230-235 | "positive" exactly when 2·pos > 3·neg; swapping the counts swaps "positive" and "negative" and keeps "mixed" |
| Summarizer.SentimentBalanced | pipelines/professors/hierarchical_summarization/summarizer.py:230-235 | equal counts, no matches included, give "mixed" |
| Summarizer.ConfidenceBounds | pipelines/professors/hierarchical_summarization/summarizer.py:238 | min(0.95, 0.5 + n/20·0.45) lies in [0.5, 0.95], never decreases as n grows, and is 0.95 from n = 20 on |
| Summarizer.SummaryOfSpec | pipelines/professors/hierarchical_summarization/summarizer.py:150-246 | an empty cluster gives review_count 0, "neutral" and 0.0; any other keeps its type, counts its reviews, has a sentiment label and a confidence in [0.5, 0.95], and below 3 reviews uses the extractive text with 3 sentences |
| Summarizer.SummarizeCluster | pipelines/professors/hierarchical_summarization/summarizer.py:150-246 | `summarize_cluster` returns the specified summary, falling back to 4 extractive sentences when the abstractive text has an academic phrase |
| Summarizer.SummariesWith | pipelines/professors/hierarchical_summarization/summarizer.py:261-268 | one summary per cluster id |
| Summarizer.SummariesWithSpec | pipelines/professors/hierarchical_summarization/summarizer.py:263-266 | summary i is that of cluster i, typed by its id |
| Summarizer.SummariesOfSpec | pipelines/professors/hierarchical_summarization/summarizer.py:263-266 | summary i summarises cluster i with its type, or "other" when the id has no type |
| Summarizer.SummarizeClusters | pipelines/professors/hierarchical_summarization/summarizer.py:248-268 | `summarize_clusters` returns one summary per cluster in the clusters' order |
| Pipeline.Copies | pipelines/professors/hierarchical_summarization/pipeline.py:99-108 | one copy per code, copy j being the review with code j and every other field kept |
| Pipeline.ExpandedLength | pipelines/professors/hierarchical_summarization/pipeline.py:93-110 | the expansion never loses a review: it has at least as many entries as its input |
| Pipeline.ExpandedCopies | pipelines/professors/hierarchical_summarization/pipeline.py:93-110 | every expanded entry has a course code and agrees with some input review in every field but the code |
| Pipeline.ExpandedSingle | pipelines/professors/hierarchical_summarization/pipeline.py:93-110 | a review whose code normalises to a single code comes out once, with exactly that code |
| Pipeline.ExpandReviews | pipelines/professors/hierarchical_summarization/pipeline.py:93-110 | the expansion loop builds, in order, the copies of every review under each of its normalised codes |
| Pipeline.AppendCopies | pipelines/professors/hierarchical_summarization/pipeline.py:99-108 | the inner loop appends exactly the review's copies, one per code in order |
| Pipeline.Slot | pipelines/professors/hierarchical_summarization/pipeline.py:160-174 | each cluster type maps to one of the seven summary fields |
| Pipeline.SetField | pipelines/professors/hierarchical_summarization/pipeline.py:160-174 | setting one field changes that field and no other field, course, confidence or total |
| Pipeline.PlaceAllFields | pipelines/professors/hierarchical_summarization/pipeline.py:160-174 | after placement each field holds the summary of the last cluster of its type, or its earlier value when none has that type; unknown types fill the other field; course, confidence and total are unchanged |
| Pipeline.SlotsOfTypes | pipelines/professors/hierarchical_summarization/pipeline.py:160-174 | each of the seven declared cluster types fills its own field, in declaration order |
| Pipeline.PlaceSummaries | pipelines/professors/hierarchical_summarization/pipeline.py:160-174 | the if/elif placement loop yields exactly the placement function's result |
| Pipeline.TypesUpToSpec | pipelines/professors/hierarchical_summarization/pipeline.py:143-146 | after the first j cluster ids the type map holds exactly those ids, each mapped to the classifier's verdict on its reviews |
| Pipeline.TypesOfSpec | pipelines/professors/hierarchical_summarization/pipeline.py:143-146 | every cluster, and only those, gets a type: the keyword classifier's verdict, always one of the declared types |
| Pipeline.IdentifyTypes | pipelines/professors/hierarchical_summarization/pipeline.py:143-146 | the type-identification loop returns the type map over all cluster ids |
| Pipeline.Confidences | pipelines/professors/hierarchical_summarization/pipeline.py:177-180 | the confidences of the cluster summaries, position by position |
| Pipeline.SummaryConfidence | pipelines/professors/hierarchical_summarization/pipeline.py:177-182 | every cluster summary's confidence lies within [0, 0.95] |
| Pipeline.AssembledConfidence | pipelines/professors/hierarchical_summarization/pipeline.py:177-182 | the course confidence is 0.0 when there are no clusters and always lies within [0, 0.95] |
| Pipeline.MeanWithin | pipelines/professors/hierarchical_summarization/pipeline.py:177-182 | the mean of values in [0, hi] lies in [0, hi] and is 0.0 for no values |
| Pipeline.SummaryConfidences | pipelines/professors/hierarchical_summarization/pipeline.py:149-151 | every cluster's summary confidence lies within [0, 0.95] |
| Pipeline.CourseTotalExcludesNoise | pipelines/professors/hierarchical_summarization/pipeline.py:154-157 | for clustered reviews the course total counts exactly the reviews not labelled noise |
| Pipeline.ClustersWellFormed | pipelines/professors/hierarchical_summarization/pipeline.py:117-120 | whatever labels the clusterer assigns, the grouped clusters are well formed |
| Pipeline.MeanConfidence | pipelines/professors/hierarchical_summarization/pipeline.py:177-182 | the summing loop returns the mean of the cluster confidences, 0.0 without clusters |
| Pipeline.AssembleSummary | pipelines/professors/hierarchical_summarization/pipeline.py:153-182 | placement onto an empty summary of the course, then the mean confidence |
| Pipeline.AssembleCourse | pipelines/professors/hierarchical_summarization/pipeline.py:153-182 | the assembled summary names its course, carries the given total and the mean confidence |
| Pipeline.SummarizeCourse | pipelines/professors/hierarchical_summarization/pipeline.py:141-182 | the per-course loop body equals the course-summary function on that course's clusters |
| Pipeline.Total | pipelines/professors/hierarchical_summarization/pipeline.py:156 | the total is the sum of the cluster sizes |
| Pipeline.TotalSize | pipelines/professors/hierarchical_summarization/pipeline.py:156 | the summing loop returns the sum of the cluster sizes |
| Pipeline.CourseSummaryNamed | pipelines/professors/hierarchical_summarization/pipeline.py:154-157 | a course summary names its course and counts every review of its clusters |
| Pipeline.CourseSummariesSpec | pipelines/professors/hierarchical_summarization/pipeline.py:141-182 | with the undeclared statistics left out (see Findings), summary i is the summary of course i, in the grouping's course order |
| Pipeline.CourseSummariesNamed | pipelines/professors/hierarchical_summarization/pipeline.py:141-182 | with the undeclared statistics left out (see Findings), course summary i names course i |
| Pipeline.GenerateCourseSummaries | pipelines/professors/hierarchical_summarization/pipeline.py:135-182 | with the undeclared statistics left out (see Findings), the loop produces one summary per course, in course order |
| Pipeline.SingleCourseTotals | pipelines/professors/hierarchical_summarization/pipeline.py:385-408 | with nothing left after preprocessing the summary has confidence 0.0 and total 0; otherwise its total is the number of preprocessed reviews, noise included; it always names the course |
| Pipeline.SummarizeProcessed | pipelines/professors/hierarchical_summarization/pipeline.py:385-429 | the steps after preprocessing give the single-course summary function |
| Pipeline.ProcessSingleCourse | pipelines/professors/hierarchical_summarization/pipeline.py:365-431 | preprocessing with deduplication, then the single-course summary |
| Pipeline.Prefix | pipelines/professors/hierarchical_summarization/pipeline.py:287 | the slice is a prefix of the value of at most n characters |
| Pipeline.EntriesIgnorePolicies | pipelines/professors/hierarchical_summarization/pipeline.py:255-263 | only the five scanned fields matter: summaries that agree on them give the same entries |
| Pipeline.UnfairCountsBothWays | pipelines/professors/hierarchical_summarization/pipeline.py:269-289 | a field mentioning "unfair" also contains "fair", so it counts as both a strength and a complaint |
| Pipeline.OverallFollowsSentiment | pipelines/professors/hierarchical_summarization/pipeline.py:291-300 | the overall label is positive or negative exactly when the cluster sentiment rule with ratio 1.5 says so |
| Pipeline.Top5 | pipelines/professors/hierarchical_summarization/pipeline.py:353-354 | at most five entries, taken from the front; all of them when there are five or fewer |
| Pipeline.CourseConfidences | pipelines/professors/hierarchical_summarization/pipeline.py:312-315 | the course confidences, position by position |
| Pipeline.ProfessorSummarySpec | pipelines/professors/hierarchical_summarization/pipeline.py:291-317 | with the undeclared statistics left out (see Findings), strengths and complaints keep at most five entries from the front; the sentiment uses the untruncated counts; with no courses the confidence is 0.0; with course confidences in [0, 0.95] the mean stays there |
| Pipeline.ScanFields | pipelines/professors/hierarchical_summarization/pipeline.py:257-289 | the inner loop collects exactly the entries of the set fields mentioning a positive, resp. negative, indicator |
| Pipeline.ScanCourses | pipelines/professors/hierarchical_summarization/pipeline.py:255-289 | the outer loop collects the entries of all course summaries, in order |
| Pipeline.GenerateProfessorSummary | pipelines/professors/hierarchical_summarization/pipeline.py:242-317 | with the undeclared statistics left out (see Findings), the method returns the professor-summary function of its inputs |
| Pipeline.ProfessorDept | pipelines/professors/hierarchical_summarization/pipeline.py:58-69 | a missing or empty stored department gives no department |
| Pipeline.CourseClustersWellFormed | pipelines/professors/hierarchical_summarization/pipeline.py:117-120 | each course's clusters are well formed whatever the clusterer does |
| Pipeline.ByCoursePresent | pipelines/professors/hierarchical_summarization/pipeline.py:117-123 | clustering by course hands every course well-formed clusters |
| Pipeline.ProcessProfessorReviews | pipelines/professors/hierarchical_summarization/pipeline.py:44-133 | the pipeline with summary records of their declared fields only (the corrected half of the Findings row; the code as written always raises): no reviews left after preprocessing gives the "No reviews available" summary; otherwise the call fails only for an expanded review whose id is not a string, and succeeds with one course summary per distinct expanded course code, in first-seen order, and the professor summary over them |
| Pipeline.CourseStatsAsWritten | pipelines/professors/hierarchical_summarization/pipeline.py:184-237 | as written, the statistics of a course raise: AttributeError on `original_rating` exactly when the course has reviews, TypeError on the undeclared `avg_rating` keyword exactly when it has none |
| Pipeline.CourseSummariesAsWritten | pipelines/professors/hierarchical_summarization/pipeline.py:135-240 | as written, the course step returns only for an empty course list (and then returns nothing); any course makes it raise one of those two errors |
| Pipeline.ProfessorSummaryAsWritten | pipelines/professors/hierarchical_summarization/pipeline.py:319-363 | as written, the professor step raises AttributeError on `original_rating` exactly when there are reviews, and TypeError on the undeclared `total_reviews` keyword exactly when there are none |
| Pipeline.ProcessProfessorReviewsAsWritten | pipelines/professors/hierarchical_summarization/pipeline.py:44-133 | as written, every call raises: with no reviews left after preprocessing it is the TypeError on `total_reviews` from the early return; with reviews whose ids are strings it is one of the course-step errors |
| Pipeline.ProcessExpandedAsWritten | pipelines/professors/hierarchical_summarization/pipeline.py:112-133 | as written, the steps after the expansion always raise; with string ids there is at least one course and the course step raises before the professor step is reached |
| Pipeline.CourseConfidenceIsMean | pipelines/professors/hierarchical_summarization/pipeline.py:177-182 | the course summary's confidence is the mean of its cluster summaries' confidences |
| Embeddings.Zeros | pipelines/professors/hierarchical_summarization/embeddings.py:80-82 | a row of the embedding width, all zeros |
| Embeddings.MissesSpec | pipelines/professors/hierarchical_summarization/embeddings.py:87-99 | the positions to encode are increasing and in range; with the cache on they are exactly the positions whose id is not cached, without it all positions |
| Embeddings.MissesUpToSpec | pipelines/professors/hierarchical_summarization/embeddings.py:89-96 | the cache pass over the first n ids lists, in increasing order, exactly the uncached positions among them |
| Embeddings.FilledUntouched | pipelines/professors/hierarchical_summarization/embeddings.py:111-112 | the store pass leaves every row it is not given an encoded vector for as it was |
| Embeddings.FilledLast | pipelines/professors/hierarchical_summarization/embeddings.py:111-112 | a row written by the store pass holds the last vector written to it |
| Embeddings.SavedSpec | pipelines/professors/hierarchical_summarization/embeddings.py:113-114 | saving adds each encoded review's id to the cache and leaves every other entry as it was |
| Embeddings.LengthMismatch | pipelines/professors/hierarchical_summarization/embeddings.py:77-78 | the call fails exactly when texts and ids differ in number, and then the cache is untouched |
| Embeddings.CacheHit | pipelines/professors/hierarchical_summarization/embeddings.py:88-93 | a cached review is not re-encoded: its row is the cached vector, and there is one row per text |
| Embeddings.MissEncoded | pipelines/professors/hierarchical_summarization/embeddings.py:101-112 | with one vector per text from the encoder, each uncached review's row is the vector encoded for it, in review order |
| Embeddings.CacheFilled | pipelines/professors/hierarchical_summarization/embeddings.py:101-114 | with the cache on, every id is cached afterwards, earlier entries are kept, and a second call has nothing left to encode |
| Embeddings.EmbeddingGenerator.LookUp | pipelines/professors/hierarchical_summarization/embeddings.py:88-96 | the cache pass fills the cached rows and lists exactly the uncached positions and their texts, in order |
| Embeddings.EmbeddingGenerator.Store | pipelines/professors/hierarchical_summarization/embeddings.py:110-114 | the store pass writes each encoded vector to its row and, with the cache on, into the cache, pairing as `zip` does |
| Embeddings.EmbeddingGenerator.GenerateEmbeddings | pipelines/professors/hierarchical_summarization/embeddings.py:63-116 | the result and the new cache are the embeddings and the saved cache the specification functions give; a length mismatch fails |
| Embeddings.EmbeddingGenerator.GenerateForReviews | pipelines/professors/hierarchical_summarization/embeddings.py:118-133 | the reviews' texts under their ids; with the cache on a review id that is not a string makes the call fail |
| Embeddings.Texts | pipelines/professors/hierarchical_summarization/embeddings.py:131 | the texts of the reviews, position by position |
| Embeddings.Ids | pipelines/professors/hierarchical_summarization/embeddings.py:132 | the string ids of the reviews, position by position |
| Embeddings.EmbeddingGenerator.constructor | pipelines/professors/hierarchical_summarization/embeddings.py:22-34 | a generator starts from the cache directory's current contents, given as a map |
| LegacySummarizer.NumberPart | pipelines/professors/old/summarizer.py:465 | `\d+[A-Z]*` taken greedily: a prefix of the input, non-empty exactly when the input starts with a digit, and then a bare number |
| LegacySummarizer.MatchCode | pipelines/professors/old/summarizer.py:465 | a match gives a non-empty capital run that starts the input and a bare number |
| LegacySummarizer.FirstNumber | pipelines/professors/old/summarizer.py:624 | no match exactly when the input holds no digit; otherwise the bare number that starts at the first digit |
| LegacySummarizer.PlainCodeMatch | pipelines/professors/old/summarizer.py:465 | a capital run followed by a number matches as exactly those two parts |
| LegacySummarizer.NormalizeCourseCode | pipelines/professors/old/summarizer.py:443-490 | a missing or empty code gives "Unknown"; a code that does not parse comes back upper-cased and stripped |
| LegacySummarizer.ResolvedSettled | pipelines/professors/old/summarizer.py:473-490 | with settled tables, whatever a parsed code resolves to is a settled code |
| LegacySummarizer.UnparsedIdempotent | pipelines/professors/old/summarizer.py:457-468 | a code that does not parse normalises to a form that normalises to itself |
| LegacySummarizer.ParsedCodeIdempotent | pipelines/professors/old/summarizer.py:465-490 | with settled tables, a code that parses normalises to a form that normalises to itself |
| LegacySummarizer.NormalizeIdempotent | pipelines/professors/old/summarizer.py:443-490 | with settled tables, normalising a normalised non-blank code changes nothing |
| LegacySummarizer.DefaultSettled | pipelines/professors/old/summarizer.py:50-89 | the built-in alias and cross-listing tables are settled |
| LegacySummarizer.ExtractCourseNumber | pipelines/professors/old/summarizer.py:603-630 | "Unknown" for a missing code or one without digits, otherwise the bare number at the first digit |
| LegacySummarizer.ExtractPlainNumber | pipelines/professors/old/summarizer.py:603-630 | the number of a plain code is its number part: "CSCE121" gives "121" |
| LegacySummarizer.PartialDept | pipelines/professors/old/summarizer.py:572-574 | up to three leading capitals, a prefix of the input, empty exactly when there is no match |
| LegacySummarizer.NormalizeWithContext | pipelines/professors/old/summarizer.py:525-601 | a missing or empty code gives "Unknown"; otherwise the resolution of the cleaned code |
| LegacySummarizer.WithContextBareNumber | pipelines/professors/old/summarizer.py:566-598 | a code of digits only gets the professor's department in front |
| LegacySummarizer.WithContextLetterPrefix | pipelines/professors/old/summarizer.py:548-564 | "M152" already matches the department-and-number pattern, so it stays "M152" and the partial expansion never sees it |
| LegacySummarizer.WithContextAgrees | pipelines/professors/old/summarizer.py:548-564 | on a parsed code the context-aware normaliser agrees with the plain one unless only the unaliased department has a cross-listing, and then gives the aliased department and number |
| LegacySummarizer.WithContextCompletes | pipelines/professors/old/summarizer.py:566-598 | a code that does not parse but holds a number gets the professor's department when it extends the leading letters or there are none, else one of the six fixed expansions |
| LegacySummarizer.NumberKeyDigits | pipelines/professors/old/summarizer.py:653-657 | a code whose number is digits only is keyed by the professor's department and that number |
| LegacySummarizer.NumberKeyOfPlain | pipelines/professors/old/summarizer.py:649-662 | grouping by number ignores the written department: "CSCE121" and "ENGR121" land under the same key |
| LegacySummarizer.OccurrencesPositive | pipelines/professors/old/summarizer.py:513 | an element occurs in a list exactly when it is counted at least once |
| LegacySummarizer.DeptOf | pipelines/professors/old/summarizer.py:505-513 | a review's department, when it has one, is a non-empty capital run |
| LegacySummarizer.FirstMaxUnique | pipelines/professors/old/summarizer.py:519-521 | at most one department is the first most frequent, so the primary department is well defined |
| LegacySummarizer.FirstMaxOfOrder | pipelines/professors/old/summarizer.py:519-521 | `max` over the keys in insertion order, keeping the earlier on ties, gives the first most frequent element |
| LegacySummarizer.TagCounts | pipelines/professors/old/summarizer.py:765 | the counter holds exactly the tags that occur |
| LegacySummarizer.InsertByCount | pipelines/professors/old/summarizer.py:767 | inserting keeps every element and adds exactly one |
| LegacySummarizer.SortByCount | pipelines/professors/old/summarizer.py:767 | the sort keeps the same elements and the same length |
| LegacySummarizer.SortByCountSpec | pipelines/professors/old/summarizer.py:767 | the sort is in non-increasing count order, and keeps a repeat-free list repeat-free |
| LegacySummarizer.TopTagsSpec | pipelines/professors/old/summarizer.py:765-767 | at most ten distinct tags, all from the input, in non-increasing count order, and no tag left out is counted more often than a listed one |
| LegacySummarizer.TagCountsSum | pipelines/professors/old/summarizer.py:765-769 | the counter's values are the occurrence counts and add up to the number of tags |
| LegacySummarizer.AggregateTags | pipelines/professors/old/summarizer.py:753-769 | the loop gathers every review's tags in order, then returns the ten most common and the full counter |
| LegacySummarizer.OriginalCodes | pipelines/professors/old/summarizer.py:909 | the present codes, none of them empty |
| LegacySummarizer.ImageCardinality | pipelines/professors/old/summarizer.py:913-915 | a function maps a set onto at most as many values |
| LegacySummarizer.MergedNonNegative | pipelines/professors/old/summarizer.py:913-915 | normalising cannot create distinct codes: the merge count is never negative |
| LegacySummarizer.MergeOrigins | pipelines/professors/old/summarizer.py:918-922 | the merge loop maps each normalised code, and only those, to the set of originals normalising to it |
| LegacySummarizer.MappingTakesEffect | pipelines/professors/old/summarizer.py:875-883 | after adding an alias, a code written with the old department comes out under the new one unless a cross-listing names it |
| LegacySummarizer.CrossListingTakesEffect | pipelines/professors/old/summarizer.py:886-896 | after adding a cross-listing, that course comes out as the canonical code, upper-cased, unless an alias renames the department first |
| LegacySummarizer.ReviewSummarizer.constructor | pipelines/professors/old/summarizer.py:49-89 | the summariser starts with the built-in alias and cross-listing tables |
| LegacySummarizer.ReviewSummarizer.AddCourseMapping | pipelines/professors/old/summarizer.py:875-883 | both departments upper-cased; only the alias table changes |
| LegacySummarizer.ReviewSummarizer.AddCrossListing | pipelines/professors/old/summarizer.py:886-896 | the department and canonical code upper-cased, the number as given; only the cross-listing table changes |
| LegacySummarizer.ReviewSummarizer.GroupReviewsByCourseNumber | pipelines/professors/old/summarizer.py:632-674 | a partition of the reviews by their number key, each group in input order |
| LegacySummarizer.ReviewSummarizer.GroupByFullCourseCode | pipelines/professors/old/summarizer.py:698-721 | a partition of the reviews by their normalised code, each group in input order |
| LegacySummarizer.ReviewSummarizer.GroupReviewsByNormalizedCourse | pipelines/professors/old/summarizer.py:676-696 | by number only when asked and a department is given, else by full code; either way every review lands in exactly one group |
| LegacySummarizer.ReviewSummarizer.GetNormalizationStats | pipelines/professors/old/summarizer.py:899-932 | the counts of present, distinct original and distinct normalised codes, a non-negative merge count, and exactly the normalised codes reached from two or more originals with those originals |
| LegacySummarizer.ReviewSummarizer.PrimaryDepartment | pipelines/professors/old/summarizer.py:492-523 | "UNKN" when no review yields a department, else the most frequent department, ties going to the first seen |
| LegacySummarizer.CountDepartments | pipelines/professors/old/summarizer.py:503-513 | the counting loop yields the departments in first-seen order and each one's count |
| LegacySummarizer.CountOne | pipelines/professors/old/summarizer.py:513 | one counting step appends a new department to the order and adds one to its count |
| LegacySummarizer.MostCounted | pipelines/professors/old/summarizer.py:519-521 | the scan over the keys returns the first most frequent department |
| SummaryDb.NormalizeSpaced | database/summary.py:446-488 | a code written "DEPT 123" is resolved from its department and number |
| SummaryDb.NormalizePunct | database/summary.py:446-488 | a code written "DEPT-123", with any punctuation mark, is resolved from its department and number |
| SummaryDb.NormalizeAlnum | database/summary.py:446-488 | a code of letters and digits whose upper-case form is DEPT123 is resolved from its department and number |
| SummaryDb.NormalizeLetters | database/summary.py:446-459 | a code of letters only does not match and comes back upper-cased |
| SummaryDb.SampleNormalizations | database/summary.py:1348-1351 | with the built-in tables "CPSC 222", "csce222" and "ECEN-222" give CSCE222, "CS 314" and "CSCE314" give CSCE314, and "Unknown" gives UNKNOWN |
| SummaryDb.InContext | database/summary.py:159-166 | one contextualised sentence per sentence, in order |
| SummaryDb.CandidateSentencesSpec | database/summary.py:147-174 | every candidate is a stripped, terminator-free sentence of more than 20 characters from a review with text, contextualised for that review |
| SummaryDb.ReviewSentencesSpec | database/summary.py:151-166 | the sentences one review adds are meaningful sentences of its text, contextualised |
| SummaryDb.CourseSpecificUnprefixed | database/summary.py:159-164 | in a course-specific summary every candidate is an unprefixed meaningful sentence |
| SummaryDb.OverallPrefixed | database/summary.py:160-161 | in an overall summary a sentence of a review with a course code starts with "In", that code and a colon |
| SummaryDb.AddReviewSentences | database/summary.py:154-166 | the sentence loop of one review appends exactly that review's sentences |
| SummaryDb.ExtractKeySentences | database/summary.py:135-177 | the loops gather the candidates of every review in order; all of them are returned when there are no more than asked for, else the ranking's choice |
| SummaryDb.KeySentencesFew | database/summary.py:176-177 | with no more candidates than asked for, the key sentences are all the candidates, in order |
| SummaryDb.HybridSummary | database/summary.py:353-420 | "none" exactly for no reviews, "failed" exactly when no key sentence survives, "hybrid" or "hybrid_hierarchical" by the 10000-character limit otherwise, never "error"; the counts are filled in exactly on success |
| SummaryDb.HybridAsWritten | database/summary.py:400-430 | the code as written agrees with the intended hybrid summary exactly when there are no reviews, no key sentences, or an extractive text within 10000 characters; its error result carries the attribute-error message |
| SummaryDb.HybridAsWrittenLong | database/summary.py:400-430 | one review holding a single sentence over 10000 characters is its own key sentence, and the code as written returns the error result where the intended one takes the hierarchical branch |
| SummaryDb.StripLeadingMark | database/summary.py:915 | one leading character that is neither a word character nor whitespace is dropped, and nothing else changes |
| SummaryDb.PreparedPieceShape | database/summary.py:794-803 | a piece ends with the review's stripped text, has the period right after its context, starts with "Course: " in an overall summary, and is just ". " and the text in a course summary of a review without a grade |
| SummaryDb.PrepareTextForSummarization | database/summary.py:786-819 | the loop and the length check give the prepared text function: the joined pieces, or the reviews themselves past 8000 characters |
| SummaryDb.PrepareTextSpec | database/summary.py:786-819 | the reviews come back whole only when some review has text; the combined text is blank exactly when no review has text |
| SummaryDb.SummaryTextSpec | database/summary.py:821-828 | the no-text message exactly when no review has text; the short model on a short prepared text; otherwise the hybrid summary with the corrected fallback (see Findings), which then neither finds the list empty nor errs |
| SummaryDb.SummarizeReviews | database/summary.py:910-917 | the preparation and dispatch give the summary-text function, with a leading mark removed from an overall hybrid summary |
| SummaryDb.Upserted | database/summary.py:941-954 | an existing record under the id gets the new content and keeps its identity; otherwise the record is added; no other id changes |
| SummaryDb.IdsOf | database/summary.py:1033 | the ids of the records, position by position |
| SummaryDb.GroupIdInjective | database/summary.py:1001 | within one professor, distinct codes give distinct ids of each kind |
| SummaryDb.SummaryKeySpec | database/summary.py:1221-1244 | `get_summary` raises exactly when a course or number summary is asked for without a code, and otherwise looks up exactly the id the creators store under |
| SummaryDb.GroupRecordsSound | database/summary.py:981-1033 | every stored group record is the record of a group with at least two reviews |
| SummaryDb.GroupRecordFound | database/summary.py:981-1033 | every group with at least two reviews has its record |
| SummaryDb.GroupRecordsComplete | database/summary.py:981-1033 | every group with at least two reviews has its record, for all groups at once |
| SummaryDb.GroupRecordsDistinct | database/summary.py:1001 | the group records of one professor have distinct ids |
| SummaryDb.UpsertAllFinds | database/summary.py:1018-1031 | after upserting records with distinct ids, each is found under its id with its content |
| SummaryDb.CreatedGroupFound | database/summary.py:1221-1244 | after the groups are stored, looking up a group by its non-empty code and kind finds that group's summary |
| SummaryDb.SummaryStore.constructor | database/summary.py:24-38 | the summaries table starts empty, each record under its own id |
| SummaryDb.SummaryStore.Upsert | database/summary.py:941-954 | the table becomes the upserted table and keeps every record under its own id |
| SummaryDb.SummaryStore.GetSummary | database/summary.py:1221-1244 | raises exactly when a code is needed and missing; otherwise finds the record under the creators' id exactly when one is stored |
| SummaryDb.BuildGroupRecord | database/summary.py:989-1016 | the record of one group: its summary text, review count, tags and id |
| SummaryDb.SummarizeGroup | database/summary.py:981-1034 | a group with fewer than two reviews is skipped and the table unchanged; otherwise its record is upserted and its id returned |
| SummaryDb.SummarizeGroups | database/summary.py:981-1038 | the ids and the new table are those of upserting the records of the groups with two or more reviews, in key order |
| SummaryDb.CreateOverallSummary | database/summary.py:896-958 | no reviews gives no id and no change; otherwise the overall record is upserted under "<id>_overall" |
| SummaryDb.CreateCourseSpecificSummaries | database/summary.py:960-1038 | the reviews grouped by normalised code, each group of two or more summarised and upserted |
| SummaryDb.CreateCourseNumberSummaries | database/summary.py:1040-1125 | the reviews grouped by course number under the primary department, each group of two or more summarised and upserted under its "_NUM" id |
| SummaryDb.ProcessProfessor | database/summary.py:1127-1172 | the overall id exactly when there are reviews, no course-specific ids, and no number ids unless asked and reviews exist; the store is unchanged without reviews, otherwise it holds the old records with the overall record upserted and then, when asked, the course-number records of the primary department upserted in group order |
| SectionSchemas.RStripChars | pipelines/sections/schemas.py:22 | the result is a prefix of the name whose last character is not one of the stripped set, and every removed character is in the set |
| SectionSchemas.InstructorFromApi | pipelines/sections/schemas.py:20-35 | a string name and a falsy MORE always succeed; the record keeps the given primary flag, has_cv is HAS_CV == "Y", the pidm is present exactly when MORE is truthy, the CV url exactly when has_cv and MORE is truthy, and the name is NAME with the " (P)" characters stripped from the right |
| SectionSchemas.PrimaryMarkEatsTrailingP | pipelines/sections/schemas.py:22 | stripping the " (P)" marker as a character set also removes a trailing P of the name itself ("DOE, PHILIP (P)" gives "DOE, PHILI") |
| SectionSchemas.DaysOrdered | pipelines/sections/schemas.py:56-68 | the day codes come out in the order U,M,T,W,R,F,S without repetition, and a code is present exactly when its flag is truthy |
| SectionSchemas.MeetingFromApi | pipelines/sections/schemas.py:53-90 | the meeting keeps its index and the day codes of its truthy flags; the session credit hours are present exactly when the value is not None and int() accepts it (digit-grouping underscores included) |
| SectionSchemas.ParseInt | pipelines/sections/schemas.py:147-154 | None, "NA" and "" give None, an integer gives itself, another string gives a value exactly when, after stripping, it is an integer literal as int() reads it (an optional sign, then ASCII digits with single underscores between them), and a list or dict gives None |
| Json.UnderscoreGrouped | pipelines/sections/schemas.py:151 | int() reads digit groups: "1_000" is an integer literal worth 1000 |
| Json.UnderscoreMisplaced | pipelines/sections/schemas.py:151 | int() refuses a doubled, leading or trailing underscore, and one right after the sign |
| SectionSchemas.OnlyFirstPrimary | pipelines/sections/schemas.py:174-177 | of the instructors the loop builds, exactly the first is primary, and those built before are kept |
| SectionSchemas.MeetingsIndexed | pipelines/sections/schemas.py:193-194 | every meeting the loop builds carries its position in the list as its index |
| SectionSchemas.OnlyFirstInstructorPrimary | pipelines/sections/schemas.py:163-179 | whatever the instructor JSON (string, list, or something else), exactly the first decoded instructor is primary |
| SectionSchemas.MeetingsOfIndexed | pipelines/sections/schemas.py:182-196 | whatever the meeting JSON, each decoded meeting's index is its position |
| SectionSchemas.AssembleSection | pipelines/sections/schemas.py:159-233 | the id is term code, "_" and CRN; is_open and has_syllabus are the "Y" tests; a syllabus url exists exactly when has_syllabus; credit hours are absent exactly when HRS_COLUMN_FIELD is None; the decoded instructors and meetings are kept as given |
| SectionSchemas.SectionFromApi | pipelines/sections/schemas.py:157-233 | the same facts as the assembled section, plus exactly one primary instructor (the first) and meeting indexes equal to positions |
| SectionSchemas.TermFromApi | pipelines/sections/schemas.py:246-254 | the code and description are str() of the fields (default ""), and the term is built exactly when the three date and year fields are strings or None |
| SectionSchemas.Semester | pipelines/sections/schemas.py:257-266 | Spring when the lowered description contains "spring", else Summer when it contains "summer", else Fall when it contains "fall", else Other |
| SectionSchemas.YearOfDigitCode | pipelines/sections/schemas.py:269-274 | a term code whose first four characters are digits has those digits' value as its year |
| SectionSchemas.YearOfCodeNeedsDigits | pipelines/sections/schemas.py:269-274 | a term code without a digit among its first four characters has no year |
| SectionSchemas.NoDigitNotParsed | pipelines/sections/schemas.py:271-274 | int() rejects text with no digit, so the year falls back to None |
| SectionSchemas.Campus | pipelines/sections/schemas.py:277-288 | Unknown exactly when the description names none of the four campuses; otherwise the campus returned occurs in the description |
| SectionSchemas.AttributeFromApi | pipelines/sections/schemas.py:306-320 | the record's id is section id, "_" and the attribute code, and the code is SSRATTR_ATTR_CODE |
| SectionSchemas.PrereqFromApi | pipelines/sections/schemas.py:333-344 | empty data gives no text and no JSON; the JSON is kept exactly when the prerequisite text is non-empty, and then it is the data itself |
| SectionSchemas.FirstTruthy | pipelines/sections/schemas.py:413-421 | the value of the first field that is truthy, or None exactly when no field is truthy |
| SectionSchemas.RestrictionFromApi | pipelines/sections/schemas.py:364-436 | the record keeps its type and index, its id is section id, type and index joined by "_", and a code is present exactly when some code field is truthy |
| SectionSchemas.BookstoreFromApi | pipelines/sections/schemas.py:449-468 | empty data gives no url and no link data; otherwise the link data is the data itself and a truthy BOOKSTORE_URL is the url |
| SectionScraper.SelectTerms | pipelines/sections/scraper.py:88-109 | the call succeeds exactly when every payload converts, and then returns exactly the converted terms that pass the filter (semester substring when a filter is given, else year of the code at least the current year with current_only, else all), in input order, each once |
| SectionScraper.CurrentTermsByYear | pipelines/sections/scraper.py:96-103 | with current_only and no filter, a code starting with four digits is kept exactly when that year is not before the current year |
| SectionScraper.UndatedTermsDropped | pipelines/sections/scraper.py:99-105 | with current_only and no filter, a code with no digit among its first four characters is dropped, since int() raises |
| SectionScraper.ParseSections | pipelines/sections/scraper.py:135-145 | the result is exactly the payloads whose conversion succeeds, converted, in input order, each once; the failed ones are skipped; every section belongs to the term and has id term code "_" CRN |
| SectionScraper.SectionsByDepartment | pipelines/sections/scraper.py:204-219 | a section is kept exactly when its department equals the requested one after upper-casing both |
| SectionScraper.SectionsByCourse | pipelines/sections/scraper.py:222-242 | a section is kept exactly when its department matches case-insensitively and its course number equals the requested one |
| SectionScraper.UpperIgnoresCase | pipelines/sections/scraper.py:219 | two codes that agree letter by letter after upper-casing compare equal |
| SectionScraper.ByDepartmentIgnoresCase | pipelines/sections/scraper.py:219 | asking for the lower-cased department gives the same list, in the same order |
| SectionScraper.ByCourseNarrowsDepartment | pipelines/sections/scraper.py:219-242 | the course filter equals the department filter followed by the course-number filter |
| SectionScraper.TruthyValues | pipelines/sections/scraper.py:278-279 | the set holds exactly the non-empty values the field takes over the sections |
| SectionScraper.SectionStatistics | pipelines/sections/scraper.py:245-293 | empty input gives the all-zero dictionary without a fill rate; otherwise total counts all sections and splits into open and closed, the seat sums treat a missing count as 0, the fill rate is enrolled over total seats (0 when there are none), the department and course counts are the sizes of the sets and lie between 1 and the total |
| SectionScraper.SeatTotalMonotone | pipelines/sections/scraper.py:272-273 | a sum that is no larger section by section is no larger in total |
| SectionScraper.FillRateIsFraction | pipelines/sections/scraper.py:272-288 | when no section is enrolled past its capacity the fill rate lies between 0 and 1 |
| SectionScraper.NoCapacityNoFillRate | pipelines/sections/scraper.py:272-288 | sections with no recorded capacity have total seats 0 and fill rate 0 rather than a division by zero |
| SectionScraper.SeatTotalZero | pipelines/sections/scraper.py:272 | a field missing from every section sums to 0 |
| SectionScraper.AttributesFrom | pipelines/sections/scraper.py:372-377 | one attribute per list item, each the conversion of the item at its position |
| SectionScraper.RestrictionsFrom | pipelines/sections/scraper.py:392-397 | one restriction per list item, numbered from the start index in list order, with the endpoint's type and the section's id |
| SectionScraper.AddDetail | pipelines/sections/scraper.py:366-397 | a None result changes nothing; the identity is kept; attributes and restrictions only grow; a non-restriction endpoint adds no restriction, and a restriction endpoint adds restrictions of its mapped type numbered from 0 |
| SectionScraper.AssembleDetails | pipelines/sections/scraper.py:345-407 | the identity is kept and every added restriction has a type from the restriction map and the section's id |
| SectionScraper.NullResultsSkipped | pipelines/sections/scraper.py:366-368 | endpoints that all answered None leave the details empty as they started |
| SectionScraper.RestrictionIndexIsPosition | pipelines/sections/scraper.py:389-397 | one restriction endpoint adds as many restrictions as its list has items, the k-th numbered k |
| AnexGpa.Priority | pipelines/gpa/anex_scraping.py:71 | SUMMER, SPRING and FALL rank 1 to 3; any other name gets the caller's default (999 in the scan, 0 in the filter); the same code recurs at lines 93, 226, 252-253 |
| AnexGpa.FourDigitsFrom | pipelines/gpa/anex_scraping.py:88 | the leftmost position from the start at which four digits begin, or the end of the text when there is none; the same code recurs at line 235 |
| AnexGpa.YearMatch | pipelines/gpa/anex_scraping.py:88 | a match is a run of exactly four digits; the same code recurs at lines 235, 246 |
| AnexGpa.YearMatchFour | pipelines/gpa/anex_scraping.py:246-248 | a four-digit year string matches itself, so the stored bound reads as its own value |
| AnexGpa.Keep | pipelines/gpa/anex_scraping.py:231-264 | the filter decides only when the entry's semester is a string (otherwise .upper() raises and the entry is skipped), and keeps the entry exactly when its year is later, or the same year with a strictly smaller semester rank |
| AnexGpa.Converted | pipelines/gpa/anex_scraping.py:272-317 | an entry yields a record exactly when its conversion does not raise, and then that record |
| AnexGpa.ClassItems | pipelines/gpa/anex_scraping.py:222-228 | a list yields its items; a string or dict yields only non-dict entries; anything else is not iterable |
| AnexGpa.Records | pipelines/gpa/anex_scraping.py:209-219 | an unsuccessful or data-less response gives no records |
| AnexGpa.ExtractClassRecords | pipelines/gpa/anex_scraping.py:209-319 | the loop's result equals the specification function: the records of the entries that convert and pass the filter, in order |
| AnexGpa.CollectEntries | pipelines/gpa/anex_scraping.py:228-317 | the loop appends what each entry yields and skips the rest |
| AnexGpa.FilterRule | pipelines/gpa/anex_scraping.py:231-313 | with both bounds set, an entry yields a record exactly when it converts, its semester is a string and the filter keeps it, and the record is the entry's own |
| AnexGpa.KeptSpec | pipelines/gpa/anex_scraping.py:228-317 | no more records than entries, and a record is present exactly when some entry yields it |
| AnexGpa.RecordsFromEntries | pipelines/gpa/anex_scraping.py:218-319 | every record of a response comes from one of its class entries under the response's filter, and every such record is present |
| AnexGpa.UnfilteredOnePerEntry | pipelines/gpa/anex_scraping.py:228-317 | without a bound, the number of records is the number of entries that convert |
| AnexGpa.KeptCount | pipelines/gpa/anex_scraping.py:228-317 | when the loop body accepts exactly the entries satisfying a predicate, the loop appends one record per such entry among those visited |
| AnexGpa.CandidateOf | pipelines/gpa/anex_scraping.py:84-92 | the scan's year, when present, is four digits and its value is the year number |
| AnexGpa.IsNewer | pipelines/gpa/anex_scraping.py:101-108 | an entry is newer exactly when it has a year and that year is later, or equal with a smaller semester rank |
| AnexGpa.GetNewestSemester | pipelines/gpa/anex_scraping.py:59-138 | the method returns the specification's newest year and semester; no class list, an empty one, a non-dict entry, or no dated entry gives None |
| AnexGpa.ScanClasses | pipelines/gpa/anex_scraping.py:66-117 | the loop stops at the first non-dict entry and otherwise ends with the chosen year and semester of the scan |
| AnexGpa.ScanMaximal | pipelines/gpa/anex_scraping.py:103-117 | no dated entry is newer than the chosen one |
| AnexGpa.ScanAttained | pipelines/gpa/anex_scraping.py:103-117 | a year is chosen exactly when the scan took some entry; the entry taken supplies the year match, semester, year number and priority of the result, and it is strictly newer than every earlier dated entry, so of equally new entries the first wins |
| AnexGpa.NothingNewerAfterNewest | pipelines/gpa/anex_scraping.py:83-117 | used as the bound, the newest semester filters out every dated entry of the same response whose semester is a known name |
| AnexGpa.ClassYearAgrees | pipelines/gpa/anex_scraping.py:88-92 | where the scan finds a year, the filter reads the same year |
| AnexGpa.KnownSemesterAgrees | pipelines/gpa/anex_scraping.py:85 | a known semester name reads the same in the scan and in the filter; the same code recurs at line 243 |
| AnexGpa.ScannedSemesterUpper | pipelines/gpa/anex_scraping.py:85 | the semester the scan returns is upper-case, so the filter's .upper() leaves it as it is; the same code recurs at line 252 |
| AnexGpa.NotNewerIsNotKept | pipelines/gpa/anex_scraping.py:252-264 | an entry with a known semester that is not newer than the bound in the scan's order is filtered out |
| AnexGpa.UnknownSemesterReadmitted | pipelines/gpa/anex_scraping.py:93 | an entry of the bound's year whose semester name is unknown ranks 0 in the filter and is kept whenever the bound is a known semester, although the scan ranks it 999; the same code recurs at lines 252-264 |
| GpaRecords.GradeCountsUpTo | pipelines/gpa/anex_scraping.py:273-286 | the counts are int() of the grade columns (0 when absent), in column order, and they exist exactly when every int() succeeds; the same code recurs at lines 300-309 |
| GpaRecords.GpaValue | pipelines/gpa/anex_scraping.py:299 | an empty gpa string is None; any other value gives exactly what the float conversion gives: ints and floats pass, bools become 0.0 or 1.0, and a string passes exactly when, stripped, it is digits with an optional fraction, and then gives that decimal |
| GpaRecords.ClassRecord | pipelines/gpa/anex_scraping.py:272-311 | a record is built exactly when the entry is a dict, every grade converts, the six id keys and gpa are present and gpa converts; its counts are the converted columns, total_students is their sum, the id joins dept, number, section, year, semester and prof with "_", and the descriptive fields are copied |
| GpaRecords.PydInt | pipelines/gpa/schemas.py:32-42 | an int field in lax mode: ints pass, bools become 0 or 1, a float passes exactly when it is whole and keeps its value, a string passes exactly when, stripped, it is an integer literal (sign, digits, single underscores between digits) and gives its value; None, lists and dicts are rejected |
| GpaRecords.PydOptFloat | pipelines/gpa/schemas.py:31 | an optional float field in lax mode: None gives None and only None does; floats, ints and bools pass with their value; a string passes exactly when, stripped, it is a decimal numeral and gives that decimal; lists and dicts are rejected |
| GpaRecords.SchemaGradesUpTo | pipelines/gpa/upsert_gpa_data.py:146-156 | each grade field, 0 when absent, must validate as an int, and the validated counts keep their order |
| GpaRecords.ConvertToSchema | pipelines/gpa/upsert_gpa_data.py:133-157 | a missing required key raises KeyError; a validated record has all ten grade counts |
| GpaRecords.ConvertDefaults | pipelines/gpa/upsert_gpa_data.py:145-156 | a dictionary with only the string keys validates with no gpa and every count 0 |
| GpaRecords.AsDict | pipelines/gpa/anex_scraping.py:291-311 | the dictionary form of a record has every key the schema requires |
| GpaRecords.AsDictFields | pipelines/gpa/anex_scraping.py:291-311 | each value of a record sits under its own key in the dictionary form |
| GpaRecords.AsDictGrades | pipelines/gpa/anex_scraping.py:300-309 | each grade count sits under its grade field |
| GpaRecords.ConvertRecord | pipelines/gpa/upsert_gpa_data.py:133-173 | an extracted record validates exactly when its six copied fields are strings, and then the schema carries every value over unchanged |
| GpaRecords.ConvertFields | pipelines/gpa/upsert_gpa_data.py:133-157 | the same for any dictionary holding the record's values under the schema's keys |
| GpaRecords.Chunks | pipelines/gpa/upsert_gpa_data.py:206-209 | a batch size of 0 raises; a negative one yields nothing |
| GpaRecords.ChunksFromFlatten | pipelines/gpa/upsert_gpa_data.py:208-209 | the slices from an offset put back together give the rest of the list |
| GpaRecords.ChunksFromSizes | pipelines/gpa/upsert_gpa_data.py:208-209 | every slice but the last has n items and the last between 1 and n |
| GpaRecords.ChunksFromCount | pipelines/gpa/upsert_gpa_data.py:208 | there are just enough slices to hold the rest of the list |
| GpaRecords.ChunksSpec | pipelines/gpa/upsert_gpa_data.py:206-209 | for a positive size the chunks concatenate to the list, all but the last have exactly n items, the last between 1 and n, and there are none exactly for an empty list |
| GpaRecords.ChunksBounded | pipelines/gpa/upsert_gpa_data.py:206-209 | every chunk holds between 1 and n items |
| UpsertGpa.LatestKeys | pipelines/gpa/upsert_gpa_data.py:260-264 | a course has a bound exactly when some row for it has both year and semester set |
| UpsertGpa.LatestValue | pipelines/gpa/upsert_gpa_data.py:260-264 | the bound of a course is the year and semester of its last row with both set |
| UpsertGpa.DispatchFiltered | pipelines/gpa/upsert_gpa_data.py:266-273 | a response for a course with a bound is filtered by that bound |
| UpsertGpa.DispatchUnfiltered | pipelines/gpa/upsert_gpa_data.py:274-276 | a response for a course without a bound gets every record |
| UpsertGpa.FailureStays | pipelines/gpa/upsert_gpa_data.py:266-277 | once an extraction raises, the run stays failed with that error |
| UpsertGpa.CollectRecords | pipelines/gpa/upsert_gpa_data.py:257-277 | the loop's result equals the specification: the concatenation, response by response, of each response's records |
| UpsertGpa.CollectedFromResponses | pipelines/gpa/upsert_gpa_data.py:266-277 | every collected record comes from some response under its own bound, and no response's records are left out |
| UpsertGpa.GatheredFrom | pipelines/gpa/upsert_gpa_data.py:266-277 | a successful gathering visited only items whose extraction succeeded, and holds exactly the records of those items |
| UpsertGpa.GatheredIsAllRecords | pipelines/gpa/upsert_gpa_data.py:266-277 | collecting the responses in order is gathering each response's records under its own bound |
| UpsertGpa.Batches | pipelines/gpa/upsert_gpa_data.py:35 | the insert batches concatenate to all records, every batch but the last has 5000 records, and each has between 1 and 5000; the same code recurs at line 293 |
| FetchGpaBulk.BulkRecords | scripts/fetch_gpa_bulk.py:105-110 | an unsuccessful or data-less response gives no records |
| FetchGpaBulk.ExtractClassRecords | scripts/fetch_gpa_bulk.py:105-159 | the loop's result equals the specification: one stamped record per class entry that converts, in order |
| FetchGpaBulk.Unstamped | scripts/fetch_gpa_bulk.py:149-150 | dropping the timestamps keeps each record at its position |
| FetchGpaBulk.BulkEntryStamps | scripts/fetch_gpa_bulk.py:115-157 | an entry yields the scraper's unfiltered record with both timestamps set to the current time |
| FetchGpaBulk.KeptUnstamped | scripts/fetch_gpa_bulk.py:115-157 | without their timestamps the bulk loop's records are the unfiltered loop's records, and every timestamp is the current time |
| FetchGpaBulk.SameAsUnfiltered | scripts/fetch_gpa_bulk.py:105-159 | the bulk extraction succeeds exactly when the scraper's unfiltered extraction does, gives the same records, and stamps every one with the current time |
| FetchGpaBulk.OnePerConvertingEntry | scripts/fetch_gpa_bulk.py:115-157 | there is one record per class entry that converts |
| FetchGpaBulk.Batches | scripts/fetch_gpa_bulk.py:26 | the insert batches concatenate to all records and each holds between 1 and 10000 records; the same code recurs at lines 200-203, 315 |
| CourseCatalog.Skip | pipelines/courses/course_catalog_scraping.py:144-162 | a greedy character-class run: every character it covers is in the class and the next one is not |
| CourseCatalog.Search | pipelines/courses/course_catalog_scraping.py:187-224 | re.search: the match found is the leftmost position at which the pattern matches, and no match means no position matches; the same code recurs at lines 233-237 |
| CourseCatalog.SearchFinds | pipelines/courses/course_catalog_scraping.py:187-224 | a match at a position with no earlier match is exactly what the search returns |
| CourseCatalog.Find | pipelines/courses/course_catalog_scraping.py:272 | str.find: -1 exactly when the text never occurs, otherwise its first occurrence; the same code recurs at lines 400, 435 |
| CourseCatalog.NbspToSpace | pipelines/courses/course_catalog_scraping.py:144 | each non-breaking space becomes a space and every other character stays in place |
| CourseCatalog.NormalizedOneLine | pipelines/courses/course_catalog_scraping.py:144 | a normalized title contains no line break, so $ in the title patterns is the end of the text |
| CourseCatalog.CodeEnd | pipelines/courses/course_catalog_scraping.py:148-162 | a course-code match covers at least one character |
| CourseCatalog.NameStart | pipelines/courses/course_catalog_scraping.py:148-162 | the captured name starts after at least one whitespace character and is non-empty, with the regex's give-back when the whitespace reaches the end |
| CourseCatalog.CrossEnd | pipelines/courses/course_catalog_scraping.py:148 | the second code of a slash title starts right after the slash |
| CourseCatalog.CodeFound | pipelines/courses/course_catalog_scraping.py:148-162 | a code written as capitals, one space, digits and capitals, followed by a space, a slash or the end, is matched whole |
| CourseCatalog.MatchPlain | pipelines/courses/course_catalog_scraping.py:160-168 | a title whose code is followed by one space and a name is read by the plain pattern, the code rebuilt with one space |
| CourseCatalog.MatchSlash | pipelines/courses/course_catalog_scraping.py:146-158 | a title with two slash-joined codes followed by one space and a name is read by the cross-listed pattern |
| CourseCatalog.PlainTitleAt | pipelines/courses/course_catalog_scraping.py:160-168 | a laid-out plain title yields its code, its stripped name and no cross-listing |
| CourseCatalog.SlashTitleAt | pipelines/courses/course_catalog_scraping.py:146-158 | a laid-out slash title yields the first code, the stripped name and the second code as cross-listing |
| CourseCatalog.TitleRoundTrip | pipelines/courses/course_catalog_scraping.py:139-168 | "DEPT NUM Name" reads back as the code "DEPT NUM", the name and no cross-listing |
| CourseCatalog.CrossTitleRoundTrip | pipelines/courses/course_catalog_scraping.py:146-158 | "DEPT NUM/DEPT2 NUM2 Name" reads back as the first code, the name and the second code as cross-listing |
| CourseCatalog.CreditWordEnd | pipelines/courses/course_catalog_scraping.py:188-206 | "Credit" or "Credits" in any case must be followed by whitespace before the number |
| CourseCatalog.RoundHalfEven | pipelines/courses/course_catalog_scraping.py:197-210 | Python's round: within one half of the number, and an exact half goes to the even neighbour |
| CourseCatalog.RangeHasSingle | pipelines/courses/course_catalog_scraping.py:184-210 | wherever the range pattern matches, the single-credit pattern matches too |
| CourseCatalog.Credits | pipelines/courses/course_catalog_scraping.py:184-210 | credits are present exactly when the single-credit pattern matches somewhere (the range pattern, tried first, can only match where it does) |
| CourseCatalog.CreditsFromFirstRange | pipelines/courses/course_catalog_scraping.py:187-197 | when a credit range matches, the leftmost one decides: the credits are its second number rounded half to even |
| CourseCatalog.CreditsFromFirstSingle | pipelines/courses/course_catalog_scraping.py:202-210 | with no credit range anywhere, the leftmost single credit value decides, rounded half to even |
| CourseCatalog.CreditsOfRange | pipelines/courses/course_catalog_scraping.py:184-197 | "Credits a to b" and "Credits a-b" with whole numbers give b, the maximum of the range |
| CourseCatalog.CreditsOfSingle | pipelines/courses/course_catalog_scraping.py:202-210 | "Credits a" with a whole number gives a |
| CourseCatalog.HoursOf | pipelines/courses/course_catalog_scraping.py:212-224 | "n Lecture Hours", "n Lab Hours" and "n Other Hours" read back as n |
| CatalogPrereqs.SplitAt | pipelines/courses/course_catalog_scraping.py:292 | re.split over a pattern that never matches the empty string always yields at least one piece |
| CatalogPrereqs.SemicolonAt | pipelines/courses/course_catalog_scraping.py:292 | a match of the separator `\s*;\s*` is non-empty and stays inside the text |
| CatalogPrereqs.SplitNoSemicolon | pipelines/courses/course_catalog_scraping.py:289-292 | no group text produced by the split at semicolons contains a semicolon |
| CatalogPrereqs.PrereqStartAt | pipelines/courses/course_catalog_scraping.py:233-239 | a match of the "Prerequisite(s):" keyword is at least twelve characters long and stays inside the text |
| CatalogPrereqs.FirstStop | pipelines/courses/course_catalog_scraping.py:254 | the search for a stop pattern returns its leftmost match, and no match means the pattern matches nowhere |
| CatalogPrereqs.FindPrereqEnd | pipelines/courses/course_catalog_scraping.py:252-256 | the loop over the stop patterns, in order, lowers the end to the earliest match; given the source's five patterns it computes the prerequisite end of the section |
| CatalogPrereqs.PrereqEndUpToSpec | pipelines/courses/course_catalog_scraping.py:252-256 | after n patterns have been tried, the i-th of them (any i below n) matches nowhere before the end reached |
| CatalogPrereqs.PrereqEndUpToFirst | pipelines/courses/course_catalog_scraping.py:252-256 | after n patterns have been tried, the first match of any one of them lies at or after the end found so far |
| CatalogPrereqs.PrereqEndUpToMatch | pipelines/courses/course_catalog_scraping.py:252-256 | after n patterns the end is the section's length or a match of one of those patterns |
| CatalogPrereqs.PrereqEndSpec | pipelines/courses/course_catalog_scraping.py:243-256 | the prerequisite text ends at the earliest match of any stop pattern ("; also taught", "; also offered", ". Corequisite", ". Cross Listing", a final period), or at the end of the section |
| CatalogPrereqs.TrailingMarkIsLast | pipelines/courses/course_catalog_scraping.py:258-260 | on stripped text the trailing-mark pattern `[.;]\s*$` can only match a final period or semicolon |
| CatalogPrereqs.MarkIsLast | pipelines/courses/course_catalog_scraping.py:260 | when the text does not end in whitespace the trailing-mark pattern can only match its last character |
| CatalogPrereqs.CleanPrereq | pipelines/courses/course_catalog_scraping.py:258-260 | the cleaned prerequisite text neither begins nor ends with whitespace |
| CatalogPrereqs.CleanPrereqSpec | pipelines/courses/course_catalog_scraping.py:258-260 | cleaning removes exactly one final period or semicolon (then strips again) and otherwise only strips |
| CatalogPrereqs.LinkSectionEndUpTo | pipelines/courses/course_catalog_scraping.py:265-274 | the link-section end after any number of stop phrases stays inside the description |
| CatalogPrereqs.FindLinkSectionEnd | pipelines/courses/course_catalog_scraping.py:265-274 | the loop over the four stop phrases computes the link-section end |
| CatalogPrereqs.LinkSectionEndSpec | pipelines/courses/course_catalog_scraping.py:265-278 | the link section ends at the earliest first occurrence of "cross listing", "corequisite", "concurrent enrollment" or "also taught" that lies past index 0, and is the whole text otherwise |
| CatalogPrereqs.SlashParts | pipelines/courses/course_catalog_scraping.py:320-322 | splitting a link text at slashes yields at least one part |
| CatalogPrereqs.SlashCodes | pipelines/courses/course_catalog_scraping.py:358-360 | the non-empty stripped parts of a cross-listed link never include an empty code |
| CatalogPrereqs.Slice | pipelines/courses/course_catalog_scraping.py:330-333 | Python slicing with non-negative bounds never yields more than the text |
| CatalogPrereqs.LinkCourses | pipelines/courses/course_catalog_scraping.py:305-369 | a link adds courses to a group only when it starts like a course code, is not the course's own code and appears in the group text |
| CatalogPrereqs.GatheredFrom | pipelines/courses/course_catalog_scraping.py:303-369 | every course gathered for a group comes from one of the description's links |
| CatalogPrereqs.IndicesSpec | pipelines/courses/course_catalog_scraping.py:296-375 | the kept positions are exactly those whose element passes the test, in increasing order |
| CatalogPrereqs.GroupOriginsIndex | pipelines/courses/course_catalog_scraping.py:296-375 | each prerequisite group is the group of the group text it came from, and that text's index is in range |
| CatalogPrereqs.OriginsSnoc | pipelines/courses/course_catalog_scraping.py:372-375 | appending a group and its text index keeps every earlier group aligned with its text |
| CatalogPrereqs.GroupOriginsIncrease | pipelines/courses/course_catalog_scraping.py:296-375 | the groups come out in the order of their group texts |
| CatalogPrereqs.GroupOriginsComplete | pipelines/courses/course_catalog_scraping.py:296-375 | a group text yields a group exactly when it does not open with "or concurrent enrollment" and some link contributes a course to it |
| CatalogPrereqs.CollectGroup | pipelines/courses/course_catalog_scraping.py:303-369 | the per-group loop with its seen set gathers every link's courses once each, in first-seen order |
| CatalogPrereqs.CollectLink | pipelines/courses/course_catalog_scraping.py:358-369 | adding one link's courses keeps the group de-duplicated and the seen set equal to the group's members |
| CatalogPrereqs.CollectGroups | pipelines/courses/course_catalog_scraping.py:296-384 | the group loop yields the prerequisite groups and their text indices, and the flat list holds each course of any group exactly once, in first-seen order |
| CatalogPrereqs.GroupsStep | pipelines/courses/course_catalog_scraping.py:296-375 | one more group text adds its group and index exactly when it is neither skipped nor empty |
| CatalogPrereqs.FlattenMembers | pipelines/courses/course_catalog_scraping.py:378-384 | a course is in the flattened groups exactly when it is in one of them |
| CatalogPrereqs.GroupsSpec | pipelines/courses/course_catalog_scraping.py:296-375 | every group is non-empty, repeats no course, and each course was contributed to one of the group texts |
| CatalogPrereqs.FromEarlierText | pipelines/courses/course_catalog_scraping.py:296-375 | a course contributed to an earlier group text stays contributed as more texts are read |
| CatalogPrereqs.GroupOfSpec | pipelines/courses/course_catalog_scraping.py:303-369 | a group repeats no course and each of its courses comes from one link |
| CatalogPrereqs.AppendGroup | pipelines/courses/course_catalog_scraping.py:372-375 | appending a non-empty repeat-free group keeps every group non-empty and repeat-free |
| CatalogPrereqs.GroupsSpecStep | pipelines/courses/course_catalog_scraping.py:296-375 | the inductive step of the group invariant |
| CatalogPrereqs.PrereqGroupsSpec | pipelines/courses/course_catalog_scraping.py:296-375 | every prerequisite group is non-empty, repeats no course, and each course came from a link that starts like a course code, is not the course's own code and appears in the group's text |
| CatalogPrereqs.PrereqKeywordEnd | pipelines/courses/course_catalog_scraping.py:233-239 | the end of the first "Prerequisite(s):" keyword lies inside the description |
| CatalogCoreqs.AddNewSnoc | pipelines/courses/course_catalog_scraping.py:463-465 | appending what is new from one more course adds that course exactly when it is not there yet |
| CatalogCoreqs.AddNewSpec | pipelines/courses/course_catalog_scraping.py:463-465 | appending what is new keeps the old list in front, holds exactly the courses of both lists, and adds no repeat |
| CatalogCoreqs.AddNewIsDedup | pipelines/courses/course_catalog_scraping.py:519-527 | appending what is new to an empty list is order-preserving de-duplication |
| CatalogCoreqs.AppendNew | pipelines/courses/course_catalog_scraping.py:463-465 | the loop appending each course not yet listed computes the append-what-is-new list |
| CatalogCoreqs.AddGroupSpec | pipelines/courses/course_catalog_scraping.py:459-465 | adding a corequisite group puts it among the groups exactly once and its courses in the flat list, keeping the two consistent and free of repeats |
| CatalogCoreqs.CoreqLeadEnd | pipelines/courses/course_catalog_scraping.py:393-397 | a match of "Corequisite in" or "Concurrent enrollment in" is non-empty and stays inside the text |
| CatalogCoreqs.SlashOptEnd | pipelines/courses/course_catalog_scraping.py:394 | the optional "/CODE" part of the corequisite pattern never moves backwards and stays inside the text |
| CatalogCoreqs.CoreqAt | pipelines/courses/course_catalog_scraping.py:393-397 | a match of the corequisite pattern captures a non-empty course list after its lead words |
| CatalogCoreqs.FirstCoreq | pipelines/courses/course_catalog_scraping.py:393-397 | the search for the corequisite clause returns its leftmost match, and no match means the pattern matches nowhere |
| CatalogCoreqs.ClauseCourses | pipelines/courses/course_catalog_scraping.py:412-425 | the clause's courses are its non-empty slash parts for a cross-listed code, or the code itself, and never the course's own code |
| CatalogCoreqs.ClauseCoreqs | pipelines/courses/course_catalog_scraping.py:393-429 | the clause keeps the groups and the flat list consistent and repeat-free, never lists the course's own code, and sets the text whenever it lists a course |
| CatalogCoreqs.ClauseGroup | pipelines/courses/course_catalog_scraping.py:407-429 | a clause that is not preceded by "or concurrent enrollment" sets the text "Concurrent enrollment in" followed by the captured list and adds one consistent group |
| CatalogCoreqs.MapGroups | pipelines/courses/course_catalog_scraping.py:449-465 | the corrected mapping adds exactly the prerequisite groups whose own group text mentions "or concurrent enrollment", and leaves the text alone |
| CatalogCoreqs.MapKeeps | pipelines/courses/course_catalog_scraping.py:451-465 | the mapping keeps the groups and the flat list consistent and free of repeats |
| CatalogCoreqs.MapConcurrent | pipelines/courses/course_catalog_scraping.py:451-465 | the mapping loop over the prerequisite groups computes the corrected mapping |
| CatalogCoreqs.MappingMisaligned | pipelines/courses/course_catalog_scraping.py:449-461 | as written, a group text with no course link shifts the indices, so the group of a later text that says "or concurrent enrollment" is not added; the corrected mapping adds it |
| CatalogCoreqs.SlashRunEnd | pipelines/courses/course_catalog_scraping.py:476 | the repeated "/CODE" part of the older list pattern never moves backwards and stays inside the text |
| CatalogCoreqs.OrRunEnd | pipelines/courses/course_catalog_scraping.py:476 | the repeated "or CODE" part of the older list pattern never moves backwards and stays inside the text |
| CatalogCoreqs.OrListAt | pipelines/courses/course_catalog_scraping.py:475-479 | a match of the ", or concurrent enrollment" list pattern captures a non-empty course list that starts where the match starts |
| CatalogCoreqs.OrTailEnd | pipelines/courses/course_catalog_scraping.py:476 | the ", or concurrent enrollment" tail is non-empty and stays inside the text |
| CatalogCoreqs.OrSepAt | pipelines/courses/course_catalog_scraping.py:486-488 | a match of the separator `\s+or\s+` is non-empty and stays inside the text |
| CatalogCoreqs.ListGroupSpec | pipelines/courses/course_catalog_scraping.py:480-511 | the group an older-style course list makes repeats nothing, leaves out the course's own code and holds every other code of every "or" part |
| CatalogCoreqs.GatheredMembers | pipelines/courses/course_catalog_scraping.py:489-510 | the codes gathered from all parts are exactly those some part names |
| CatalogCoreqs.GatheredHas | pipelines/courses/course_catalog_scraping.py:489-510 | a code that one of the parts names is gathered |
| CatalogCoreqs.ListsSpec | pipelines/courses/course_catalog_scraping.py:480-517 | the older-style lists keep the groups and the flat list consistent and free of repeats |
| CatalogCoreqs.ListsGroups | pipelines/courses/course_catalog_scraping.py:480-517 | the older-style lists only add non-empty repeat-free groups that leave out the course's own code |
| CatalogCoreqs.OrListGroups | pipelines/courses/course_catalog_scraping.py:467-517 | the groups added from the prerequisite text's ", or concurrent enrollment" lists never name the course itself and repeat nothing |
| CatalogCoreqs.CollectList | pipelines/courses/course_catalog_scraping.py:483-511 | the loops over the parts and their codes build the group of codes other than the course's own, each once, and append each new one to the flat list |
| CatalogCoreqs.CollectCodes | pipelines/courses/course_catalog_scraping.py:489-510 | the loop over one part's codes keeps the group and the flat list in step |
| CatalogCoreqs.CollectCode | pipelines/courses/course_catalog_scraping.py:497-510 | one code joins the group when it is kept and new, and the flat list when new there too |
| CatalogCoreqs.CollectStep | pipelines/courses/course_catalog_scraping.py:497-510 | one step of the loop over codes keeps both of its invariants |
| CatalogCoreqs.AddNewAppend | pipelines/courses/course_catalog_scraping.py:489-510 | appending what is new from two lists in turn equals appending what is new from their concatenation |
| CatalogCoreqs.AddListGroup | pipelines/courses/course_catalog_scraping.py:480-517 | one older-style match adds its group when the group is non-empty and not yet there |
| CatalogCoreqs.AddListGroups | pipelines/courses/course_catalog_scraping.py:480-517 | the loop over the older-style matches adds each match's group in order |
| CatalogCoreqs.FinishSpec | pipelines/courses/course_catalog_scraping.py:519-532 | the flat list ends de-duplicated in first-seen order with the same courses, and a non-empty list always comes with a text, built from the list when none was set |
| CatalogCoreqs.FinishCoreqs | pipelines/courses/course_catalog_scraping.py:519-532 | the final de-duplication loop and text computes the finishing step |
| CatalogCoreqs.CombineSpec | pipelines/courses/course_catalog_scraping.py:433-532 | after the mapping, the older-style lists and the final step, the flat list has no repeats and is exactly the courses of the groups, the groups repeat nothing, and a non-empty list has a text |
| CatalogCoreqs.CoreqsSpec | pipelines/courses/course_catalog_scraping.py:390-532 | the corequisite fields of a course: a repeat-free flat list that is exactly the courses of its repeat-free groups, with a text whenever it is non-empty |
| CatalogCross.LazyEnd | pipelines/courses/course_catalog_scraping.py:537 | the lazy cross-listing group stops at the first period, "<br" or end of text from its start on, and at no stop before |
| CatalogCross.CrossListingAt | pipelines/courses/course_catalog_scraping.py:536-540 | a match of the "Cross Listing:" pattern captures a non-empty section that stays inside the text |
| CatalogCross.CrossSection | pipelines/courses/course_catalog_scraping.py:536-542 | the stripped cross-listing section is no longer than the description |
| CatalogCross.FirstMentionedSpec | pipelines/courses/course_catalog_scraping.py:543-557 | the link search finds a link exactly when some link, or one of its slash parts, occurs in the normalized section, and then it is the earliest such link; the same code recurs at line 577 |
| CatalogCross.FindCrossLink | pipelines/courses/course_catalog_scraping.py:546-577 | the loop over the description's links stops at the first one the section mentions |
| CatalogCross.LinkCodes | pipelines/courses/course_catalog_scraping.py:559-576 | a cross-listed link stands for its non-empty slash parts, and a plain link for itself |
| CatalogCross.CrossListedLeadEnd | pipelines/courses/course_catalog_scraping.py:581 | a match of "Cross-listed with" is non-empty and stays inside the text |
| CatalogCross.SameAsLeadEnd | pipelines/courses/course_catalog_scraping.py:582 | a match of "Same as" stays inside the text |
| CatalogCross.LedCodeAt | pipelines/courses/course_catalog_scraping.py:581-587 | a lead followed by a course code captures a non-empty code that ends the match |
| CatalogCross.AppendCrossCodes | pipelines/courses/course_catalog_scraping.py:563-593 | the append loop adds each code other than the course's own that is not yet listed, in order |
| CatalogCross.AppendStep | pipelines/courses/course_catalog_scraping.py:588-593 | one turn of the append loop adds the code exactly when it is kept and not yet listed |
| CatalogCross.AddKeptSpec | pipelines/courses/course_catalog_scraping.py:534-593 | three rounds of appending keep the earlier list in front, add no repeat, and list exactly the earlier codes plus every kept code of the three rounds |
| CatalogCross.CrossListingsSpec | pipelines/courses/course_catalog_scraping.py:534-593 | the title's cross-listings stay in front; the description adds no repeat and never the course's own code; and every other code that the section's link, "Cross-listed with" or "Same as" names ends up listed |
| CatalogCross.AddCrossListings | pipelines/courses/course_catalog_scraping.py:534-593 | the cross-listing step of the block parser computes the cross-listings after the description |
| CatalogCross.CodeFoundAnyCase | pipelines/courses/course_catalog_scraping.py:581-582 | a course code written out and followed by a non-letter is exactly what the code pattern captures |
| CatalogCross.SameAsLead | pipelines/courses/course_catalog_scraping.py:582 | "Same as " at the start of a text is a lead that ends right after it |
| CatalogCross.FindAllFirst | pipelines/courses/course_catalog_scraping.py:585 | a match at the start is the first thing re.finditer yields, and the search resumes where it ended |
| CatalogCross.SameAsAtStart | pipelines/courses/course_catalog_scraping.py:582-587 | "Same as " and a course code at the start of a text is a "Same as" match there |
| CatalogCross.SameAsFirst | pipelines/courses/course_catalog_scraping.py:582-587 | the first "Same as" code of a text that opens with "Same as CODE" is CODE |
| CatalogCross.SameAsFinds | pipelines/courses/course_catalog_scraping.py:582-587 | the "Same as" pattern finds the code of a "Same as CODE." sentence |
| CatalogCross.SameAsAdds | pipelines/courses/course_catalog_scraping.py:579-593 | a "Same as CODE." sentence makes CODE a cross-listing of any other course |
| CatalogBlock.PrereqOrigins | pipelines/courses/course_catalog_scraping.py:296-375 | there is one group-text index per prerequisite group |
| CatalogBlock.ParsedBlockSpec | pipelines/courses/course_catalog_scraping.py:103-593 | a parsed block's prerequisite list is the groups flattened and de-duplicated, both course lists are free of repeats, the corequisite list is exactly the courses of its groups and has a text when non-empty, and the cross-listings repeat nothing and are the title's second code or another course's code |
| CatalogBlock.ParsePrereqs | pipelines/courses/course_catalog_scraping.py:229-384 | the prerequisite branch computes the prerequisite fields and the group text each group came from |
| CatalogBlock.ParseCoreqs | pipelines/courses/course_catalog_scraping.py:390-532 | the corequisite branch computes the corequisite fields |
| CatalogBlock.ParseCourseBlock | pipelines/courses/course_catalog_scraping.py:103-593 | the block parser computes the course data of the block |
| CatalogBlock.TitleCodeNonEmpty | pipelines/courses/course_catalog_scraping.py:139-168 | a title that matches a title pattern always gives a non-empty code |
| CatalogBlock.HasCodeIff | pipelines/courses/course_catalog_scraping.py:139-168 | a block yields a course exactly when its title text matches one of the title patterns; the same code recurs at line 666 |
| CatalogBlock.CoursesFromDepartment | pipelines/courses/course_catalog_scraping.py:660-669 | the department page yields the parsed blocks that have a code, in page order |
| CatalogBlock.DepartmentCourses | pipelines/courses/course_catalog_scraping.py:663-669 | every course of a department page has a non-empty code, and every block whose title matches yields a course |
| CatalogBlock.KeptIfPasses | pipelines/courses/course_catalog_scraping.py:666-667 | a parsed block that passes the code test is among the courses |
| CatalogDepartments.LazyNameEnd | pipelines/courses/course_catalog_scraping.py:59 | the lazy name group ends at the first place where the closing "(CODE)" matches, and takes no newline |
| CatalogDepartments.NameFrom | pipelines/courses/course_catalog_scraping.py:59 | the name group found by backtracking the greedy whitespace is non-empty and stays inside the text |
| CatalogDepartments.MatchDepartment | pipelines/courses/course_catalog_scraping.py:59-63 | a matching department text starts with a non-empty run of upper-case letters, the code, followed by a non-empty name |
| CatalogDepartments.DropZeroWidth | pipelines/courses/course_catalog_scraping.py:66 | removing zero-width spaces drops exactly those characters |
| CatalogDepartments.DepartmentOf | pipelines/courses/course_catalog_scraping.py:44-80 | a link gives a department only with a non-empty upper-case code, its long name is code, " - " and title, its URL is the joined href and its path the href |
| CatalogDepartments.ParsedUpTo | pipelines/courses/course_catalog_scraping.py:40-80 | every parsed department has a non-empty upper-case code |
| CatalogDepartments.UrlsSnoc | pipelines/courses/course_catalog_scraping.py:82-88 | appending a department appends its URL |
| CatalogDepartments.UniqueByUrlUrls | pipelines/courses/course_catalog_scraping.py:82-88 | after de-duplication no two departments share a URL, every URL is kept, and nothing new appears |
| CatalogDepartments.KeptAreFirst | pipelines/courses/course_catalog_scraping.py:82-88 | every kept department is the first with its URL |
| CatalogDepartments.FirstOfUrlExtend | pipelines/courses/course_catalog_scraping.py:82-88 | a department first with its URL stays first when more departments follow |
| CatalogDepartments.FirstOfNewUrl | pipelines/courses/course_catalog_scraping.py:82-88 | a department whose URL has not been seen is the first with it |
| CatalogDepartments.FirstAreKept | pipelines/courses/course_catalog_scraping.py:82-88 | every department that is the first with its URL is kept |
| CatalogDepartments.InsertById | pipelines/courses/course_catalog_scraping.py:91 | inserting a department adds exactly it to the list |
| CatalogDepartments.SortById | pipelines/courses/course_catalog_scraping.py:91 | sorting by code holds the same departments |
| CatalogDepartments.InsertSorted | pipelines/courses/course_catalog_scraping.py:91 | inserting into a list ordered by code keeps it ordered |
| CatalogDepartments.SortByIdSorted | pipelines/courses/course_catalog_scraping.py:91 | the sorted list is ordered by code and is a permutation of its input |
| CatalogDepartments.SwapPast | pipelines/courses/course_catalog_scraping.py:91 | appending two pieces of which one is empty does not depend on the order |
| CatalogDepartments.InsertStable | pipelines/courses/course_catalog_scraping.py:91 | insertion keeps departments with the same code in their order, the new one last |
| CatalogDepartments.SortByIdStable | pipelines/courses/course_catalog_scraping.py:91 | the sort is stable: departments sharing a code keep their page order |
| CatalogDepartments.GetAllDepartments | pipelines/courses/course_catalog_scraping.py:31-93 | the scraper's loops compute the parsed, de-duplicated and sorted departments |
| CatalogDepartments.AllDepartmentsSpec | pipelines/courses/course_catalog_scraping.py:14-93 | the departments are ordered by code, once per URL, the first of each URL, with a non-empty upper-case code, and departments sharing a code stay in page order |
| UpsertCourses.WordsEmpty | pipelines/courses/upsert_courses.py:167 | splitting at whitespace yields no token exactly for an all-whitespace string |
| UpsertCourses.LastTokenBase | pipelines/courses/upsert_courses.py:167 | a first token followed only by whitespace is the last token |
| UpsertCourses.LastTokenStep | pipelines/courses/upsert_courses.py:167 | a last token of the rest of the string after its first token is a last token of the string |
| UpsertCourses.WordsHead | pipelines/courses/upsert_courses.py:167 | the tokens of a string are its first token followed by the tokens of what comes after it |
| UpsertCourses.LastWordFirst | pipelines/courses/upsert_courses.py:167 | when nothing but whitespace follows the first token, the last token is that first token |
| UpsertCourses.LastWordLater | pipelines/courses/upsert_courses.py:167 | otherwise the last token is the last token after the first |
| UpsertCourses.LastTokenIndex | pipelines/courses/upsert_courses.py:167 | the last token of a string with tokens starts after whitespace or at the start, and only whitespace follows it |
| UpsertCourses.LastOfCons | pipelines/courses/upsert_courses.py:167 | prepending an element does not change the last element |
| UpsertCourses.LastToken | pipelines/courses/upsert_courses.py:167 | `code.split()[-1]` is a whitespace-free word that ends the string, up to trailing whitespace |
| UpsertCourses.CourseNumber | pipelines/courses/upsert_courses.py:165-167 | an empty or missing code gives the empty course number; a string code gives its last token and fails exactly when it is all whitespace; any other truthy value fails with AttributeError |
| UpsertCourses.OptInt | pipelines/courses/schemas.py:74-78 | an optional integer field accepts exactly None and integers, keeping the value |
| UpsertCourses.Strings | pipelines/courses/schemas.py:87-110 | the strings of a list of JSON strings, element by element |
| UpsertCourses.StrList | pipelines/courses/schemas.py:87-110 | a list-of-strings field accepts exactly lists of strings, element by element |
| UpsertCourses.StrListList | pipelines/courses/schemas.py:90-105 | a list-of-lists field accepts exactly lists of lists of strings, element by element |
| UpsertCourses.Hours | pipelines/courses/upsert_courses.py:180-183 | the four hour fields validate exactly when each of credits, lecture, lab and other hours is None or an integer, and keep each value |
| UpsertCourses.RequisitesOf | pipelines/courses/upsert_courses.py:185-190 | the requisite fields validate exactly when the text is an optional string and the lists are lists of strings, and missing lists read as empty |
| UpsertCourses.ConvertCourseToSchema | pipelines/courses/upsert_courses.py:161-195 | the course id is the department code followed by the course number; the department code, long name and code are copied; the number is the code's last token or empty for an empty code; missing lists read as empty; both timestamps are the current time |
| UpsertCourses.HoursAbsent | pipelines/courses/upsert_courses.py:180-183 | a dict without hour fields gives no hours |
| UpsertCourses.RequisitesAbsent | pipelines/courses/upsert_courses.py:185-190 | a dict without requisite fields gives no text and empty lists |
| UpsertCourses.MinimalCourse | pipelines/courses/upsert_courses.py:161-195 | a dict holding only a non-blank code and a name converts to a course with that name, no hours and empty lists |
| UpsertCourses.NoneIfEmpty | pipelines/courses/upsert_courses.py:284-299 | an empty list is stored as None and any other list as itself |
| UpsertCourses.EncodedIfAny | pipelines/courses/upsert_courses.py:287-295 | groups are stored JSON-encoded, or as None when there are none |
| UpsertCourses.ConvertCourseToDict | pipelines/courses/upsert_courses.py:262-322 | the row is tagged "update" exactly for an existing id, and then gets the current time as its update time; the has-prerequisites and has-corequisites flags say whether the flat lists are non-empty; empty lists become None and groups are JSON-encoded; the topic is None |
| UpsertCourses.RowKeepsCourse | pipelines/courses/upsert_courses.py:265-315 | the row copies every scalar field, and the flat lists come back from it with None read as empty |
| UpsertCourses.ConvertedTitles | pipelines/courses/upsert_courses.py:167-170 | a converted course's row has id department code plus number, display title "number name" and long title "department long name number - name"; the same code recurs at lines 302-307 |
| ReviewSchema.StrippedTrimmed | src/aggiermp/models/schema.py:117 | a stripped string that is not empty starts and ends with a non-space |
| ReviewSchema.StrippedTags | src/aggiermp/models/schema.py:117 | keeping the non-blank stripped pieces never yields more tags than pieces |
| ReviewSchema.StrippedTagsSpec | src/aggiermp/models/schema.py:117 | the tags are exactly the non-blank pieces, stripped, each trimmed, and there are none exactly when every piece is blank |
| ReviewSchema.AsJsonStrings | src/aggiermp/models/schema.py:117-118 | the tags become JSON strings one for one |
| ReviewSchema.ParseRatingTags | src/aggiermp/models/schema.py:104-120 | None stays None, a list is kept as it is, a blank string or any other value gives None, and a string gives its "--"-separated tags, or None when it has none |
| ReviewSchema.StringTags | src/aggiermp/models/schema.py:114-118 | a string gives None or a non-empty list of trimmed tags, each the strip of one "--"-separated piece, and the pieces join back into the string |
| ReviewSchema.SingleTag | src/aggiermp/models/schema.py:114-118 | a non-blank string with no "--" is one tag, the string stripped |
| ReviewSchema.NoSeparatorOnePiece | src/aggiermp/models/schema.py:117 | a string without "--" splits into itself alone |
| ReviewSchema.FirstParseSpec | src/aggiermp/models/schema.py:154-165 | the fixed layouts give the parse of the first layout that accepts the text, and None exactly when none does |
| ReviewSchema.TryLayouts | src/aggiermp/models/schema.py:161-165 | the loop over the fixed layouts returns the first parse that succeeds |
| ReviewSchema.ParseDatetime | src/aggiermp/models/schema.py:122-137 | None and values that are neither datetimes nor strings give None, a datetime is kept as it is, and a blank string gives None; the same code recurs at lines 167-168 |
| ReviewSchema.ParseDatetimeText | src/aggiermp/models/schema.py:134-166 | the string branch tries the RMP layout, then ISO 8601, then the fixed layouts in order |
| ReviewSchema.RmpFormatFirst | src/aggiermp/models/schema.py:139-146 | a text ending " +0000 UTC" whose date part parses is taken from that parse, whatever the other parsers say |
| ReviewSchema.FallbackOrder | src/aggiermp/models/schema.py:148-165 | a text that is neither an RMP timestamp nor ISO 8601 gets the parse of the first fixed layout that accepts it |
| ReviewSchema.FirstParseAt | src/aggiermp/models/schema.py:161-165 | from a given layout on, the first layout that accepts the text gives the result |
| ReviewSchema.Unparseable | src/aggiermp/models/schema.py:134-168 | a string that no parser accepts gives None |
| ReviewSchema.ParsedFromSomeParser | src/aggiermp/models/schema.py:134-166 | any parsed date came from the RMP parse, the ISO parse or one of the fixed layouts |
| HowdySandbox.SemesterSortKey | scripts/howdy_api_sandbox.py:52-61 | fall, spring and summer rank 1, 2 and 3 exactly when the stripped, lower-cased name is that season; everything else ranks 999 |
| HowdySandbox.UpperHead | scripts/howdy_api_sandbox.py:54 | upper-casing works character by character from the front and keeps whitespace whitespace |
| HowdySandbox.UpperLast | scripts/howdy_api_sandbox.py:54 | upper-casing works character by character from the back and keeps whitespace whitespace |
| HowdySandbox.StripLeftUpper | scripts/howdy_api_sandbox.py:54 | stripping leading whitespace commutes with upper-casing |
| HowdySandbox.StripRightUpper | scripts/howdy_api_sandbox.py:54 | stripping trailing whitespace commutes with upper-casing |
| HowdySandbox.LowerUpper | scripts/howdy_api_sandbox.py:54 | lower-casing an upper-cased name is lower-casing the name |
| HowdySandbox.SameKey | scripts/howdy_api_sandbox.py:52-61 | names that strip and lower-case alike rank alike |
| HowdySandbox.SortKeyIgnoresCase | scripts/howdy_api_sandbox.py:52-61 | the rank ignores letter case |
| HowdySandbox.Insert | scripts/howdy_api_sandbox.py:144 | inserting into a sorted list adds exactly the new element; the same code recurs at line 168 |
| HowdySandbox.InsertIncreasing | scripts/howdy_api_sandbox.py:144 | inserting a new element into an increasing list keeps it increasing; the same code recurs at line 168 |
| HowdySandbox.HeadMinimal | scripts/howdy_api_sandbox.py:144 | nothing in an increasing list is below its head; the same code recurs at line 168 |
| HowdySandbox.IncreasingUnique | scripts/howdy_api_sandbox.py:144 | two increasing lists with the same elements are the same list, so sorted(set) is determined by the set; the same code recurs at line 168 |
| HowdySandbox.SortSet | scripts/howdy_api_sandbox.py:144 | sorting a set yields its elements, each once, in increasing order; the same code recurs at line 168 |
| HowdySandbox.StrLtOrder | scripts/howdy_api_sandbox.py:168 | Python's string comparison is a strict total order |
| HowdySandbox.SectionLtOrder | scripts/howdy_api_sandbox.py:144 | comparing section tuples component by component is a strict total order |
| HowdySandbox.OpenFirstSpec | scripts/howdy_api_sandbox.py:155 | the open-first sort is a permutation in which no closed section comes before an open one, and open and closed sections each keep their order |
| HowdySandbox.NamesInSpec | scripts/howdy_api_sandbox.py:165-167 | the names of a class's instructor list are exactly the NAME fields of its objects that have one |
| HowdySandbox.NamesSpec | scripts/howdy_api_sandbox.py:157-168 | a name is collected exactly when some class whose instructor field decodes to a list lists an object with that NAME |
| HowdySandbox.FirstMatch | scripts/howdy_api_sandbox.py:182-193 | the instructor found is the first object whose NAME is the name, and none is found when no object has it |
| HowdySandbox.CvIsLast | scripts/howdy_api_sandbox.py:170-195 | the CV link comes from the last class whose matching instructor has one, and is None when no class has one |
| HowdySandbox.CvNoneAll | scripts/howdy_api_sandbox.py:170-195 | there is no CV link exactly when no class has a matching instructor with one |
| HowdySandbox.CvLastIndex | scripts/howdy_api_sandbox.py:170-195 | the class the CV link comes from has one, and no later class does |
| HowdySandbox.CurrentTerms | scripts/howdy_api_sandbox.py:80-96 | without the current flag every term is returned, and with it exactly the terms whose description contains a configured semester |
| HowdySandbox.TablesSpec | scripts/howdy_api_sandbox.py:113-130 | both tables are keyed by exactly the codes of the terms that have one, and each code maps to its own fetched classes |
| HowdySandbox.DescriptionIsLast | scripts/howdy_api_sandbox.py:119-123 | the description kept for a code is that of the last term with the code |
| HowdySandbox.HowdyApi.constructor | scripts/howdy_api_sandbox.py:71-75 | a new client keeps the semester filter and starts with empty tables |
| HowdySandbox.HowdyApi.Load | scripts/howdy_api_sandbox.py:113-130 | loading keeps the filter, stores the filtered terms, and builds both tables from them |
| HowdySandbox.HowdyApi.GetTermGeneralInfo | scripts/howdy_api_sandbox.py:132-144 | the result is the distinct (subject, course, section, CRN) tuples of the term's classes, in increasing order |
| HowdySandbox.HowdyApi.FilterByCourse | scripts/howdy_api_sandbox.py:146-155 | a course string without a space fails to unpack; otherwise the result is the term's classes with that subject in any case and that number, open sections first |
| HowdySandbox.HowdyApi.GetAllInstructors | scripts/howdy_api_sandbox.py:157-168 | the result is the distinct instructor names of the term's classes, in increasing order |
| HowdySandbox.HowdyApi.FilterByInstructor | scripts/howdy_api_sandbox.py:170-195 | the result is each class of the term that lists the instructor, once, in order, and the CV link of the last such class whose matching instructor has one |
| HowdySandbox.IndexOfSpace | scripts/howdy_api_sandbox.py:147 | the index found is the first space, or the length when there is none |
| HowdySandbox.CollectNames | scripts/howdy_api_sandbox.py:165-167 | the inner loop collects the names of one class's instructor list |
| HowdySandbox.FilterClass | scripts/howdy_api_sandbox.py:174-193 | one class is kept when it lists the instructor, and its matching instructor's CV link replaces the earlier one |
| HowdySandbox.FindInstructor | scripts/howdy_api_sandbox.py:182-193 | the inner loop stops at the first instructor with the name |

## Left out

- Model inference: BART generation, sentence-transformer encoding, the HDBSCAN fit and the TF-IDF ranking are foreign numerical libraries. They are parameters, namely labels, a similarity matrix, an encoder and a summariser.
- Floating point: confidences, means, fill rates and GPAs are Dafny reals, so rounding error is not modelled.
- Unicode: Python's `\s`, `\d`, `\w`, `str.upper`, `str.lower` and `str.strip` are modelled on ASCII. Whitespace is space, `\t` to `\r` and `\x1c` to `\x1f`. Non-ASCII whitespace (such as `\x85` and `\xa0`), digits and case mappings are not modelled.
- The URL and emoji patterns of `normalize_text` (pipelines/professors/hierarchical_summarization/preprocess.py:44-57) are an opaque character filter passed in by the caller.
- Network and HTML: HTTP requests, BeautifulSoup and Playwright are not modelled. A catalogue block or an index page arrives as the texts BeautifulSoup would hand the parser. The Howdy and anex endpoints arrive as decoded payloads.
- These network fetchers are left out as I/O:
  - `get_all_sections`;
  - `fetch_course_data`;
  - `fetch_all_courses_concurrent`;
  - the async `get_section_details` of the sandbox;
  - the sandbox's command-line `main`.
- Databases and files: the ORM classes, SQL upserts, `get_missing_courses_and_semesters`, the execution of `bulk_insert_records` and the pickle files of the embedding cache are persistence. The cache directory is a map field.
- The department lookup in the database branch of `_infer_department_for_course_number` is left out. The model gives None whenever the professor's department is missing or not all letters.
- Concurrency: asyncio, thread pools and semaphores are not modelled. Every loop is modelled as sequential.
- Ambient state: `datetime.now()` and the current year are parameters.
- Opaque helpers: `recursive_parse_json`, `_recursive_parse_json`, `json.dumps`, `datetime.strptime` and `datetime.fromisoformat` are function parameters. Only the order in which they are tried is modelled.
- Statistics and constructors in pipelines/professors/hierarchical_summarization/pipeline.py:184-238 and 319-348 read `original_rating`, `original_difficulty` and `tags`, which `ProcessedReview` does not have. The constructors at lines 79-88, 222-237 and 350-363 pass keyword arguments that the summary records do not declare. As written, every call of `process_professor_reviews` therefore raises (see "## Findings"; the as-written half is `Pipeline.ProcessProfessorReviewsAsWritten`). The members below model the records of their declared fields only, with the undeclared statistics left out.
- CourseSummariesSpec (Pipeline.CourseSummariesSpec): the source raises AttributeError at line 196 for a course with reviews and TypeError at lines 222-237 (`avg_rating`) otherwise. The model builds the declared fields of `CourseSummary` instead.
- CourseSummariesNamed (Pipeline.CourseSummariesNamed): the source raises as in the line above. The model builds the declared fields of `CourseSummary` instead.
- GenerateCourseSummaries (Pipeline.GenerateCourseSummaries): the source raises as in the line above (the as-written function is `Pipeline.CourseSummariesAsWritten`). The model returns the declared fields of `CourseSummary` instead.
- ProfessorSummarySpec (Pipeline.ProfessorSummarySpec): the source raises AttributeError at line 327 when there are reviews and TypeError at lines 350-363 (`total_reviews`) otherwise (`Pipeline.ProfessorSummaryAsWritten`). The model builds the declared fields of `ProfessorSummary` instead.
- GenerateProfessorSummary (Pipeline.GenerateProfessorSummary): the source raises as in the line above. The model returns the declared fields of `ProfessorSummary` instead.
- ProcessProfessorReviews (Pipeline.ProcessProfessorReviews): the corrected half of the Findings row. The source raises TypeError at lines 79-88 (`total_reviews`) when no review survives processing, and otherwise raises in the course step (`Pipeline.ProcessProfessorReviewsAsWritten`). The model returns the summary of the declared fields.
- The average ratings stored with a database summary are left out with the SQL that computes them. So is the error field of the `process_professor` result.
- The `compression_ratio` entry of the hybrid result (database/summary.py:418) is not modelled: it is a float ratio of lengths, used only as metadata. `SummaryDb.HybridResult` keeps the integer lengths it is computed from.
- Logging and printing are left out as output only.
- OptInt (UpsertCourses.OptInt): accepts only None and integers. Pydantic's lax coercion of numeric strings and whole floats is not modelled.
- ConvertToSchema (GpaRecords.ConvertToSchema): the two timestamp fields of `GpaDataSchema` are not modelled, because they are clock readings.
- SummaryTextSpec (SummaryDb.SummaryTextSpec): uses the corrected `generate_hybrid_summary` (`SummaryDb.HybridSummary`), not the as-written one whose long branch fails (see "## Findings"). For texts over 10000 characters it therefore promises the hierarchical result, where the code as written yields the "error" result.
- SummarizeReviews (SummaryDb.SummarizeReviews): built on `SummaryDb.SummaryTextSpec`, so it has the corrected long-text behaviour described in the line above.
- BuildGroupRecord (SummaryDb.BuildGroupRecord): its summary text comes from `SummaryDb.SummarizeReviews`, so it has the corrected long-text behaviour.
- CreateOverallSummary (SummaryDb.CreateOverallSummary): its summary text comes from `SummaryDb.SummarizeReviews`, so it has the corrected long-text behaviour.
- SummarizeGroup (SummaryDb.SummarizeGroup): its summary text comes from `SummaryDb.SummarizeReviews`, so it has the corrected long-text behaviour. As written, a group whose extractive text is longer than 10000 characters stores the error text "Error generating summary: …".
- SummarizeGroups (SummaryDb.SummarizeGroups): built on `SummaryDb.SummarizeGroup`, so it has the corrected long-text behaviour.
- CreateCourseSpecificSummaries (SummaryDb.CreateCourseSpecificSummaries): built on `SummaryDb.SummarizeGroups`, so it has the corrected long-text behaviour.
- CreateCourseNumberSummaries (SummaryDb.CreateCourseNumberSummaries): built on `SummaryDb.SummarizeGroups`, so it has the corrected long-text behaviour.
- ProcessProfessor (SummaryDb.ProcessProfessor): built on `SummaryDb.CreateOverallSummary` and the two members above, so it has the corrected long-text behaviour.
- MapConcurrent (CatalogCoreqs.MapConcurrent): maps each "or concurrent enrollment" group text to the prerequisite group of that same text (`CatalogCoreqs.MapGroups`). The code as written indexes the prerequisite groups by group-text position, which can pick another group or none (`CatalogCoreqs.MappingMisaligned`, see "## Findings").
- CombineSpec (CatalogCoreqs.CombineSpec): built on the corrected mapping of the line above, not the as-written indexing.
- CoreqsSpec (CatalogCoreqs.CoreqsSpec): built on the corrected mapping, not the as-written indexing.
- ParseCoreqs (CatalogBlock.ParseCoreqs): built on the corrected mapping, not the as-written indexing.
- ParsedBlockSpec (CatalogBlock.ParsedBlockSpec): built on the corrected mapping, not the as-written indexing. It also leaves out the description (see the next line).
- ParseCourseBlock (CatalogBlock.ParseCourseBlock): built on the corrected mapping, not the as-written indexing. It also leaves out the description (see the next line).
- CoursesFromDepartment (CatalogBlock.CoursesFromDepartment): built on `CatalogBlock.ParseCourseBlock`, so it uses the corrected mapping, not the as-written indexing, and leaves out the description.
- The `description` field of `parse_course_block` (pipelines/courses/course_catalog_scraping.py:595-629) is not modelled. It is the description text with the hours span and the prerequisite, corequisite and cross-listing sentences removed by non-greedy regular expressions. `CatalogBlock.CourseData` has no description field.
- GpaValue (GpaRecords.GpaValue): the float conversion accepts only unsigned digits with an optional fraction after stripping. Python's `float()` also accepts a sign, an exponent, forms such as ".5" and "5.", "inf" and "nan", and underscores between digits. Those strings are modelled as failing.
- PydInt (GpaRecords.PydInt): models pydantic v2 lax mode, reading integer strings with the grammar of Python's `int()` (an optional sign, then ASCII digits with single underscores between them). The behaviour of pydantic v1 is not modelled.
- PydOptFloat (GpaRecords.PydOptFloat): models pydantic v2 lax mode, with float strings limited to the grammar of `GpaRecords.GpaValue` above. Signed, exponent and special-value strings are modelled as rejected.
- Python's repr of floats, lists and dicts is not part of this model. `Json.Str` prints those as a placeholder, and prints ints, bools, None and strings exactly.

## Findings

| source | as written | input that shows it | evidently intended | confidence | as-written member | corrected member |
|---|---|---|---|---|---|---|
| database/summary.py:406-409 | when the extractive text is longer than 10000 characters, `generate_hybrid_summary` calls `self.generate_hierarchical_summary`, which the class does not define; the AttributeError handler at lines 422-430 returns the "error" result | one review whose text is a single sentence without a terminator and longer than 10000 characters, with at least one key sentence requested | the hierarchical branch, whose result is labelled "hybrid_hierarchical" and never "error" | not executed | SummaryDb.HybridAsWrittenLong | SummaryDb.HybridSummary |
| pipelines/courses/course_catalog_scraping.py:449-461 | the i-th group text of the section up to "cross listing" selects `prerequisite_groups[i]`, but prerequisite groups skip group texts that give no course and texts that open with "or concurrent enrollment", and come from a differently cut section, so the indices shift | "Prerequisite: Junior or senior classification; CSCE 221 or concurrent enrollment." where CSCE 221 is a course link: the only prerequisite group comes from the second group text, so index 1 is past the end and CSCE 221 is never made a corequisite group | the prerequisite group of the very group text that says "or concurrent enrollment" becomes a corequisite group | not executed | CatalogCoreqs.MappingMisaligned | CatalogCoreqs.MapGroups |
| pipelines/professors/hierarchical_summarization/pipeline.py:79-88, 196, 222-237, 327, 350-363 | the no-reviews path and the summary constructors pass keyword arguments (`total_reviews`, `avg_rating`, …) that the dataclasses `ProfessorSummary` and `CourseSummary` do not declare, and the statistics read `original_rating`, which `ProcessedReview` does not have, so every call raises | an empty review list (TypeError for `total_reviews`), or one review long enough to survive processing, with a string id (the course step raises AttributeError for `original_rating`, or TypeError for `avg_rating`) | the records carry only their declared fields, or declare the statistics, and the pipeline returns the professor summary | not executed | Pipeline.ProcessProfessorReviewsAsWritten | Pipeline.ProcessProfessorReviews |
