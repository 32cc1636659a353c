# Tiny Tower Tracker: the resident import and the tower data, modelled in Dafny

Tiny Tower Tracker keeps a player's tower: the stores they have built, the
residents (bitizens) who live in it with the store each dreams of working in,
and the missions they have taken on. Its largest piece of logic imports
residents from screenshots of the game. An OCR pass turns each screenshot into
text fragments with bounding boxes. The importer then:

- groups the fragments into rows by their vertical position;
- splits each row into name, current-job and dream-job columns at the widest
  horizontal gaps;
- picks a resident name;
- matches the job texts against the store catalogue, tier by tier (exact,
  normalised, without spaces, a doubled name, then a fuzzy Levenshtein score
  with an ambiguity guard);
- falls back to pairing a name with the store line below it, and then to the
  plain page text;
- merges the candidates that describe the same resident.

The project models, one Dafny module per source file:

- the modular importer under `src/utils/residentScreenshotImport/`: `TextUtils`, `StoreMatching`, `Layout`, `NamePicking`, `LineFilters`, `ThreeColumn`, `VerticalPair`, `PlainText`, `Dedupe` and `Pipeline`;
- the older single-file extractor `extract.ts`: `LegacyText`, `LegacyMatch`, `LegacyRows`, `LegacyRow`, `LegacyDedupe` and `LegacyExtract`;
- where it differs from the modular copy, the single-file copy `residentScreenshotImport.ts` (`Monolith`);
- the line assembly and request handling of the Google Vision function (`GoogleVisionOcr`);
- mission completability (`MissionMatcher`);
- name title-casing (`ResidentName`);
- the compact sync format (`Storage`);
- the application store (`StateOps`, and `AppStore`, whose class `AppData` holds the user's data and changes it in place);
- the older composables (`UseStores`, `UseResidents`, `UseMissions`), which keep a `currentStore` field on each resident in step with the store lists.

`Types`, `ImportTypes`, `Wrappers`, `Seqs`, `Strings`, `Sorting` and `Numbers` hold the
records and the JavaScript primitives these rely on. `Numbers` models the
`Number(text)` and `String(number)` conversions that the application store uses
on resident ids. `Sorting` models the
engine's stable `sort` as a stable insertion sort.

Loops of the source are methods with loop invariants. Each is proved equal to
a function that specifies it, and the properties are lemmas about those
functions. Three behaviours of the source are modelled exactly as written:

- In the modular copy, the store-name pattern of `extractResidentNameFromOcrLine` joins a store's words with a literal backslash followed by `s+`. A multi-word store name therefore cuts a name only through the substring fallbacks (`Monolith.ModularPatternNeedsBackslash`). The single-file copy uses a real whitespace class (`Monolith.SpacedWordsMatch`).
- In the merge step of `dedupe.ts`, `other` is always the incoming record. So a better incoming record replaces the kept one field for field: the kept record's `selected` flag and current-job fields are lost, although the code evidently means to carry them over (`Dedupe.Merge`).
- New resident ids are `String(max + 1)`, where `max` is the largest `Number` of an existing id. Ids such as `"1e3"` or `"1.5"` count by the number they denote. An id that reads as `Infinity` makes every later id `"Infinity"`, which is then shared by two residents (`AppStore.InfinityIdRepeats`).

## Model

| member | source | states |
|---|---|---|
| LegacyText.NormalizeAgrees | src/utils/residentScreenshotImport/extract.ts:18-27 | the older match key and no-space key are the same strings as the modular ones |
| LegacyText.ReplaceRunsAlike | src/utils/residentScreenshotImport/extract.ts:18-23 | replacing runs gives the same result on two texts that differ only inside the runs |
| LegacyText.UnemployedNarrower | src/utils/residentScreenshotImport/extract.ts:29-32 | the older unemployed test implies the modular one, and an empty key is never unemployed |
| LegacyText.ValidNameOfClean | src/utils/residentScreenshotImport/extract.ts:42-52 | on cleaned text, a valid name is exactly one of three or more characters, not unemployed, with a space or six or more characters |
| LegacyText.DropNumericId | src/utils/residentScreenshotImport/extract.ts:252 | dropping a trailing id never lengthens the text |
| LegacyText.BlankOthers | src/utils/residentScreenshotImport/extract.ts:253 | every character other than a letter, space, apostrophe or hyphen becomes a space, and the length is kept |
| LegacyText.CleanName | src/utils/residentScreenshotImport/extract.ts:250-255 | the cleaned name holds only letters, spaces, apostrophes and hyphens, with single inner spaces and none at either end |
| LegacyText.CleanNameLength | src/utils/residentScreenshotImport/extract.ts:250-255 | a cleaned name that is valid has three or more characters |
| LegacyMatch.KeyMapSpec | src/utils/residentScreenshotImport/extract.ts:90-100 | a `Map` built by repeated `set` holds exactly the keys of the list, each mapped to the last element having it |
| LegacyMatch.IndexStoresSpec | src/utils/residentScreenshotImport/extract.ts:90-100 | the two indexes map exactly the stores' match keys and no-space keys, each to the last store having it |
| LegacyMatch.BuildStoreIndex | src/utils/residentScreenshotImport/extract.ts:90-100 | the loop computes the index of the catalogue |
| LegacyMatch.OccurrencesIndexOf | src/utils/residentScreenshotImport/extract.ts:113-119 | each `indexOf` step records one occurrence and searches on after it |
| LegacyMatch.OccurrencesSound | src/utils/residentScreenshotImport/extract.ts:113-119 | recorded occurrences are real occurrences, in order, not overlapping |
| LegacyMatch.OccurrencesComplete | src/utils/residentScreenshotImport/extract.ts:113-119 | every occurrence is recorded or overlaps a recorded one |
| LegacyMatch.FirstPassMembers | src/utils/residentScreenshotImport/extract.ts:108-120 | the first pass yields exactly the occurrences of the catalogue stores' non-empty no-space names at 0.95 |
| LegacyMatch.TruncatedIndex | src/utils/residentScreenshotImport/extract.ts:133-148 | the first store whose no-space name ends with the tail after a cut of one to three characters, or -1 |
| LegacyMatch.SuffixMatchFacts | src/utils/residentScreenshotImport/extract.ts:124-150 | a suffix match is a catalogue store at 0.79..0.85 starting after every first-pass match |
| LegacyMatch.FindStoresInShape | src/utils/residentScreenshotImport/extract.ts:103-155 | the result is the first-pass matches sorted by position, possibly followed by one suffix match |
| LegacyMatch.FindStoresInFacts | src/utils/residentScreenshotImport/extract.ts:103-155 | the result is sorted by position; each is a catalogue store at 0.79..0.95; an empty text gives none |
| LegacyMatch.FindStoresInTextSpec | src/utils/residentScreenshotImport/extract.ts:103-155 | both of the above for the text's no-space key |
| LegacyMatch.StoreHitsScan | src/utils/residentScreenshotImport/extract.ts:113-119 | the occurrence loop computes the occurrences |
| LegacyMatch.FirstPassScan | src/utils/residentScreenshotImport/extract.ts:108-120 | the first-pass loop computes `FirstPass` |
| LegacyMatch.SecondPass | src/utils/residentScreenshotImport/extract.ts:124-150 | the second-pass loop computes `WithSuffix` |
| LegacyMatch.FindStoresInTextScan | src/utils/residentScreenshotImport/extract.ts:103-155 | the method computes `FindStoresInText` |
| LegacyMatch.BestScoredSpec | src/utils/residentScreenshotImport/extract.ts:192-197 | the fuzzy scan keeps the first store with the highest score, and none only without stores |
| LegacyMatch.FirstMaximumUnique | src/utils/residentScreenshotImport/extract.ts:192-197 | that store is unique |
| LegacyMatch.MatchSingleStoreBounds | src/utils/residentScreenshotImport/extract.ts:158-205 | blank or unemployed text matches nothing; a match is a catalogue store at 0.75..1 starting at 0 |
| LegacyMatch.MatchTrimmedExact | src/utils/residentScreenshotImport/extract.ts:169-170 | a text whose match key is indexed matches that store at 1 |
| LegacyMatch.MatchTrimmedNoSpace | src/utils/residentScreenshotImport/extract.ts:172-174 | failing that, a text whose no-space key is indexed matches that store at 0.98 |
| LegacyMatch.MatchTrimmedSuffix | src/utils/residentScreenshotImport/extract.ts:176-189 | failing that, the first store the text truncates matches at 0.9 less 0.03 per missing character |
| LegacyMatch.MatchTrimmedFuzzy | src/utils/residentScreenshotImport/extract.ts:191-204 | failing that, the first best-scoring store matches exactly when its score is 0.75 or more |
| LegacyMatch.FuzzyTierSpec | src/utils/residentScreenshotImport/extract.ts:191-204 | the fuzzy tier alone, as an if-and-only-if |
| LegacyMatch.TruncatedScan | src/utils/residentScreenshotImport/extract.ts:178-189 | the suffix loop finds the first truncated store |
| LegacyMatch.SuffixScan | src/utils/residentScreenshotImport/extract.ts:178-189 | the suffix loop computes the suffix tier |
| LegacyMatch.FuzzyScan | src/utils/residentScreenshotImport/extract.ts:192-197 | the fuzzy loop computes `BestScored` |
| LegacyMatch.FuzzyTierScan | src/utils/residentScreenshotImport/extract.ts:191-204 | the fuzzy branch computes the fuzzy tier |
| LegacyMatch.MatchTrimmedScan | src/utils/residentScreenshotImport/extract.ts:166-204 | the tiers computed step by step |
| LegacyMatch.MatchSingleStoreScan | src/utils/residentScreenshotImport/extract.ts:158-205 | the method computes `MatchSingleStore` |
| TextUtils.NormalizeForMatch | src/utils/residentScreenshotImport/textUtils.ts:3-10 | the match key is canonical: lower-case letters and digits, single inner spaces, no space at either end |
| TextUtils.NormalizeCanonicalIdentity | src/utils/residentScreenshotImport/textUtils.ts:3-10 | a canonical key normalises to itself |
| TextUtils.NormalizeIdempotent | src/utils/residentScreenshotImport/textUtils.ts:3-10 | normalising twice is normalising once |
| TextUtils.NormalizeLowerInvariant | src/utils/residentScreenshotImport/textUtils.ts:3-14 | both keys ignore letter case |
| TextUtils.NormalizeNoSpace | src/utils/residentScreenshotImport/textUtils.ts:12-14 | the no-space key holds only lower-case letters and digits and is no longer than the match key |
| TextUtils.NoSpaceIdempotent | src/utils/residentScreenshotImport/textUtils.ts:12-14 | the no-space key is its own no-space key and its own match key |
| TextUtils.StripDropsNumericId | src/utils/residentScreenshotImport/textUtils.ts:16-18 | a trailing id of three or more digits after a space is removed and the rest trimmed |
| TextUtils.MatchesNumericIdIff | src/utils/residentScreenshotImport/textUtils.ts:17 | the pattern `\s+\d{3,}\s*$` matches exactly when the text, with trailing whitespace cut, ends in whitespace and three or more digits |
| TextUtils.KeepsWithoutNumericId | src/utils/residentScreenshotImport/textUtils.ts:16-18 | a text the pattern does not match is only trimmed |
| TextUtils.SanitizeResidentName | src/utils/residentScreenshotImport/textUtils.ts:20-30 | the result holds only letters, digits, apostrophes, hyphens and single inner spaces, with no space at either end |
| TextUtils.SanitizeFixpoint | src/utils/residentScreenshotImport/textUtils.ts:20-30 | a name already of that shape, with no trailing id, is left unchanged |
| TextUtils.StripAlnum | src/utils/residentScreenshotImport/textUtils.ts:16-18 | stripping a trailing id removes only a run of three or more digits from the text's letters and digits |
| TextUtils.SanitizeKeepsAlnum | src/utils/residentScreenshotImport/textUtils.ts:20-30 | sanitizing keeps the letters and digits of the input in order, dropping at most a final run of three or more digits |
| TextUtils.LevSelf | src/utils/residentScreenshotImport/textUtils.ts:32-53 | a string is at distance 0 from itself |
| TextUtils.LevUpper | src/utils/residentScreenshotImport/textUtils.ts:32-53 | the distance is at most the longer length |
| TextUtils.LevLower | src/utils/residentScreenshotImport/textUtils.ts:32-53 | the distance is at least the difference of the lengths |
| TextUtils.LevZero | src/utils/residentScreenshotImport/textUtils.ts:32-53 | distance 0 only between equal strings |
| TextUtils.LevForeignBound | src/utils/residentScreenshotImport/textUtils.ts:32-53 | the length difference plus the characters of one string the other lacks bound the distance from below |
| TextUtils.LevenshteinDistance | src/utils/residentScreenshotImport/textUtils.ts:32-53 | the dp table, filled row by row, yields the edit distance of the recurrence |
| TextUtils.Similarity | src/utils/residentScreenshotImport/textUtils.ts:55-62 | a score in 0..1, 0 when either key is empty, and 1 exactly for equal non-empty match keys |
| TextUtils.SimilarityNoSpace | src/utils/residentScreenshotImport/textUtils.ts:64-71 | the same on the no-space keys |
| TextUtils.RatioCeiling | src/utils/residentScreenshotImport/textUtils.ts:55-71 | foreign characters cap the score |
| TextUtils.ShortKeyScoresLow | src/utils/residentScreenshotImport/textUtils.ts:84-90 | a key shorter than six characters scores below 0.6 against "unemployed" |
| TextUtils.CollapseImmediateDuplicate | src/utils/residentScreenshotImport/textUtils.ts:73-82 | a result is the half of a doubled no-space key of at least 8 characters |
| TextUtils.CollapseImmediateDuplicateIff | src/utils/residentScreenshotImport/textUtils.ts:73-82 | both directions: the result is that half exactly when the key is doubled and at least 8 long |
| TextUtils.UnemployedBasics | src/utils/residentScreenshotImport/textUtils.ts:84-90 | an empty key is never unemployed-like; a key containing "employ" always is |
| TextUtils.UnemployedWord | src/utils/residentScreenshotImport/textUtils.ts:84-90 | the placeholder "UNEMPLOYED" is unemployed-like |
| TextUtils.UnemployedNeedsSix | src/utils/residentScreenshotImport/textUtils.ts:84-90 | an unemployed-like text has a no-space key of six characters or more |
| TextUtils.NoiseIsNoStoreName | src/utils/residentScreenshotImport/textUtils.ts:92-98 | header or noise text is a likely store name only through the header words; an empty key is noise and never store-like |
| TextUtils.LikelyNameShape | src/utils/residentScreenshotImport/textUtils.ts:100-108 | a likely name sanitizes to letters, apostrophes, hyphens and spaces, at least 3 long (6 without a space), and is not unemployed-like |
| TextUtils.LikelyStoreNameShape | src/utils/residentScreenshotImport/textUtils.ts:110-117 | a likely store name has a key of 3 or more characters with a letter, and is not unemployed-like |
| TextUtils.PatternIndex | src/utils/residentScreenshotImport/textUtils.ts:141-150 | the leftmost position at which the store-word pattern matches, or -1 when it matches nowhere |
| TextUtils.LetterDigitsIndex | src/utils/residentScreenshotImport/textUtils.ts:171-174 | the leftmost letter-then-two-digits token on word boundaries, or -1 |
| TextUtils.CutIndexIsEarliest | src/utils/residentScreenshotImport/textUtils.ts:135-174 | the cut is the earliest positive cut point (unemployed, stores, first digit, letter-digits), or -1 when none |
| TextUtils.ExtractResidentName | src/utils/residentScreenshotImport/textUtils.ts:123-179 | the extracted name is sanitized-shaped, never unemployed-like, and empty for a blank line |
| TextUtils.ExtractCutsAtEarliest | src/utils/residentScreenshotImport/textUtils.ts:123-179 | the name is the sanitized text before the earliest positive cut point |
| TextUtils.NameBeforeCut | src/utils/residentScreenshotImport/textUtils.ts:176-178 | the text before the cut, sanitized, is shaped and never unemployed-like |
| TextUtils.CutAtStores | src/utils/residentScreenshotImport/textUtils.ts:140-163 | the store loop computes the fold of every store's offered positions |
| TextUtils.ComputeCutIndex | src/utils/residentScreenshotImport/textUtils.ts:134-174 | the step-by-step cut index equals the specified cut |
| TextUtils.ExtractResidentNameFromOcrLine | src/utils/residentScreenshotImport/textUtils.ts:123-179 | the method computes `ExtractResidentName` |
| TextUtils.FillRow | src/utils/residentScreenshotImport/textUtils.ts:42-48 | one pass of the inner loop fills row i of the table with the edit distances of the prefixes and leaves the other rows alone |
| LegacyRows.FloorCompare | src/utils/residentScreenshotImport/extract.ts:232 | comparing an integer distance with the real threshold is comparing it with the threshold's floor |
| LegacyRows.RowThresholdSpec | src/utils/residentScreenshotImport/extract.ts:221-227 | the row threshold is at least 26, is 48 (1.6 times the default 30) when no line has a height, and otherwise 1.6 times the height of some line |
| LegacyRows.GroupIntoRowsSpec | src/utils/residentScreenshotImport/extract.ts:217-239 | the rows hold exactly the non-blank, non-noise lines sorted by top edge; each line of a row is within the threshold of its first line, and each new row starts beyond it |
| LegacyRows.GroupIntoRowsScan | src/utils/residentScreenshotImport/extract.ts:217-239 | the method computes `GroupIntoRows` |
| LegacyRow.MatcherOfSound | src/utils/residentScreenshotImport/extract.ts:158-205 | both matchers only return catalogue stores, at 0.75..1 for one text and 0.79..0.95 for the embedded search |
| LegacyRow.SingleSound | src/utils/residentScreenshotImport/extract.ts:158-205 | the single-text matcher is sound |
| LegacyRow.EmbeddedSound | src/utils/residentScreenshotImport/extract.ts:103-155 | the embedded search is sound |
| LegacyRow.PickNameNone | src/utils/residentScreenshotImport/extract.ts:246-270 | no name exactly when no text cleans to a valid name that neither matches a store at 0.85 nor starts with one |
| LegacyRow.PickNameFirst | src/utils/residentScreenshotImport/extract.ts:250-267 | the first qualifying text gives the name, cleaned |
| LegacyRow.PickNameValid | src/utils/residentScreenshotImport/extract.ts:246-270 | a picked name is valid, not store-like, and three or more characters long |
| LegacyRow.PickNameScan | src/utils/residentScreenshotImport/extract.ts:250-269 | the loop computes `PickName` |
| LegacyRow.LegacySplit | src/utils/residentScreenshotImport/extract.ts:299-315 | a split always gives three columns, the middle one empty for one gap |
| LegacyRow.RowColumnsSpec | src/utils/residentScreenshotImport/extract.ts:282-315 | the columns together hold the lines sorted by x, each once; without big gaps everything is in the left column; with one gap the middle column is empty |
| LegacyRow.LegacySplitPartition | src/utils/residentScreenshotImport/extract.ts:299-315 | the split partitions the sorted lines |
| LegacyRow.TwoAsThree | src/utils/residentScreenshotImport/extract.ts:309-314 | the two-column split is the three-column split with an empty middle |
| LegacyRow.RowColumnsScan | src/utils/residentScreenshotImport/extract.ts:282-315 | the method computes `RowColumns` |
| LegacyRow.MiddlePassZero | src/utils/residentScreenshotImport/extract.ts:339-352 | the current match from the middle column has a non-negative confidence, and none without a store id |
| LegacyRow.MiddlePassBest | src/utils/residentScreenshotImport/extract.ts:339-352 | it is at least the score of every matched middle text |
| LegacyRow.MiddlePassFirst | src/utils/residentScreenshotImport/extract.ts:339-352 | a matched current store comes from the first middle text reaching that score |
| LegacyRow.MiddlePassCoherent | src/utils/residentScreenshotImport/extract.ts:339-352 | its store, name and confidence come from the catalogue together |
| LegacyRow.RightPassCoherent | src/utils/residentScreenshotImport/extract.ts:354-382 | the right-column pass keeps current and dream matches from the catalogue |
| LegacyRow.LeftPassCoherent | src/utils/residentScreenshotImport/extract.ts:392-403 | the two-column pass over the left job texts does too |
| LegacyRow.LeftJobsCoherent | src/utils/residentScreenshotImport/extract.ts:384-449 | the left-column section does too |
| LegacyRow.RowJobsCoherent | src/utils/residentScreenshotImport/extract.ts:339-449 | all the job passes of a row do too |
| LegacyRow.MiddleScan | src/utils/residentScreenshotImport/extract.ts:339-352 | the middle loop computes `MiddlePass` |
| LegacyRow.RightScan | src/utils/residentScreenshotImport/extract.ts:354-382 | the right loop computes `RightPass` |
| LegacyRow.LeftScan | src/utils/residentScreenshotImport/extract.ts:392-403 | the two-column loop computes `LeftPass` |
| LegacyRow.LeftSection | src/utils/residentScreenshotImport/extract.ts:384-449 | the left-column section computes `LeftJobs` |
| LegacyRow.AssembleSpec | src/utils/residentScreenshotImport/extract.ts:451-479 | selected exactly with a dream store at 0.75 or more; a dream-unmatched issue exactly without a dream store; a dream-unparsed issue exactly without either; a current-unmatched issue exactly for unmatched non-unemployed current text |
| LegacyRow.NamedCandidateSpec | src/utils/residentScreenshotImport/extract.ts:322-479 | a named row's candidate agrees on its issues, carries the name as both raw and clean name and the file's name, and takes its stores from the catalogue |
| LegacyRow.ExtractFromRowSpec | src/utils/residentScreenshotImport/extract.ts:273-480 | an empty row gives nothing; otherwise a candidate exactly when a name is picked, and then it is valid, consistent and from the catalogue |
| LegacyRow.ExtractFromRowScan | src/utils/residentScreenshotImport/extract.ts:273-480 | the method computes `ExtractFromRow` |
| LegacyDedupe.MergeDream | src/utils/residentScreenshotImport/extract.ts:502-507 | the dream store id, matched name and confidence move over exactly when the kept record has no dream store and the incoming one has |
| LegacyDedupe.MergeCurrent | src/utils/residentScreenshotImport/extract.ts:508-513 | likewise for the current store id, matched name and confidence |
| LegacyDedupe.MergeIssues | src/utils/residentScreenshotImport/extract.ts:522-524 | the shorter issue list wins, the kept one on a tie |
| LegacyDedupe.MergeIntoProperties | src/utils/residentScreenshotImport/extract.ts:501-527 | the merge step keeps the identity, ors `selected`, fills the dream and current stores and their texts, and keeps the shorter issues |
| LegacyDedupe.FoldKeeps | src/utils/residentScreenshotImport/extract.ts:492-528 | a group's merged record has the first record's name, raw name and file |
| LegacyDedupe.FoldSelected | src/utils/residentScreenshotImport/extract.ts:527 | the merged record is selected exactly when some record of the group is |
| LegacyDedupe.FoldDream | src/utils/residentScreenshotImport/extract.ts:502-507 | it has the dream store id, name and confidence of the first record with a dream store, or of the first record |
| LegacyDedupe.FoldCurrent | src/utils/residentScreenshotImport/extract.ts:508-513 | it has the current store fields of the first record with one, or of the first record |
| LegacyDedupe.FoldDreamRaw | src/utils/residentScreenshotImport/extract.ts:502-520 | its dream text comes from the record that gave the dream store (the first record when none has one), or from the first later record with a non-empty dream text when that one is empty |
| LegacyDedupe.FoldCurrentRaw | src/utils/residentScreenshotImport/extract.ts:508-517 | its current-job text comes likewise from the record that gave the current store, or from the first later record with a current-job text |
| LegacyDedupe.FoldIssues | src/utils/residentScreenshotImport/extract.ts:522-524 | it has the issues of the first record with the fewest |
| LegacyDedupe.FoldFromCatalogue | src/utils/residentScreenshotImport/extract.ts:501-513 | a group of records with catalogue stores merges into one |
| LegacyDedupe.FoldMergedFrom | src/utils/residentScreenshotImport/extract.ts:492-528 | all of the above at once |
| LegacyDedupe.ByNameKeys | src/utils/residentScreenshotImport/extract.ts:490-498 | the map holds one entry per no-space name key, in first-seen order, each once |
| LegacyDedupe.ByNameEntries | src/utils/residentScreenshotImport/extract.ts:492-528 | each entry is the fold of that key's group |
| LegacyDedupe.DeduplicateOrder | src/utils/residentScreenshotImport/extract.ts:530 | the values come out in first-insertion order, one merged group each |
| LegacyDedupe.GroupKey | src/utils/residentScreenshotImport/extract.ts:493 | a merged group keeps its key |
| LegacyDedupe.DeduplicateKeyOrder | src/utils/residentScreenshotImport/extract.ts:487-531 | the result's keys are the first-seen keys of the input |
| LegacyDedupe.DeduplicateKeys | src/utils/residentScreenshotImport/extract.ts:487-531 | no two results share a no-space name, and the names are exactly those of the input |
| LegacyDedupe.DeduplicateEntry | src/utils/residentScreenshotImport/extract.ts:487-531 | each result is merged from its key's group |
| LegacyDedupe.GroupByName | src/utils/residentScreenshotImport/extract.ts:490-528 | the loop computes `ByNameOf` |
| LegacyDedupe.ValuesInOrder | src/utils/residentScreenshotImport/extract.ts:530 | `Array.from(byName.values())` |
| LegacyDedupe.DeduplicateCandidates | src/utils/residentScreenshotImport/extract.ts:487-531 | the method computes `Deduplicate` |
| LegacyExtract.RowCandidatesSound | src/utils/residentScreenshotImport/extract.ts:548-552 | every row candidate has a valid name, the file's name and catalogue stores |
| LegacyExtract.MergedSound | src/utils/residentScreenshotImport/extract.ts:501-527 | merging such candidates keeps that |
| LegacyExtract.DeduplicateSound | src/utils/residentScreenshotImport/extract.ts:487-531 | deduplicating such candidates keeps that |
| LegacyExtract.DeduplicateShorter | src/utils/residentScreenshotImport/extract.ts:487-531 | deduplication never lengthens the list |
| LegacyExtract.ExtractCandidatesSpec | src/utils/residentScreenshotImport/extract.ts:537-555 | no two candidates share a no-space name; no more candidates than rows; each has a valid name, the file's name and catalogue stores |
| LegacyExtract.ExtractCandidatesEmpty | src/utils/residentScreenshotImport/extract.ts:537-555 | no lines give no candidates |
| LegacyExtract.RowLoop | src/utils/residentScreenshotImport/extract.ts:548-552 | the row loop computes `RowCandidates` |
| LegacyExtract.ExtractCandidatesScan | src/utils/residentScreenshotImport/extract.ts:537-555 | the method computes `ExtractCandidates` |
| GoogleVisionOcr.ClampNumber | netlify/functions/google-vision-ocr.js:16-18 | a finite number is kept and anything else becomes 0 |
| GoogleVisionOcr.BboxFromVertices | netlify/functions/google-vision-ocr.js:20-29 | no vertices give the zero box; otherwise the box is ordered, covers every vertex and each edge is some vertex's clamped coordinate |
| GoogleVisionOcr.MergeBboxes | netlify/functions/google-vision-ocr.js:31-38 | the merge is the least box enclosing both, and ordered boxes give an ordered box |
| GoogleVisionOcr.MergeLaws | netlify/functions/google-vision-ocr.js:31-38 | merging is commutative, associative and idempotent |
| GoogleVisionOcr.MergeAllEncloses | netlify/functions/google-vision-ocr.js:75 | a line's merged box is the least box enclosing all its words' boxes |
| GoogleVisionOcr.WordTextEmptyIff | netlify/functions/google-vision-ocr.js:44-47 | a word's text is empty exactly when every symbol's text is |
| GoogleVisionOcr.FeedAppend | netlify/functions/google-vision-ocr.js:65-85 | feeding words in two parts is feeding them at once |
| GoogleVisionOcr.Groups | netlify/functions/google-vision-ocr.js:68-82 | the words cut into line groups, at least the open one |
| GoogleVisionOcr.GroupsShape | netlify/functions/google-vision-ocr.js:68-82 | every closed group ends with a line break or end-of-line space and no other word in it does, and every word in a group has text |
| GoogleVisionOcr.GroupsPartition | netlify/functions/google-vision-ocr.js:68-82 | the groups together are exactly the words with text, in order |
| GoogleVisionOcr.GrowGroup | netlify/functions/google-vision-ocr.js:73-75 | adding a word appends its text after one space and merges its box |
| GoogleVisionOcr.StepPending | netlify/functions/google-vision-ocr.js:68-82 | one word step extends the open group or closes it |
| GoogleVisionOcr.FeedGroups | netlify/functions/google-vision-ocr.js:65-85 | feeding all the words leaves the state of the groups |
| GoogleVisionOcr.FlushPending | netlify/functions/google-vision-ocr.js:56-63 | flushing emits one line per group whose trimmed text is non-empty |
| GoogleVisionOcr.LineFromTrimmed | netlify/functions/google-vision-ocr.js:56-60 | an emitted line's text is trimmed and non-empty |
| GoogleVisionOcr.AnnotationLinesTrimmed | netlify/functions/google-vision-ocr.js:49-89 | every line of the annotation is trimmed and non-empty |
| GoogleVisionOcr.LineBoxEncloses | netlify/functions/google-vision-ocr.js:75 | a line's box encloses every word's box in it |
| GoogleVisionOcr.LineBuilder.constructor | netlify/functions/google-vision-ocr.js:51-54 | the state starts empty |
| GoogleVisionOcr.LineBuilder.Flush | netlify/functions/google-vision-ocr.js:56-63 | `flush` makes the new state `Flushed` of the old |
| GoogleVisionOcr.LineBuilder.AddWord | netlify/functions/google-vision-ocr.js:68-81 | the loop body makes the new state one `Step` of the old |
| GoogleVisionOcr.FeedParagraph | netlify/functions/google-vision-ocr.js:68-82 | the word loop feeds the paragraph's words |
| GoogleVisionOcr.FeedBlock | netlify/functions/google-vision-ocr.js:67-83 | the paragraph loop feeds the block's words |
| GoogleVisionOcr.FeedPage | netlify/functions/google-vision-ocr.js:66-84 | the block loop feeds the page's words |
| GoogleVisionOcr.ExtractLinesFromFullTextAnnotation | netlify/functions/google-vision-ocr.js:49-89 | the method computes `AnnotationLines` |
| GoogleVisionOcr.StripDataUrl | netlify/functions/google-vision-ocr.js:118-122 | the text after the first "base64," marker, or the whole text without one |
| GoogleVisionOcr.HandleAnnotateIff | netlify/functions/google-vision-ocr.js:91-137 | the request reaches Google exactly for a POST with a key and an image field of 32 or more characters that is at most 20000000 once stripped; the content sent is the stripped field |
| GoogleVisionOcr.HandleErrors | netlify/functions/google-vision-ocr.js:92-127 | 405 for another method, 500 without a key, 400 for bad JSON or a missing or short image, and only 400, 405, 413 or 500 before the request |
| GoogleVisionOcr.SizeGuardAfterStrip | netlify/functions/google-vision-ocr.js:114-127 | the size guard applies after stripping: an oversized data URL whose payload fits goes through |
| GoogleVisionOcr.RespondFirstOnly | netlify/functions/google-vision-ocr.js:158-169 | only the first response is read, and a first response without error and with an annotation gives its text and lines |
| MissionMatcher.BuiltStoreIds | src/utils/missionMatcher.ts:9 | the built ids are exactly the store ids of the user's stores |
| MissionMatcher.RequirementMetIff | src/utils/missionMatcher.ts:12-22 | a requirement is met exactly when the first catalogue store of that name is built and sells the product |
| MissionMatcher.CanCompleteMissionIff | src/utils/missionMatcher.ts:3-23 | a mission can be completed exactly when every requirement is met; one without requirements always can |
| MissionMatcher.UnknownStoreBlocks | src/utils/missionMatcher.ts:14-15 | a requirement naming no catalogue store blocks the mission |
| MissionMatcher.ProductNotSoldBlocks | src/utils/missionMatcher.ts:20-21 | a requirement whose store does not sell the product blocks it |
| MissionMatcher.QuantityIgnored | src/utils/missionMatcher.ts:12-22 | the quantities play no part |
| MissionMatcher.MoreStoresStillComplete | src/utils/missionMatcher.ts:3-23 | building more stores never makes a completable mission incompletable |
| MissionMatcher.GetCompletableMissionsSpec | src/utils/missionMatcher.ts:25-33 | the result is exactly the completable missions, in their order |
| MissionMatcher.NewStoreUnknown | src/utils/missionMatcher.ts:41-42 | an unknown store id gives no missions |
| MissionMatcher.NewStoreMissions | src/utils/missionMatcher.ts:35-53 | otherwise exactly the completable missions that mention the new store's name, in order |
| ResidentName.CaseChar | src/utils/residentName.ts:5 | upper and lower case keep spaces and delimiters and are idempotent |
| ResidentName.SegmentTitle | src/utils/residentName.ts:1-6 | a segment is title-cased: its first character upper, the rest lower |
| ResidentName.PartTitle | src/utils/residentName.ts:12 | splitting a part at apostrophes and joining back title-cases each segment |
| ResidentName.WordTitle | src/utils/residentName.ts:8-14 | splitting a word at hyphens and joining back title-cases each part |
| ResidentName.TitleCasedJoin | src/utils/residentName.ts:10-13 | title-casing distributes over a join at a delimiter |
| ResidentName.JoinMapTitle | src/utils/residentName.ts:10-20 | so mapping title case over the pieces and joining is title-casing the whole |
| ResidentName.FormatResidentNameSpec | src/utils/residentName.ts:16-21 | the formatted name is the tidied name with each character after a space, hyphen or apostrophe upper-cased and every other lower-cased |
| ResidentName.TrimEmptyIff | src/utils/residentName.ts:17-18 | a trimmed text is empty exactly when all its characters are spaces |
| ResidentName.FormatEmptyIff | src/utils/residentName.ts:16-21 | the formatted name is empty exactly when the input is all whitespace |
| ResidentName.TidyWellSpaced | src/utils/residentName.ts:17 | tidying leaves single plain spaces between words and none at the ends |
| ResidentName.TidyFixed | src/utils/residentName.ts:17 | a well-spaced text is its own tidy form |
| ResidentName.CollapseFixed | src/utils/residentName.ts:17 | collapsing leaves a single-spaced text unchanged |
| ResidentName.TitleCasedShape | src/utils/residentName.ts:16-21 | title case keeps spaces, delimiters and each character's lower-case form |
| ResidentName.FormatWellSpaced | src/utils/residentName.ts:16-21 | the formatted name is well spaced |
| ResidentName.FormatCaseOnly | src/utils/residentName.ts:16-21 | formatting changes only letter case after tidying |
| ResidentName.TitleCasedIdempotent | src/utils/residentName.ts:1-14 | title-casing twice is title-casing once |
| ResidentName.FormatIdempotent | src/utils/residentName.ts:16-21 | formatting a formatted name changes nothing |
| ResidentName.FormatNoSpace | src/utils/residentName.ts:16-21 | a name without whitespace is just title-cased |
| ResidentName.FormatHyphenated | src/utils/residentName.ts:9 | "ANNA-MARIE" becomes "Anna-Marie" |
| ResidentName.FormatApostrophe | src/utils/residentName.ts:9 | "O'BRIEN" becomes "O'Brien" |
| Storage.DigitChar | src/utils/storage.ts:116 | a digit value below ten is written as the decimal digit of that value |
| Storage.NatToString | src/utils/storage.ts:116 | `String(num)` of a whole number is a non-empty string of decimal digits |
| Storage.DecimalRoundTrip | src/utils/storage.ts:53 | parsing the decimal form of a number gives the number back |
| Storage.LeadingDigits | src/utils/storage.ts:52 | the leading digit run is the longest all-digit prefix |
| Storage.LeadingDigitsOf | src/utils/storage.ts:52 | a digit run followed by a non-digit is exactly the leading run |
| Storage.ResidentIdToNumberOf | src/utils/storage.ts:51-54 | an id whose first digits spell n (after a digit-free prefix) maps to n |
| Storage.ResidentIdExamples | src/utils/storage.ts:50-54 | "res-n" and "n" both map to n |
| Storage.ResidentIdWithoutDigits | src/utils/storage.ts:53 | an id without digits maps to 0 |
| Storage.StatusCodec | src/utils/storage.ts:75-125 | a status survives encoding; only 1 decodes to completed and only completed encodes to 1 |
| Storage.StoreIdTableSpec | src/utils/storage.ts:38-40 | the store table holds exactly the store ids and dream jobs, once each |
| Storage.MissionIdTableSpec | src/utils/storage.ts:41 | the mission table holds exactly the mission ids, once each, in first-seen order |
| Storage.IdsInTables | src/utils/storage.ts:38-41 | every store id, dream job and mission id is in its table |
| Storage.BaseTimeSpec | src/utils/storage.ts:48-76 | the base time is the least addedAt (0 without missions), so every time delta is non-negative |
| Storage.IndexInFound | src/utils/storage.ts:44-45 | looking up an id of the table gives its position |
| Storage.MinifyIndices | src/utils/storage.ts:62-77 | every index written refers back to the same id |
| Storage.IntToStringNat | src/utils/storage.ts:116 | `String` of a non-negative number is its decimal form |
| Storage.StoreRoundTrip | src/utils/storage.ts:62-117 | a store expands back with its id and its residents' numeric ids |
| Storage.ResidentRoundTrip | src/utils/storage.ts:68-122 | a resident expands back with its numeric id, "Resident n" and its dream job, without a current store |
| Storage.MissionRoundTrip | src/utils/storage.ts:73-127 | a mission expands back unchanged |
| Storage.ExpandStoresV3 | src/utils/storage.ts:114-117 | all minified stores expand |
| Storage.ExpandResidentsV3 | src/utils/storage.ts:118-122 | all minified residents expand |
| Storage.ExpandMissionsV3 | src/utils/storage.ts:123-127 | all minified missions expand to the original missions |
| Storage.MinifyExpand | src/utils/storage.ts:36-128 | expanding the minified data gives the data with numeric resident ids, generated names and no current stores |
| Storage.RoundTripKeeps | src/utils/storage.ts:36-128 | missions, store ids, dream jobs and the counts survive the round trip |
| Storage.SyncedIdStable | src/utils/storage.ts:51-116 | a numeric id maps to itself |
| Storage.SyncedStable | src/utils/storage.ts:36-128 | a second round trip changes nothing |
| Storage.V1Lossless | src/utils/storage.ts:150-166 | the version-1 object format decodes to the data without current stores |
| Storage.V2Lossless | src/utils/storage.ts:131-147 | the version-2 format with string ids decodes to the data without current stores |
| Storage.ExpandV3Fails | src/utils/storage.ts:110-128 | version-3 decoding fails exactly when some index is outside its table |
| StateOps.SubsequenceRefl | src/stores/index.ts:246 | a list is a subsequence of itself, the base of every filter's order property |
| StateOps.SubsequenceSkip | src/stores/index.ts:200 | dropping one element leaves a subsequence |
| StateOps.RemoveAtIndex | src/stores/index.ts:204 | `splice(i, 1)` shifts every later element down by one |
| StateOps.RemoveAtSpec | src/stores/index.ts:204 | `splice(i, 1)` removes exactly that one element and keeps the order |
| StateOps.RemoveFirstSpec | src/stores/index.ts:198-201 | `indexOf` then `splice` removes one occurrence of a present id and leaves a list without it unchanged |
| StateOps.RemoveFirstOthers | src/stores/index.ts:198-201 | other ids stay present exactly when they were |
| StateOps.RemoveFirstAt | src/stores/index.ts:198-201 | it removes the first occurrence |
| StateOps.IndexFound | src/stores/index.ts:194 | `findIndex` finds something exactly when an element has the id |
| StateOps.AddStoreKeeps | src/stores/index.ts:266-276 | appending a new empty store keeps the ids distinct, the capacity and single placement |
| StateOps.DropEverywhereSpec | src/stores/index.ts:304-309 | dropping an id from every store keeps the ids, the capacity and single placement, and no store lists it afterwards |
| StateOps.SourceAt | src/stores/index.ts:198-201 | each element after dropping comes from a different position than the dropped occurrence |
| StateOps.DropKeepsSingle | src/stores/index.ts:197-202 | dropping an id everywhere keeps single placement and removes it from every list |
| StateOps.SetStatusSpec | src/stores/index.ts:369-387 | setting a status changes only the status of the first mission with that id, and nothing when there is none |
| StateOps.AddMissionKeeps | src/stores/index.ts:356-367 | adding a new pending mission keeps mission ids distinct |
| StateOps.RemoveMissionGone | src/stores/index.ts:389-397 | removing a mission removes its id and keeps the rest distinct |
| StateOps.RemoveStoreGone | src/stores/index.ts:278-286 | removing a store removes its id and keeps the rest distinct |
| StateOps.RemoveStoreKeeps | src/stores/index.ts:278-286 | removing a store keeps the capacity and single placement |
| Numbers.Add1Value | src/stores/index.ts:167 | `maxId + 1` adds one to a finite number and leaves NaN and the infinities alone |
| Numbers.InfinityReads | src/stores/index.ts:164 | `Number("Infinity")` is Infinity |
| Numbers.SignedReads | src/stores/index.ts:164 | `Number` reads a leading sign: `"+5"` is 5 and `"-3"` is -3 |
| Numbers.DecimalReads | src/stores/index.ts:164 | `Number` reads fractions and exponents: `"1.5"` is 1.5 and `"1e3"` is 1000 |
| Numbers.OtherReads | src/stores/index.ts:164 | `"0x1f"` is 31, `"12px"` is NaN and the empty string is 0 |
| Numbers.NumberStringRoundTrip | src/stores/index.ts:164-167 | `Number(String(x))` is `x` for every number |
| AppStore.MaxOverSpec | src/stores/index.ts:163-166 | the fold is never NaN nor below 0, no non-NaN value exceeds it, and it is 0 or one of the values |
| AppStore.MaxNumericIdSpec | src/stores/index.ts:163-166 | the running maximum is at least 0, no id's number exceeds it, and it is 0 or the number of some id |
| AppStore.BelowNext | src/stores/index.ts:165-167 | a number not above a finite maximum is below the maximum plus one |
| AppStore.NewResidentIdFresh | src/stores/index.ts:162-167 | the new id reads back as the maximum plus one; while the maximum is finite it exceeds every id whose `Number` is not NaN and so is no resident's id; an infinite maximum gives `"Infinity"` |
| AppStore.MaxOfOne | src/stores/index.ts:163-166 | over one resident the maximum is its id's number when that is above 0, and 0 otherwise |
| AppStore.InfinityIdRepeats | src/stores/index.ts:162-167 | beside a resident with id `"Infinity"` the new id is `"Infinity"` again, a duplicate |
| AppStore.NextAfterExponent | src/stores/index.ts:162-167 | after an id `"1e3"` the new id is `"1001"` |
| AppStore.NextAfterFraction | src/stores/index.ts:162-167 | after an id `"1.5"` the new id is `"2.5"` |
| AppStore.Assign | src/stores/index.ts:223 | `Object.assign` takes each given field of the update and keeps the others |
| AppStore.AssignEmpty | src/stores/index.ts:223 | an empty update changes nothing |
| AppStore.HoldingIndex | src/stores/index.ts:231 | the first store whose list holds the id, or -1 when none does |
| AppStore.CurrentStore | src/stores/index.ts:230-233 | a current store exists exactly when some store lists the resident, and it is such a store |
| AppStore.CurrentStoreUnique | src/stores/index.ts:230-233 | with single placement it is the store that lists the resident |
| AppStore.CurrentStoreSame | src/stores/index.ts:230-233 | it depends only on which stores list the resident |
| AppStore.ResidentsNotInDreamJobSpec | src/stores/index.ts:235-243 | exactly the residents in no store, in a store other than their dream job, or whose dream job is empty, in order |
| AppStore.ResidentsForStoreSpec | src/stores/index.ts:245-247 | exactly the residents whose dream job is that store, in order (also `getResidentsByDreamJob` and `getResidentsForStore` of src/composables/useResidents.ts:51-64) |
| AppStore.StoreCapacity | src/stores/index.ts:331-334 | the size of the first matching store's list, 0 for an unknown store, at most three under the capacity rule (also src/composables/useStores.ts:98-101) |
| AppStore.IsStoreFullSpec | src/stores/index.ts:336-338 | an unknown store is never full, and a full store holds exactly three (also src/composables/useStores.ts:103-105) |
| AppStore.AppendKeepsSingle | src/stores/index.ts:311 | appending an id no store lists keeps single placement |
| AppStore.PlacedKeeps | src/stores/index.ts:303-311 | dropping the id everywhere and appending it to a store with room keeps the capacity and single placement, and the id is then in that store only |
| AppStore.IdMapOverKeys | src/stores/index.ts:37-46 | the map holds exactly the ids that are renumbered |
| AppStore.IdMapOverValue | src/stores/index.ts:41-42 | an id maps to the number of its last holder's position plus one |
| AppStore.LastHolder | src/stores/index.ts:37-46 | an id that some resident has has a last holder |
| AppStore.IdMapSpec | src/stores/index.ts:36-46 | exactly the ids for which `Number` gives NaN are remapped, each to `String` of its last holder's position plus one |
| AppStore.MigrateResidents | src/stores/index.ts:30-46 | after loading, no resident's id reads as NaN and none has a current store; each keeps its name and dream job, and keeps an id that does not read as NaN or gets `String` of its position plus one, which reads back as that number |
| AppStore.MigrateKeepsPlacement | src/stores/index.ts:48-54 | with distinct ids a store entry still names the same resident |
| AppStore.MigrateKeepsOtherEntries | src/stores/index.ts:52 | an entry whose `Number` is not NaN, or that names no resident, is kept |
| AppStore.MigrateMissions | src/stores/index.ts:56-63 | exactly the pending missions and the completed ones newer than thirty days survive, in order |
| AppStore.AppData.constructor | src/stores/index.ts:9-16 | the data starts as given |
| AppStore.AppData.Load | src/stores/index.ts:20-65 | loading validated data applies the migrations |
| AppStore.AppData.CreateResident | src/stores/index.ts:145-176 | a rejected name or blank dream job changes nothing; otherwise one resident with the fresh id is appended |
| AppStore.AppData.DropFromAllStores | src/stores/index.ts:197-202 | each store's list loses its first occurrence of the id |
| AppStore.AppData.RemoveResident | src/stores/index.ts:193-209 | a known resident leaves every store list and the resident list; an unknown id changes nothing |
| AppStore.AppData.UpdateResident | src/stores/index.ts:211-228 | an unknown id or a rejected name changes nothing; otherwise the first match gets the update |
| AppStore.AppData.AddStore | src/stores/index.ts:266-276 | a new store id is appended with no residents; a known one changes nothing (also src/composables/useStores.ts:29-38) |
| AppStore.AppData.RemoveStore | src/stores/index.ts:278-286 | the first store with the id is removed; residents and missions are untouched |
| AppStore.AppData.AddResidentToStore | src/stores/index.ts:288-314 | store not found, full and already-there errors change nothing; otherwise the id leaves every store and joins this one |
| AppStore.AppData.RemoveResidentFromStore | src/stores/index.ts:316-329 | the id is removed from the store's list exactly when it is there |
| AppStore.AppData.AddMission | src/stores/index.ts:356-367 | a new mission id is appended as pending at the given time; a known one changes nothing (also src/composables/useMissions.ts:61-71) |
| AppStore.AppData.MarkMissionCompleted | src/stores/index.ts:369-377 | the first mission with the id becomes completed; reports whether there was one (also src/composables/useMissions.ts:73-80) |
| AppStore.AppData.MarkMissionPending | src/stores/index.ts:379-387 | the first mission with the id becomes pending (also src/composables/useMissions.ts:82-89) |
| AppStore.AppData.RemoveMission | src/stores/index.ts:389-397 | the first mission with the id is removed (also src/composables/useMissions.ts:91-98) |
| UseStores.SetCurrentStoreSpec | src/composables/useStores.ts:76-78 | setting a current store changes only that field of the first resident with the id |
| UseStores.ClearedForKeeps | src/composables/useStores.ts:45-50 | clearing current stores changes no id, name or dream job |
| UseStores.ClearedForIndex | src/composables/useStores.ts:46 | clearing does not move any resident |
| UseStores.ClearedForSpec | src/composables/useStores.ts:45-50 | a resident loses its current store exactly when it is the first holder of a listed id |
| UseStores.ClearCurrentStores | src/composables/useStores.ts:45-50 | the loop clears exactly those current stores |
| UseStores.RemoveStore | src/composables/useStores.ts:40-55 | the store's residents lose their current store and the store is removed; an unknown id changes nothing |
| UseStores.PreviousDropped | src/composables/useStores.ts:64-73 | only the store named by the resident's current store loses the id; store ids are unchanged |
| UseStores.AddResidentToStore | src/composables/useStores.ts:57-80 | a missing, full or already holding store changes nothing; otherwise the id leaves its previous store, joins this one, and the resident's current store is set |
| UseStores.RemoveResidentFromStore | src/composables/useStores.ts:82-96 | the id leaves the store exactly when it is there, and then the resident's current store is cleared |
| UseStores.PreviousDroppedEverywhere | src/composables/useStores.ts:64-73 | under the invariant, dropping from the current store is dropping from every store |
| UseStores.DropNoHolder | src/composables/useStores.ts:68-71 | dropping an id no store lists changes nothing |
| UseStores.DropOnlyHolder | src/composables/useStores.ts:68-71 | with single placement, dropping from the holding store is dropping everywhere |
| UseStores.PlacedOthers | src/composables/useStores.ts:75 | placing one resident leaves every other resident's store as it was |
| UseStores.AddResidentToStoreKeeps | src/composables/useStores.ts:57-80 | a successful placement keeps the invariant: capacity, single placement, distinct ids, and each current store naming the store that lists the resident |
| UseStores.ResidentIndexOwn | src/composables/useStores.ts:64 | with distinct ids a resident is the first holder of its own id |
| UseStores.RemoveAtCurrentStore | src/composables/useStores.ts:51 | removing a store that does not list a resident leaves its store as it was |
| UseStores.RemoveAtHolderGone | src/composables/useStores.ts:51 | removing the store that lists a resident leaves it in no store |
| UseStores.RemoveStoreKeepsConsistent | src/composables/useStores.ts:40-55 | removing a store keeps the invariant |
| UseStores.RemoveResidentFromStoreKeeps | src/composables/useStores.ts:82-96 | removing a resident from its store keeps the invariant and leaves it in no store |
| UseStores.CatalogueStore | src/composables/useStores.ts:21 | the catalogue store of an id, absent exactly when no catalogue entry has it |
| UseStores.UserStoreViewsSpec | src/composables/useStores.ts:19-27 | the view pairs each built store with its catalogue entry and drops the unknown ones |
| UseResidents.AddResident | src/composables/useResidents.ts:10-18 | one resident with the given id, name and dream job is appended and the id returned |
| UseResidents.RemoveResident | src/composables/useResidents.ts:20-40 | the id leaves only the store its current store names, and the resident is removed |
| UseResidents.UpdateResident | src/composables/useResidents.ts:42-49 | the first match gets the update, without a name check |
| UseResidents.ResidentsNotInDreamJobSpec | src/composables/useResidents.ts:55-60 | exactly the residents with no current store or one other than their dream job, in order |
| UseResidents.NotInDreamJobAgrees | src/composables/useResidents.ts:55-60 | under the invariant this agrees with the application store's list |
| UseResidents.AddResidentKeeps | src/composables/useResidents.ts:10-18 | adding under an unused id keeps the invariant |
| UseResidents.RemoveResidentKeeps | src/composables/useResidents.ts:20-40 | under the invariant the id leaves every store and the invariant still holds |
| UseResidents.UpdateResidentKeeps | src/composables/useResidents.ts:42-49 | an update that sets neither the id nor the current store keeps the invariant |
| UseMissions.CatalogueMission | src/composables/useMissions.ts:31 | the catalogue mission of an id, absent exactly when no entry has it |
| UseMissions.UserMissionsSpec | src/composables/useMissions.ts:28-38 | the view pairs each user mission with its catalogue entry and drops the unknown ones |
| UseMissions.UnknownMissionHidden | src/composables/useMissions.ts:37 | a mission the catalogue does not know is not listed |
| UseMissions.StatusPartition | src/composables/useMissions.ts:40-46 | the pending and completed lists split the views by status |
| UseMissions.CompletableMissionsSpec | src/composables/useMissions.ts:48-59 | without stores or a store catalogue nothing is completable; otherwise exactly the pending catalogue missions the built stores complete |
| UseMissions.IsMissionCompletableSpec | src/composables/useMissions.ts:100-109 | an unknown mission is never completable, and a pending one is completable exactly when it is in the completable list |
| StoreMatching.RankScoresSpec | src/utils/residentScreenshotImport/storeMatching.ts:50-67 | the scan keeps the first highest score as best and a highest score among the others as second; best exists iff there is a store, second iff there are two |
| StoreMatching.ExactTier | src/utils/residentScreenshotImport/storeMatching.ts:27-48 | an exact-tier match is one of the stores at confidence 1 (case-insensitive equality) or 0.98 (match key, no-space key, collapsed key) |
| StoreMatching.Score | src/utils/residentScreenshotImport/storeMatching.ts:53-57 | the fuzzy score of a store lies in 0..1 |
| StoreMatching.FuzzyDecision | src/utils/residentScreenshotImport/storeMatching.ts:69-97 | a fuzzy result names a store only when it is the best one, with that store's score as confidence |
| StoreMatching.MatchStore | src/utils/residentScreenshotImport/storeMatching.ts:12-98 | blank or unemployed text, or no stores, give confidence 0 and no store; confidence in 0..1; an id comes with its name and belongs to a store of the catalogue |
| StoreMatching.MatchStoreExact | src/utils/residentScreenshotImport/storeMatching.ts:27-28 | the first store equal to the text ignoring case is matched at confidence 1 |
| StoreMatching.MatchStoreNormalized | src/utils/residentScreenshotImport/storeMatching.ts:30-34 | failing that, the first store with the same match key is matched at 0.98 |
| StoreMatching.MatchStoreNoSpace | src/utils/residentScreenshotImport/storeMatching.ts:36-41 | failing that, the first store with the same non-empty no-space key is matched at 0.98 |
| StoreMatching.MatchStoreCollapsed | src/utils/residentScreenshotImport/storeMatching.ts:43-48 | failing that, the first store whose no-space key is the half of a doubled reading is matched at 0.98 |
| StoreMatching.MatchStoreFuzzy | src/utils/residentScreenshotImport/storeMatching.ts:50-97 | otherwise the first best-scoring store is matched exactly when the score passes the short-text or the gap rule, and the confidence is its score either way |
| StoreMatching.MatchStoreTieRejected | src/utils/residentScreenshotImport/storeMatching.ts:90-95 | two stores tied at 0.75 or more give no store |
| StoreMatching.FuzzyScan | src/utils/residentScreenshotImport/storeMatching.ts:50-67 | the loop computes the best and second entries of the ranking |
| StoreMatching.MatchStoreScan | src/utils/residentScreenshotImport/storeMatching.ts:12-98 | the method computes `MatchStore` |
| StoreMatching.Attempt | src/utils/residentScreenshotImport/storeMatching.ts:108-113 | a raw text is tried only when trimmed it is a likely store name, and its confidence is in 0..1 |
| StoreMatching.BestOf | src/utils/residentScreenshotImport/storeMatching.ts:104-124 | the pick has the highest confidence, the first attempt to reach it, and a positive confidence unless nothing was picked |
| StoreMatching.PickBestStoreMatchNone | src/utils/residentScreenshotImport/storeMatching.ts:100-125 | nothing is picked exactly when no attempt has a positive confidence |
| StoreMatching.PickBestStoreMatchBounded | src/utils/residentScreenshotImport/storeMatching.ts:100-125 | the picked confidence lies in 0..1 |
| StoreMatching.PickBestStoreMatchFirst | src/utils/residentScreenshotImport/storeMatching.ts:108-121 | a pick is the trimmed text of the first likely-store-name text reaching the highest confidence, with its `matchStore` confidence |
| StoreMatching.PickBestStoreMatchScan | src/utils/residentScreenshotImport/storeMatching.ts:100-125 | the loop computes `PickBestStoreMatch` |
| StoreMatching.HitOf | src/utils/residentScreenshotImport/storeMatching.ts:135-141 | a hit is recorded only for a store whose no-space key has 4 or more characters, at the first index where it occurs in the text's no-space key |
| StoreMatching.CollectHitsSound | src/utils/residentScreenshotImport/storeMatching.ts:134-142 | every collected hit is a catalogue store's own hit |
| StoreMatching.FirstPerIdSorted | src/utils/residentScreenshotImport/storeMatching.ts:144-151 | keeping the first hit per store id preserves the order by index |
| StoreMatching.FindEmbeddedStoresSound | src/utils/residentScreenshotImport/storeMatching.ts:127-153 | an empty key gives no hits; every hit is sound; no store id appears twice; hits are sorted by index |
| StoreMatching.FindEmbeddedStoresComplete | src/utils/residentScreenshotImport/storeMatching.ts:127-153 | every store of the catalogue embedded in the text is reported |
| StoreMatching.FindEmbeddedStoresInText | src/utils/residentScreenshotImport/storeMatching.ts:127-153 | the method computes `FindEmbeddedStores` |
| StoreMatching.FirstPerId | src/utils/residentScreenshotImport/storeMatching.ts:146-151 | the kept hits come from the list, have distinct store ids, and cover every id of the list |
| StoreMatching.CollectHitsScan | src/utils/residentScreenshotImport/storeMatching.ts:134-142 | the store loop collects exactly the hits of the stores whose no-space names of four or more characters occur |
| StoreMatching.FirstPerIdScan | src/utils/residentScreenshotImport/storeMatching.ts:146-151 | the `seen` loop keeps exactly the first hit of each store id |
| Layout.ColumnForLine | src/utils/residentScreenshotImport/layout.ts:3-13 | a line is left below 42% of the width (at least 1), middle below 72%, right otherwise, each as an if-and-only-if |
| Layout.GapsScan | src/utils/residentScreenshotImport/layout.ts:26-29 | the loop records the gap between each pair of neighbouring x positions |
| Layout.BigGapsLargest | src/utils/residentScreenshotImport/layout.ts:31-32 | the big gaps come largest first: the first two are the two largest |
| Layout.SplitTwo | src/utils/residentScreenshotImport/layout.ts:51-60 | the loop sorts the lines into the two sides of the split, in order |
| Layout.SplitThree | src/utils/residentScreenshotImport/layout.ts:34-48 | the loop sorts the lines into the three bands cut by the two splits, in order |
| Layout.SplitBands | src/utils/residentScreenshotImport/layout.ts:63-72 | the loop sorts the lines into the left, middle and right bands of the width |
| Layout.SplitRowIntoColumns | src/utils/residentScreenshotImport/layout.ts:15-73 | the method computes `SplitRow` |
| Layout.SplitRowShape | src/utils/residentScreenshotImport/layout.ts:19-21 | no columns exactly when every line is blank; otherwise two or three columns |
| Layout.SplitRowPartition | src/utils/residentScreenshotImport/layout.ts:15-73 | the columns together hold exactly the non-blank lines, each once |
| Layout.SplitRowOrdered | src/utils/residentScreenshotImport/layout.ts:15-73 | every line of a column lies left of every line of the next |
| Layout.SplitLinesManyGaps | src/utils/residentScreenshotImport/layout.ts:34-48 | two or more big gaps give three non-empty columns |
| Layout.SplitLinesOneGap | src/utils/residentScreenshotImport/layout.ts:51-60 | one big gap gives two non-empty columns |
| Layout.SplitRowGapColumns | src/utils/residentScreenshotImport/layout.ts:31-72 | the number of big gaps chooses the strategy: none uses the fixed bands, one gives two columns, more give three, and gap columns are never empty |
| Layout.MedianHeightFacts | src/utils/residentScreenshotImport/layout.ts:81-85 | the median height is non-negative, 0 exactly when no line has a height, and otherwise the height of some line |
| Layout.GroupLinesIntoRows | src/utils/residentScreenshotImport/layout.ts:75-103 | the method computes `GroupRows` |
| Layout.ClusterScan | src/utils/residentScreenshotImport/layout.ts:88-100 | the loop computes `Cluster` |
| Layout.ClusterKeeps | src/utils/residentScreenshotImport/layout.ts:88-100 | every line of a row is within the threshold of the row's first line, and each new row starts beyond it |
| Layout.GroupRowsSpec | src/utils/residentScreenshotImport/layout.ts:75-103 | the rows hold the lines sorted by top edge; the threshold is at least 26; rows are anchored and apart |
| NamePicking.PickBestName | src/utils/residentScreenshotImport/namePicking.ts:10-29 | a picked candidate survives every filter: a likely name, neither text unemployed-like, and no store matched at 0.85 or more when stores are given |
| NamePicking.PickBestNameNone | src/utils/residentScreenshotImport/namePicking.ts:10-29 | nothing is picked exactly when no text survives |
| NamePicking.PickBestNameIsBest | src/utils/residentScreenshotImport/namePicking.ts:10-29 | the pick is the earliest surviving text of the greatest length |
| NamePicking.PickBestNameShape | src/utils/residentScreenshotImport/namePicking.ts:10-29 | the pick is a likely name made of letters, never unemployed, and never a strong store match when stores are given |
| ThreeColumn.ChooseNameBest | src/utils/residentScreenshotImport/extractors/threeColumn.ts:34-43 | the name column is the first whose pick is strictly longest; there is none exactly when no column yields a name |
| ThreeColumn.PickNameColumn | src/utils/residentScreenshotImport/extractors/threeColumn.ts:34-42 | the loop computes `ChooseName` over the columns' picks |
| ThreeColumn.DreamColumnIndex | src/utils/residentScreenshotImport/extractors/threeColumn.ts:50-52 | the dream column is the last column other than the name column |
| ThreeColumn.LongestTextSpec | src/utils/residentScreenshotImport/extractors/threeColumn.ts:54-58 | the current text is the earliest longest trimmed text of the name column, and none only when there is none |
| ThreeColumn.NoOtherTextCurrentJob | src/utils/residentScreenshotImport/extractors/threeColumn.ts:54-58 | without other text in the name column there is no current text |
| ThreeColumn.ChooseCurrentSpec | src/utils/residentScreenshotImport/extractors/threeColumn.ts:68-73 | the current match is the name column's when it reaches 0.75, else the middle column's when that does, else the name column's |
| ThreeColumn.ChooseDreamSpec | src/utils/residentScreenshotImport/extractors/threeColumn.ts:75-80 | the dream match is the dream column's when positive, else the right column's when positive, else none |
| ThreeColumn.CurrentColumnsPickBounded | src/utils/residentScreenshotImport/extractors/threeColumn.ts:60-73 | the current match confidence lies in 0..1 |
| ThreeColumn.OverrideDreamSpec | src/utils/residentScreenshotImport/extractors/threeColumn.ts:82-93 | a weak or missing dream is replaced by the last embedded store at 0.9, and a strong one is kept |
| ThreeColumn.OverrideCurrentSpec | src/utils/residentScreenshotImport/extractors/threeColumn.ts:95-103 | with two or more embedded stores and no unemployed text, a weak current match is replaced by the first at 0.9; otherwise it is kept |
| ThreeColumn.AssembleConsistent | src/utils/residentScreenshotImport/extractors/threeColumn.ts:105-131 | the issues are exactly the dream-unparsed, dream-unmatched and current-unmatched cases, and `selected` holds exactly for a named, matched dream at the auto-select confidence |
| ThreeColumn.AssembleUnemployed | src/utils/residentScreenshotImport/extractors/threeColumn.ts:113-119 | an unemployed current text is kept and never raises the current-unmatched issue |
| ThreeColumn.UnemployedCurrentJob | src/utils/residentScreenshotImport/extractors/threeColumn.ts:55-58 | an unemployed text in the name column makes the current job "UNEMPLOYED" with no current-unmatched issue |
| ThreeColumn.BuildCandidateWellFormed | src/utils/residentScreenshotImport/extractors/threeColumn.ts:45-131 | a built candidate is named, consistent, has confidences in 0..1 and the file's name |
| ThreeColumn.ColumnsCandidateSpec | src/utils/residentScreenshotImport/extractors/threeColumn.ts:32-131 | a row of two or more columns gives a candidate exactly when some column yields a name, and it is well formed |
| ThreeColumn.RowCandidateSome | src/utils/residentScreenshotImport/extractors/threeColumn.ts:29-43 | a row gives a candidate exactly when it splits into two or more columns and some column yields a name |
| ThreeColumn.RowCandidatesSpec | src/utils/residentScreenshotImport/extractors/threeColumn.ts:28-132 | at most one candidate per row, each well formed |
| ThreeColumn.ThreeColumnCandidatesSpec | src/utils/residentScreenshotImport/extractors/threeColumn.ts:13-135 | the rows are built from the non-header, non-blank lines; at most one candidate per row; every candidate well formed |
| ThreeColumn.RowsScan | src/utils/residentScreenshotImport/extractors/threeColumn.ts:28-132 | the row loop computes `RowCandidates` |
| ThreeColumn.ExtractCandidatesThreeColumn | src/utils/residentScreenshotImport/extractors/threeColumn.ts:13-135 | the method computes `ThreeColumnCandidates` |
| VerticalPair.LeftLinesSpec | src/utils/residentScreenshotImport/extractors/verticalPair.ts:21-26 | the scanned lines are exactly the non-header lines left of 60% of the width, sorted by top edge, stably |
| VerticalPair.LeftLinesSorted | src/utils/residentScreenshotImport/extractors/verticalPair.ts:23-26 | the scanned lines are sorted by top edge |
| VerticalPair.ViewSpec | src/utils/residentScreenshotImport/extractors/verticalPair.ts:32-42 | what one line offers: its trimmed text, its top edge, whether it is a likely store name, and its extracted likely name |
| VerticalPair.StartPendingSpec | src/utils/residentScreenshotImport/extractors/verticalPair.ts:35-45 | with no pending name, a line adds nothing and becomes pending exactly when it yields a likely name not matched to a store at 0.92 or more |
| VerticalPair.StepPending | src/utils/residentScreenshotImport/extractors/verticalPair.ts:47-90 | with a pending name: a line above it drops it; a line more than 80 below restarts it; a non-store line is skipped; a store line emits the pair and clears it |
| VerticalPair.RestartPendingSpec | src/utils/residentScreenshotImport/extractors/verticalPair.ts:53-57 | a line more than 80 below replaces the pending name with its own likely name, or with none, and adds nothing |
| VerticalPair.PairSpec | src/utils/residentScreenshotImport/extractors/verticalPair.ts:59-90 | a candidate is emitted exactly for a store line within 0 to 80 below a pending name, and then nothing is pending |
| VerticalPair.RunInvariant | src/utils/residentScreenshotImport/extractors/verticalPair.ts:31-91 | after any prefix, every candidate pairs a name line with a later store line, and two lines are consumed per candidate |
| VerticalPair.PendingNotBelow | src/utils/residentScreenshotImport/extractors/verticalPair.ts:47-51 | over lines sorted by top edge the pending name is never below the next line |
| VerticalPair.NegativeGapUnreachable | src/utils/residentScreenshotImport/extractors/verticalPair.ts:47-51 | so the negative-gap branch never runs on the sorted left lines |
| VerticalPair.PairCandidateName | src/utils/residentScreenshotImport/extractors/verticalPair.ts:63-70 | a paired candidate's name is the sanitized likely name, never empty, so no name issue is raised |
| VerticalPair.PairCandidateJobs | src/utils/residentScreenshotImport/extractors/verticalPair.ts:64-88 | the dream text, the store match and its confidence are carried over; the issues and `selected` follow the match |
| VerticalPair.PairCandidateWellFormed | src/utils/residentScreenshotImport/extractors/verticalPair.ts:63-88 | a paired candidate is well formed |
| VerticalPair.PairedWellFormed | src/utils/residentScreenshotImport/extractors/verticalPair.ts:31-91 | every candidate the scan pairs is well formed |
| VerticalPair.VerticalPairCandidatesSpec | src/utils/residentScreenshotImport/extractors/verticalPair.ts:13-94 | at most one candidate per two left lines, each pairing a name line with a later store line, each well formed |
| VerticalPair.ScanIdle | src/utils/residentScreenshotImport/extractors/verticalPair.ts:35-45 | the idle branch computes one `Step` with nothing pending |
| VerticalPair.RestartPending | src/utils/residentScreenshotImport/extractors/verticalPair.ts:53-57 | the restart branch computes the new pending name |
| VerticalPair.ScanLine | src/utils/residentScreenshotImport/extractors/verticalPair.ts:31-91 | one loop iteration computes one `Step` |
| VerticalPair.ScanLines | src/utils/residentScreenshotImport/extractors/verticalPair.ts:31-91 | the loop computes `Run` over the views of the lines |
| VerticalPair.ExtractCandidatesVerticalPair | src/utils/residentScreenshotImport/extractors/verticalPair.ts:13-94 | the method computes `VerticalPairCandidates` |
| PlainText.RawLinesSpec | src/utils/residentScreenshotImport/extractors/plainText.ts:19-22 | the lines are the trimmed non-empty pieces of the text between line feeds: each is non-empty, trimmed and without a line feed, every non-blank piece appears, and every line comes from a piece |
| PlainText.SomeLineNonBlank | src/utils/residentScreenshotImport/extractors/plainText.ts:19-22 | a text with some line has a non-blank piece |
| PlainText.BlankTextNoCandidates | src/utils/residentScreenshotImport/extractors/plainText.ts:19-27 | a text whose every piece is blank gives no candidates |
| PlainText.NameOfSpec | src/utils/residentScreenshotImport/extractors/plainText.ts:30-31 | a line's name is `pickBestName` of the line alone: a non-empty likely name that sanitizes to letters |
| PlainText.ViewSpec | src/utils/residentScreenshotImport/extractors/plainText.ts:28-37 | what one line offers is computed from that line |
| PlainText.StepSpec | src/utils/residentScreenshotImport/extractors/plainText.ts:27-86 | a noise line changes nothing; a name line with embedded stores emits a candidate and clears the pending name; a name line without them becomes pending; another line emits a pair exactly when a name is pending and it is a likely store name |
| PlainText.EmbeddedCandidateSpec | src/utils/residentScreenshotImport/extractors/plainText.ts:34-53 | the embedded candidate: the last store is the dream job at 0.9; an "unemployed" word makes the current job "UNEMPLOYED" with no store; otherwise a second store is the current job at 0.9; no issues; selected exactly when the dream store has an id |
| PlainText.StoreLineCandidateSpec | src/utils/residentScreenshotImport/extractors/plainText.ts:65-83 | the store-line candidate: the sanitized pending name and the line's match, a name issue exactly for an empty name and a dream issue exactly for no store, selected exactly when named and matched at the auto-select confidence |
| PlainText.StepSourced | src/utils/residentScreenshotImport/extractors/plainText.ts:27-86 | one step emits at most one candidate, drawn from the lines seen |
| PlainText.RunInvariant | src/utils/residentScreenshotImport/extractors/plainText.ts:27-86 | after any prefix, every candidate comes from one name line with embedded stores or from a name line and a later store line, at most one per line |
| PlainText.EmbeddedWellFormed | src/utils/residentScreenshotImport/extractors/plainText.ts:34-53 | an embedded candidate is well formed |
| PlainText.PairWellFormed | src/utils/residentScreenshotImport/extractors/plainText.ts:65-83 | a paired candidate is well formed |
| PlainText.SourcedWellFormed | src/utils/residentScreenshotImport/extractors/plainText.ts:27-86 | every candidate the scan emits is well formed |
| PlainText.PlainTextCandidatesSpec | src/utils/residentScreenshotImport/extractors/plainText.ts:13-89 | at most one candidate per line, each drawn from the lines and well formed |
| PlainText.ScanNameLine | src/utils/residentScreenshotImport/extractors/plainText.ts:30-60 | the name-line branch computes one `Step` |
| PlainText.ScanLine | src/utils/residentScreenshotImport/extractors/plainText.ts:28-85 | one loop iteration computes one `Step` |
| PlainText.ScanLines | src/utils/residentScreenshotImport/extractors/plainText.ts:27-86 | the loop computes `Run` over the views of the lines |
| PlainText.ExtractCandidatesFromPlainText | src/utils/residentScreenshotImport/extractors/plainText.ts:13-89 | the method computes `PlainTextCandidates` |
| Dedupe.ModularValid | src/utils/residentScreenshotImport/dedupe.ts:14-20 | the group key depends only on the name and the dream fields, which a merge never changes |
| Dedupe.BaseKeyIff | src/utils/residentScreenshotImport/dedupe.ts:18-20 | two candidates share a group exactly when their name keys and dream keys agree |
| Dedupe.IsBetterStrictOrder | src/utils/residentScreenshotImport/dedupe.ts:22-43 | "better" is irreflexive, asymmetric and transitive |
| Dedupe.IsBetterTie | src/utils/residentScreenshotImport/dedupe.ts:22-43 | neither is better exactly when dream id presence, issue count, confidence and current-job presence all agree |
| Dedupe.Merge | src/utils/residentScreenshotImport/dedupe.ts:45-69 | a better incoming record replaces the kept one as is (`other` is `incoming` either way); otherwise the kept record stays, `selected` is the or of both, its missing current fields and empty issues are filled from the incoming one |
| Dedupe.MergeCandidates | src/utils/residentScreenshotImport/dedupe.ts:45-69 | the field-by-field merge computes `Merge` |
| Dedupe.MergeBaseKey | src/utils/residentScreenshotImport/dedupe.ts:45-69 | a merge keeps the group key |
| Dedupe.MergeKeepsDream | src/utils/residentScreenshotImport/dedupe.ts:45-69 | the merge has a dream store id exactly when either record has one |
| Dedupe.FirstCompatible | src/utils/residentScreenshotImport/dedupe.ts:79-89 | the index of the first record of the group whose current key equals the new one or is empty, or -1 when none is |
| Dedupe.InsertSpec | src/utils/residentScreenshotImport/dedupe.ts:78-93 | with no compatible record the new one is appended; otherwise it is merged into the first compatible one |
| Dedupe.InsertLength | src/utils/residentScreenshotImport/dedupe.ts:78-93 | a group grows by at most one |
| Dedupe.InsertAll | src/utils/residentScreenshotImport/dedupe.ts:78-93 | a property held by the group, the new record and every merge holds for the new group |
| Dedupe.InsertKeyed | src/utils/residentScreenshotImport/dedupe.ts:74-95 | a group keeps holding only records of its key |
| Dedupe.InsertInto | src/utils/residentScreenshotImport/dedupe.ts:78-93 | the inner loop computes `Insert` |
| Dedupe.GroupOk | src/utils/residentScreenshotImport/dedupe.ts:71-96 | the grouping is well formed, every group holds only its key's records, and there are no more records than inputs |
| Dedupe.GroupKeys | src/utils/residentScreenshotImport/dedupe.ts:71-98 | the groups come in the order their keys first appear in the input |
| Dedupe.FirstSeenMembers | src/utils/residentScreenshotImport/dedupe.ts:71-98 | the first-seen order holds each key once, and exactly the keys of the input |
| Dedupe.GroupedTogether | src/utils/residentScreenshotImport/dedupe.ts:18-20 | records in one group have the same name key and dream key |
| Dedupe.GroupedApart | src/utils/residentScreenshotImport/dedupe.ts:18-20 | records in different groups differ in name key or dream key |
| Dedupe.FlattenSound | src/utils/residentScreenshotImport/dedupe.ts:98 | every output record's key is a group key |
| Dedupe.FlattenComplete | src/utils/residentScreenshotImport/dedupe.ts:98 | every group key has a record in the output |
| Dedupe.DedupeWithSize | src/utils/residentScreenshotImport/dedupe.ts:4-99 | no more records come out than go in, and some come out exactly when some go in |
| Dedupe.DedupeWithKeys | src/utils/residentScreenshotImport/dedupe.ts:4-99 | the output has exactly the group keys of the input |
| Dedupe.DedupeWithOrigins | src/utils/residentScreenshotImport/dedupe.ts:4-99 | every output record has the name, dream and file of some input record |
| Dedupe.DedupeWithSelected | src/utils/residentScreenshotImport/dedupe.ts:52 | when every selected input has a dream store id, so does every selected output |
| Dedupe.PairOfOneGroup | src/utils/residentScreenshotImport/dedupe.ts:71-98 | two records of one group merge into one when compatible and stay two otherwise |
| Dedupe.GroupKeysIn | src/utils/residentScreenshotImport/dedupe.ts:71-96 | every listed key has a group |
| Dedupe.GroupCandidates | src/utils/residentScreenshotImport/dedupe.ts:71-96 | the grouping loop computes `Group` |
| Dedupe.FlattenGroups | src/utils/residentScreenshotImport/dedupe.ts:98 | the flattening loop computes `Flatten` |
| Dedupe.DedupeBy | src/utils/residentScreenshotImport/dedupe.ts:4-99 | the method computes `DedupeWith` for the given keys |
| Dedupe.Dedupe | src/utils/residentScreenshotImport/dedupe.ts:4-99 | the method computes `DedupeOf` with the modular keys |
| Pipeline.InferredWidth | src/utils/residentScreenshotImport/index.ts:38 | the inferred width is the largest right edge of the page's lines, and at least 1 |
| Pipeline.ParseResultBranches | src/utils/residentScreenshotImport/index.ts:32-62 | a page gives the three-column then the vertical-pair candidates when either finds some; otherwise the plain-text candidates of its text, or none without text |
| Pipeline.ParseResultSound | src/utils/residentScreenshotImport/index.ts:32-62 | every candidate of a page is named, has a dream confidence in 0..1, is selected only with a dream store id, and carries the file's name |
| Pipeline.ThreeColumnSound | src/utils/residentScreenshotImport/index.ts:40-45 | the three-column candidates are sound |
| Pipeline.VerticalPairSound | src/utils/residentScreenshotImport/index.ts:47-52 | the vertical-pair candidates are sound |
| Pipeline.PlainTextSound | src/utils/residentScreenshotImport/index.ts:54-58 | the plain-text candidates are sound |
| Pipeline.ParsedKept | src/utils/residentScreenshotImport/index.ts:32-62 | a page's candidates carry the name of one of the files |
| Pipeline.FileCandidatesKept | src/utils/residentScreenshotImport/index.ts:122-145 | so do all the candidates of a file's recognition passes |
| Pipeline.BatchesKept | src/utils/residentScreenshotImport/index.ts:105-148 | so does every file's batch |
| Pipeline.KeptConcat | src/utils/residentScreenshotImport/index.ts:147 | joining two such lists keeps the property |
| Pipeline.DedupeKept | src/utils/residentScreenshotImport/index.ts:147-150 | deduplication keeps it |
| Pipeline.DedupeEachKept | src/utils/residentScreenshotImport/index.ts:103-148 | the per-file deduplications, concatenated, keep it |
| Pipeline.DedupeEachSnoc | src/utils/residentScreenshotImport/index.ts:105-148 | each file appends the deduplication of its own candidates |
| Pipeline.DedupeEachSize | src/utils/residentScreenshotImport/index.ts:103-148 | the per-file deduplications hold no more records than the files' candidates |
| Pipeline.DedupeEachKeys | src/utils/residentScreenshotImport/index.ts:103-148 | and exactly their group keys |
| Pipeline.ExtractResidentsSpec | src/utils/residentScreenshotImport/index.ts:18-154 | no files give no candidates; no more results than candidates found; every result carries a file's name; the results have exactly the group keys of the candidates found |
| Pipeline.RecognizedCandidates | src/utils/residentScreenshotImport/index.ts:117-145 | one file's passes: the primary page, plus the alternate and sparse pages when the local engine found fewer than 10 candidates |
| Pipeline.DedupeFiles | src/utils/residentScreenshotImport/index.ts:103-148 | the file loop computes `DedupeEach` over the files' batches |
| Pipeline.ExtractResidentsFromScreenshots | src/utils/residentScreenshotImport/index.ts:18-154 | the method computes `ExtractResidents` |
| Monolith.DedupeKeysValid | src/utils/residentScreenshotImport.ts:249-255 | the single-file group key depends only on the name and dream fields |
| Monolith.BaseKeyIff | src/utils/residentScreenshotImport.ts:253-255 | two candidates share a group exactly when their name keys and dream keys (dream store id first) agree |
| Monolith.CurrentKeyEmpty | src/utils/residentScreenshotImport.ts:243-247 | the current key is empty only without a current store id and without current text that has letters or digits; an "unemployed" text is an ordinary key here, while the modular key treats it as empty |
| Monolith.DedupeSpec | src/utils/residentScreenshotImport.ts:242-343 | no more records than inputs, some exactly when some go in, the same group keys, selected records keep a dream store id, and every record has an input's identity |
| Monolith.UnemployedKeptApart | src/utils/residentScreenshotImport.ts:243-247 | an "unemployed" record and one with a known, different current job in the same group merge in the modular copy and stay apart here |
| Monolith.DedupeCandidates | src/utils/residentScreenshotImport.ts:242-343 | the method computes the single-file `dedupe` |
| Monolith.ModularPatternNeedsBackslash | src/utils/residentScreenshotImport/textUtils.ts:145 | the modular store-name pattern, whose words are joined by a literal backslash and `s+`, matches nowhere in a text without a backslash once the name has two or more words |
| Monolith.SpacedWordsMatch | src/utils/residentScreenshotImport.ts:465 | a two-word store name written with one whitespace character between its words matches the single-file pattern and not the modular one |

## Left out

- OCR engines: the Tesseract worker, the Google Vision client, the outbound fetch of the Netlify function and the progress callbacks are not part of this model. A file reaches `Pipeline` as the pages its recognition passes produced. The Vision response reaches `GoogleVisionOcr` as a value.
- Of the orchestration in `index.ts`, progress reporting, worker set-up and the switching of page-segmentation modes are left out. The loops over files and over recognition passes are modelled (`Pipeline.DedupeFiles`, `Pipeline.ExtractResidentsFromScreenshots`).
- Image preprocessing (canvas, gamma and contrast pixel arithmetic).
- Floating point: bounding-box coordinates are integers; confidences and thresholds are exact reals, so a comparison exactly at a boundary such as the 0.12 or 0.05 gaps may differ from the JavaScript doubles. `Math.round(x)` is `floor(x + 0.5)`.
- JavaScript numbers in the id arithmetic of the application store are exact decimals (`Numbers.Number`): there is no rounding to the nearest double, no overflow to Infinity, and -0 is not told apart from 0. So `Number`, `+ 1` and `String` agree with the engine only on ids whose values a double holds exactly, such as integers below 2^53.
- Case mapping is ASCII only. `\s` and `trim` use JavaScript's full whitespace set; there is no Unicode normalisation.
- `Monolith`: the single-file copy's layout, matcher and extractors are the modular modules. Only its dedupe keys and its store-name pattern (the `monolith` flag of `TextUtils.ExtractResidentName`) are separate, since the rest of the code is the same.
- The sync encoder and decoder around the minified form are not modelled: gzip, base64, JSON text, the plain-JSON legacy path, clipboard, file import and export, and the storage quota. An index outside its table makes `Storage.ExpandUserData` fail where the schema validation would reject the data.
- Storage.StoreIdTableSpec: states the store table's contents and distinctness but not its first-seen order (stores first, then dream jobs); the mission table's order is stated.
- Reactivity, debounced saving and localStorage persistence of the application store: `saveData`, `importData`, `resetData` and the JSON parse and validation failure paths of `loadData`. `AppData.Load` receives already validated data.
- `Date.now()` and `Math.random()` become parameters (`now`, and the id given to `UseResidents.AddResident`).
- The zod schemas: `validateResidentName` is the length and character check it performs, and `validateUserData` is not modelled.
- The catalogue fetches `loadStores` and `loadMissions` of the composables; the catalogues are parameters.
- The store and mission operations of `useStores` and `useMissions` that are the same as the application store's (`addStore`, `getStoreCapacity`, `isStoreFull`, `addMission`, `markMission*`, `removeMission`) are modelled once, in `AppStore`, and their rows cite both files.
