# Nakala core, modelled in Dafny

Nakala is a text-mining toolkit. Its jobs are driven by YAML configurations, and it has
classifiers, sentiment extraction and a set of string and collection utilities. This project
models its core in Dafny and proves what that core promises:

- **Configuration generator** (`YamlValidation`, `YamlConfig`). This is the Python script that
  checks command-line arguments per task and phase and builds the YAML job configuration.
- **Job-flow specifications** (`JobFlowDefinitions`, `JobFlowSpecsValidation`). These check a
  job-flow definition and validate a job-flow specification against it.
- **Sentiment extraction**:
  - `ExtractedRecords` keeps the overlap rule that decides which extracted record wins.
  - `PostProcessing` covers the highlight scan and the quote trimming.
  - `VocabUtils` covers the quote-aware tokenizer.
  - `SynonymRewriting` covers synonym and number-word rewriting.
- **Classification metrics** (`Metrics`): true positives, false positives and false negatives
  per category, then precision, recall, F1, micro totals and per-item accuracy.
- **Finders and features** (`Finder`, `FeatureTables`, `TextUtils`, `Shingles`). These cover
  the phrase index and span search, the feature table, the words around a position, and
  character shingles.
- **Data structures** (`WordTries`, `UnionFinds`, `Histograms`, `StringCountsCollectors`,
  `CollectionUtils`). These are in-place classes over Dafny objects, `seq`, `map` and `array`.
- **String utilities** (`Strings`, `ArrayTokenizers`, `PropertiesLineEditors`).

Java `null` is `Option.None`, and a thrown exception is `Result.Err` (module `Wrappers`).
The Java and Python library behaviour the code relies on is stated once, in `JavaText` and
`JavaCollections`. That covers whitespace classes, `indexOf`, `replace`, `split`, joining,
lexicographic order and integer printing. Classes whose fields the source updates in place
are Dafny classes whose methods state their whole new state. Pure code is functions and
lemmas. HashMap and HashSet iteration order is chosen nondeterministically, so every
contract that depends on it holds for every order.

## Model

| member | source | states |
|---|---|---|
| YamlValidation.MissingErrorsSpec | script/generate_yaml_file.py:135-143 | each absent key of the list gets one "`k` not specified." message, every message names an absent key, and there is none exactly when all keys are present |
| YamlValidation.LengthErrorsSpec | script/generate_yaml_file.py:120-125 | no length message exactly when every constrained key holds a value of the required length; each message names a constrained key |
| YamlValidation.RuleErrorsEmpty | script/generate_yaml_file.py:78-107 | the rule of a (task, phase) pair reports nothing exactly when its required keys are present and its length constraint holds |
| YamlValidation.ValidationPassesIff | script/generate_yaml_file.py:109-118 | validation yields no message exactly when task and phase are known, the required keys are present, the length constraint holds and every key is task, phase, required or optional |
| YamlValidation.LeastExists | script/generate_yaml_file.py:111 | every non-empty set of keys has a least key in Python's string order, which the sorted listing starts from |
| YamlValidation.SortedOfSpec | script/generate_yaml_file.py:111 | sorted() lists every unclaimed key exactly once, in strictly ascending order |
| YamlValidation.RuleKeys | script/generate_yaml_file.py:78-107 | no rule of the table requires or allows "task" or "phase", and the length constraints name only list-valued keys |
| YamlValidation.LaterMessagesStartOtherwise | script/generate_yaml_file.py:78-111 | no rule or unclaimed-key message can be mistaken for the task or phase message |
| YamlValidation.HeadMessagesOnlyAtHead | script/generate_yaml_file.py:66-76 | the task and phase messages occur only at the head of the message list |
| YamlValidation.TaskReported | script/generate_yaml_file.py:66-70 | a missing or unknown task puts "Task unknown or not specified." first and leaves `task` unclaimed; a known task is claimed and never reported |
| YamlValidation.PhaseReported | script/generate_yaml_file.py:72-76 | the phase is reported right after the task message in the same way, and claimed when known |
| YamlValidation.OptionalKeysClaimed | script/generate_yaml_file.py:145-148 | an optional key of the rule is claimed exactly when present, and produces no message |
| YamlValidation.UnknownKeysReported | script/generate_yaml_file.py:109-112 | with no unclaimed key there is no final message; otherwise one message lists exactly the unclaimed keys, ascending |
| YamlValidation.ValidatePresenceOf | script/generate_yaml_file.py:135-143 | the loop appends the reference "not specified." messages in key order, claims the present keys, and returns true exactly when all keys are present |
| YamlValidation.ValidateOptionalParams | script/generate_yaml_file.py:145-148 | claims exactly the present keys of the list |
| YamlValidation.ValidateLengthEquals | script/generate_yaml_file.py:120-125 | true and no message exactly when the key holds a list of the expected length; otherwise one "Length of k must be n." message |
| YamlValidation.ValidateListLengthsEqual | script/generate_yaml_file.py:127-133 | true exactly when both keys are present with equal lengths; otherwise one "Lengths of k1 and k2 are not equal." message |
| YamlValidation.SortedKeys | script/generate_yaml_file.py:111 | the loop produces Python's sorted() of the unclaimed keys |
| YamlValidation.CheckRule | script/generate_yaml_file.py:78-107 | the branch of a (task, phase) pair appends its missing-key messages then its constraint messages, and claims the present required and optional keys |
| YamlValidation.CheckTaskAndPhase | script/generate_yaml_file.py:63-76 | the head of `_validate` resolves task and phase and produces the head messages and claims |
| YamlValidation.CheckUnknownKeys | script/generate_yaml_file.py:109-112 | the key-count comparison appends the unclaimed-keys message exactly when some key is unclaimed |
| YamlValidation.CheckParameters | script/generate_yaml_file.py:62-112 | `_validate` produces exactly the reference message list, in order, and the reference set of claimed keys |
| YamlValidation.LengthConstraintsOfAccepted | script/generate_yaml_file.py:88-107 | accepted parameters have one quiet model for quiet evaluate, one feature file and one stem for svm evaluate, and as many stems as feature files for svm classify |
| YamlConfig.SvmAnalyzersConfig | script/generate_yaml_file.py:217-221 | zip pairs feature files with stems by position and stops at the shorter list |
| YamlConfig.AcceptedHasInputs | script/generate_yaml_file.py:150-167 | every key the builders of the accepted phase read is present with the right shape |
| YamlConfig.ConfigurationSections | script/generate_yaml_file.py:150-172 | the configuration has exactly the sections collection_reader, data_stores and collection_analyzer, holding the reader, the store list and the phase's analyzer |
| YamlConfig.ThreeSections | script/generate_yaml_file.py:157-167 | the three section names are distinct, so each lookup returns its own builder's output |
| YamlConfig.AnalyzerOfPhase | script/generate_yaml_file.py:160-193 | the analyzer is the feature calculator, the learner, the evaluator or the batch classifier of the accepted task and phase |
| YamlConfig.DataStoreChoice | script/generate_yaml_file.py:248-252 | one store, a SerializationStore exactly for quiet learn and a FlatFileStore otherwise, writing to data_store |
| YamlConfig.ReaderChoice | script/generate_yaml_file.py:334-344 | the reader is categorized exactly when label_field is given and carries the label field only then; file, id and text fields are copied |
| YamlConfig.FeatureDefaults | script/generate_yaml_file.py:310-332 | max_feature_size and min_feature_weight fall back to 40000 and 0.01 when absent or falsy; use_absolute_values is false for quiet and true for svm; target_class copied only when given |
| YamlConfig.SvmAnalyzerFiles | script/generate_yaml_file.py:233-265 | the model, labels and range files are the stem with ".model", ".labels", ".range"; the representer reads the paired feature file and is scaled by the range file |
| YamlConfig.SvmLearnerUnscaled | script/generate_yaml_file.py:267-280 | the svm trainer's representer reads the first feature file and has no scaler |
| YamlConfig.SvmClassifyPairs | script/generate_yaml_file.py:195-221 | svm batch classification wraps one text classifier per (feature file, stem) pair, in order, inside a MultiModelClassifier |
| YamlConfig.QuietClassifyModels | script/generate_yaml_file.py:202-215 | quiet batch classification loads every quiet model, in order |
| YamlConfig.QuietEvaluation | script/generate_yaml_file.py:223-231 | quiet evaluation loads the first model, scans thresholds 0.005 to 1.0 by 0.005 and passes no target class |
| YamlConfig.SvmEvaluation | script/generate_yaml_file.py:241-246 | svm evaluation scans thresholds 0.05 to 1.0 by 0.05, uses the first pair, and passes target_class exactly when given |
| YamlConfig.QuietLearnerIndex | script/generate_yaml_file.py:282-300 | quiet learning sets overwrite to true exactly when index_dir is given, and reads the first feature file |
| YamlConfig.YamlFileGenerator.Validate | script/generate_yaml_file.py:62-118 | returns true exactly when the parameters are accepted; on failure the dictionary gains "error" holding the newline-joined messages, otherwise it is unchanged |
| YamlConfig.YamlFileGenerator.GetConfiguration | script/generate_yaml_file.py:150-172 | accepted parameters give the compiled configuration; others give the "Validation failed." exception after the error key is written |
| YamlConfig.TokenizerConfig | script/generate_yaml_file.py:302-303 | a bare RegexpTokenizerStream component: a class name and no parameters |
| YamlConfig.NormalizersConfig | script/generate_yaml_file.py:305-308 | three bare components in order: MarkupRemover, CaseNormalizer, NumberNormalizer |
| YamlConfig.RepresenterConfig | script/generate_yaml_file.py:254-265 | a TfFeatureWeightTextRepresenter component; its parameters are stated by RepresenterParts |
| YamlConfig.RepresenterParts | script/generate_yaml_file.py:254-265 | the representer normalizes by length and reads the feature file with the tokenizer and normalizers; it has a ValueScaler on the range file exactly when the range file is given and non-empty (Python truthiness) |
| YamlConfig.SvmAnalyzerConfig | script/generate_yaml_file.py:233-239 | a LibSvmTextClassifier component; its files are stated by SvmAnalyzerFiles |
| YamlConfig.QuietModelConfig | script/generate_yaml_file.py:213-215 | a HummingBirdModelLoader reading the given model file |
| YamlConfig.QuietModelsConfig | script/generate_yaml_file.py:210-211 | one model loader per quiet model, in order, each reading its own model file |
| YamlConfig.QuietEvaluationConfig | script/generate_yaml_file.py:223-231 | a ClassifierEvaluator component; thresholds and model are stated by QuietEvaluation |
| YamlConfig.SvmEvaluationConfig | script/generate_yaml_file.py:241-246 | a ClassifierEvaluator component; thresholds, target class and analyzer are stated by SvmEvaluation |
| YamlConfig.BatchClassifierConfigSvm | script/generate_yaml_file.py:195-200 | a ClassifierCollectionAnalyzer wrapping a MultiModelClassifier, which carries number_of_threads exactly when given |
| YamlConfig.BatchClassifierConfigQuiet | script/generate_yaml_file.py:202-208 | a QuietCollectionAnalyzer carrying number_of_threads exactly when given; its models are stated by QuietClassifyModels |
| YamlConfig.DataStoresConfig | script/generate_yaml_file.py:248-252 | a list of exactly one store; its class and file are stated by DataStoreChoice |
| YamlConfig.SvmLearnerConfig | script/generate_yaml_file.py:267-280 | a LibSvmTrainer that searches for the best parameters and carries target_class, number_of_threads and sample exactly when given |
| YamlConfig.QuietLearnerConfig | script/generate_yaml_file.py:282-300 | a QueryExtractorCollectionAnalyzer with no negative queries, batch size 10000, minimum precision 0.95 and minimum 5 true positives, carrying target_class, number_of_threads and sample exactly when given |
| YamlConfig.FeatureConfig | script/generate_yaml_file.py:310-332 | a BnsWeightCalculator with the tokenizer, the normalizers and min_df 3; its defaults are stated by FeatureDefaults |
| YamlConfig.CollectionReaderConfig | script/generate_yaml_file.py:334-344 | the reader splits at the two-character separator backslash-t; its class and fields are stated by ReaderChoice |
| YamlConfig.LearnerConfig | script/generate_yaml_file.py:174-179 | the quiet task gets the QueryExtractorCollectionAnalyzer, the svm task the LibSvmTrainer |
| YamlConfig.EvaluateConfig | script/generate_yaml_file.py:181-186 | either task gets a ClassifierEvaluator |
| YamlConfig.BatchClassifierConfig | script/generate_yaml_file.py:188-193 | the quiet task gets the QuietCollectionAnalyzer, the svm task the ClassifierCollectionAnalyzer |
| YamlConfig.AnalyzerConfig | script/generate_yaml_file.py:160-167 | the analyzer's class is the one of the phase and task: BnsWeightCalculator for feature, the learner, the evaluator, or the batch classifier |
| YamlConfig.Configuration | script/generate_yaml_file.py:150-172 | the configuration is a map with exactly the collection_reader, data_stores and collection_analyzer sections |
| YamlConfig.YamlFileGenerator.constructor | script/generate_yaml_file.py:60 | a new generator holds an empty parameter dictionary; the source sets it only in getConfiguration |
| ExtractedRecords.JudgeMeaning | src/main/java/com/groupon/nakala/sentiment/ExtractedRecordCollector.java:77-101 | a record of another description, type or domain is unrelated; a covering span replaces; a negative record that starts before and overlaps a positive one replaces; a coexisting span is disjoint; a rejected one overlaps without covering |
| ExtractedRecords.ExtractedRecordCollector.constructor | src/main/java/com/groupon/nakala/sentiment/ExtractedRecordCollector.java:56-61 | a new collector holds no records |
| ExtractedRecords.ExtractedRecordCollector.Add | src/main/java/com/groupon/nakala/sentiment/ExtractedRecordCollector.java:68-116 | with no replacing or rejecting record the new one is put under its key; a false result leaves the map unchanged and some record rejected it; otherwise exactly one replaced record is removed before the put |
| ExtractedRecords.ExtractedRecordCollector.OverrideByTitleSentiment | src/main/java/com/groupon/nakala/sentiment/ExtractedRecordCollector.java:178-235 | the map afterwards is the fold of the per-key steps over the keys in the iteration order taken; exactly the content records remain, each rescored at most by negation or to -1, and records with no title or override sibling are unchanged |
| ExtractedRecords.ExtractedRecordCollector.ConsumeAt | src/main/java/com/groupon/nakala/sentiment/ExtractedRecordCollector.java:188-233 | one outer step: an override record still present sets its siblings to -1, a title record negates its opposite-sign siblings of its domain, and either is then removed; a content record leaves the map alone |
| ExtractedRecords.ExtractedRecordCollector.OverrideAll | src/main/java/com/groupon/nakala/sentiment/ExtractedRecordCollector.java:194-208 | every other record of the override record's description gets score -1 and the overridden flag; every other record, the override record included, is unchanged; no key is added or removed |
| ExtractedRecords.ExtractedRecordCollector.FlipByTitle | src/main/java/com/groupon/nakala/sentiment/ExtractedRecordCollector.java:209-232 | every other record of the title's description and domain whose score has the opposite sign is negated and flagged; all other records are unchanged; no key is added or removed |
| ExtractedRecords.ConsumeStepAt | src/main/java/com/groupon/nakala/sentiment/ExtractedRecordCollector.java:188-233 | seen from another record, one outer step keeps it and applies the override or flip of the visited key to it, or nothing for a content key |
| ExtractedRecords.ConsumedShape | src/main/java/com/groupon/nakala/sentiment/ExtractedRecordCollector.java:182-235 | after visiting any distinct keys exactly the content records and the unvisited ones remain, each with all fields but score and flag unchanged |
| ExtractedRecords.OverrideWins | src/main/java/com/groupon/nakala/sentiment/ExtractedRecordCollector.java:194-208 | in every visiting order, a content record whose description has an override record and no title record ends with score -1 and the flag set |
| ExtractedRecords.OverridePrefix | src/main/java/com/groupon/nakala/sentiment/ExtractedRecordCollector.java:188-208 | along any prefix of the visit the record is unchanged or already at -1, and at -1 once the override record is visited |
| ExtractedRecords.TitleFlips | src/main/java/com/groupon/nakala/sentiment/ExtractedRecordCollector.java:209-232 | in every visiting order, a content record whose only non-content sibling is a title of the same domain with opposite sign ends with its score negated and the flag set |
| ExtractedRecords.TitlePrefix | src/main/java/com/groupon/nakala/sentiment/ExtractedRecordCollector.java:188-232 | before the title is visited both records are untouched; afterwards the content score is negated |
| ExtractedRecords.OverrideKeeps | src/main/java/com/groupon/nakala/sentiment/ExtractedRecordCollector.java:194-208 | an override step keeps records within their original keys and rescorings, and leaves records with no title or override sibling alone |
| ExtractedRecords.FlipKeeps | src/main/java/com/groupon/nakala/sentiment/ExtractedRecordCollector.java:209-232 | a title step keeps records within their original keys and rescorings, and leaves records with no title or override sibling alone |
| ExtractedRecords.OverrideVisit | src/main/java/com/groupon/nakala/sentiment/ExtractedRecordCollector.java:194-208 | when the override loop reaches a key its record is still the original, and the loop rewrites it exactly when it is a target |
| ExtractedRecords.FlipVisit | src/main/java/com/groupon/nakala/sentiment/ExtractedRecordCollector.java:209-232 | when the title loop reaches a key its record is still the original, and the loop flips it exactly when it is a target |
| Metrics.OutcomesPartition | src/main/java/com/groupon/ml/ClassificationMetrics.java:68-88 | an item is in at most one of TP, FP, FN for a category; a true category is TP or FN; a category is predicted (score at or above the threshold) exactly when it is TP or FP |
| Metrics.ItemAccuracyRange | src/main/java/com/groupon/ml/ClassificationMetrics.java:94-102 | the size of true ∩ predicted over the size of true ∪ predicted lies in [0, 1] and is 1 exactly for a non-empty exact prediction; an empty union gives 0 |
| Metrics.RatesInRange | src/main/java/com/groupon/ml/ClassificationMetrics.java:128-136 | precision and recall lie in [0, 1], are 0 when their denominator is 0, and are 1 exactly when tp > 0 and there is no error of their kind |
| Metrics.F1InRange | src/main/java/com/groupon/ml/ClassificationMetrics.java:138-141 | F1 lies in [0, 1], is 0 when either rate is 0 (including a zero denominator) and 1 when both are 1 |
| Metrics.MeanInRange | src/main/java/com/groupon/ml/ClassificationMetrics.java:143-167 | the macro averages and the average accuracy (0 for no values) of values in [0, 1] lie in [0, 1] |
| Metrics.MicroTotalIsPairCount | src/main/java/com/groupon/ml/ClassificationMetrics.java:169-188 | summing a column over the categories equals counting, item by item, the (item, category) pairs in that column |
| Metrics.IndexOf | src/main/java/com/groupon/ml/ClassificationMetrics.java:112-114 | List.indexOf: -1 exactly for an absent category, otherwise the first position holding it |
| Metrics.AccuracyMeanInRange | src/main/java/com/groupon/ml/ClassificationMetrics.java:164-167 | the mean of the per-item accuracies lies in [0, 1] |
| Metrics.Tally | src/main/java/com/groupon/ml/ClassificationMetrics.java:75-89 | after item n each category's TP, FP and FN cells count the first n+1 items |
| Metrics.ClassificationMetrics.constructor | src/main/java/com/groupon/ml/ClassificationMetrics.java:55-92 | every TP, FP and FN cell counts the items in that column for the category, and the accuracy list holds each item's accuracy in order |
| Metrics.ClassificationMetrics.Get | src/main/java/com/groupon/ml/ClassificationMetrics.java:116-126 | getTp, getFp and getFn of a category are its counts over the items |
| Metrics.ClassificationMetrics.MeasureOf | src/main/java/com/groupon/ml/ClassificationMetrics.java:128-141 | getP, getR and getF1 lie in [0, 1] |
| Metrics.ClassificationMetrics.MacroAvg | src/main/java/com/groupon/ml/ClassificationMetrics.java:143-162 | the macro averages are the means of the per-category measures (0 with no category) and lie in [0, 1] |
| Metrics.ClassificationMetrics.Total | src/main/java/com/groupon/ml/ClassificationMetrics.java:169-188 | the micro totals are the sums of the per-category counts, i.e. the numbers of (item, category) pairs in the column |
| Metrics.ClassificationMetrics.MicroAvg | src/main/java/com/groupon/ml/ClassificationMetrics.java:190-203 | the micro P, R and F1 are the rates of the micro totals and lie in [0, 1] |
| Metrics.ClassificationMetrics.AvgAccuracy | src/main/java/com/groupon/ml/ClassificationMetrics.java:164-167 | the average accuracy lies in [0, 1] |
| Metrics.TestExample | src/test/java/com/groupon/ml/ClassificationMetricsTest.java:97-117 | on the unit test's three items at threshold 0.5, hotel has TP=1, FP=1, FN=0 and golf_course TP=0, FN=1, with P=0.5, R=1, F1=2/3 |
| Shingles.ShinglesFrom | src/main/java/com/groupon/nakala/core/ShinglesTokenizerStream.java:65-72 | the shingles left from cursor i are max(0, len-k+1-i) windows, the j-th being text[i+j, i+j+k) |
| Shingles.ShinglesOf | src/main/java/com/groupon/nakala/core/ShinglesTokenizerStream.java:86-94 | a text has max(0, len-k+1) shingles, each of length k, the i-th being text[i, i+k) |
| Shingles.NormalizeAppend | src/main/java/com/groupon/nakala/core/ShinglesTokenizerStream.java:102-106 | normalizing with a chain is normalizing with its first part and then with the rest, i.e. normalizers apply in list order |
| Shingles.TestShingles | src/test/java/com/groupon/nakala/core/ShinglesTokenizerStreamTest.java:46-57 | the 4-grams of "this is a test" are the eleven windows the unit test lists |
| Shingles.ShinglesTokenizerStream.constructor | src/main/java/com/groupon/nakala/core/ShinglesTokenizerStream.java:46-48 | the default shingle size is 4 |
| Shingles.ShinglesTokenizerStream.SetShingleSize | src/main/java/com/groupon/nakala/core/ShinglesTokenizerStream.java:50-52 | only the size changes: text and cursor stay, so the shingles left are those of the new size from the same cursor |
| Shingles.ShinglesTokenizerStream.SetText | src/main/java/com/groupon/nakala/core/ShinglesTokenizerStream.java:59-62 | the cursor returns to 0, so every shingle of the new text remains to be read |
| Shingles.ShinglesTokenizerStream.Next | src/main/java/com/groupon/nakala/core/ShinglesTokenizerStream.java:65-72 | while index ≤ len-k returns text[index, index+k) and advances by one; otherwise returns null and stays |
| Shingles.ShinglesTokenizerStream.GetTokens | src/main/java/com/groupon/nakala/core/ShinglesTokenizerStream.java:86-94 | the list of all shingles of s, in order |
| Shingles.ShinglesTokenizerStream.GetUniqueTokens | src/main/java/com/groupon/nakala/core/ShinglesTokenizerStream.java:75-83 | the set of the shingles getTokens lists |
| Shingles.ShinglesTokenizerStream.GetTokensNormalized | src/main/java/com/groupon/nakala/core/ShinglesTokenizerStream.java:112-126 | one token per shingle, in order, each passed through the normalizers in list order |
| Shingles.ShinglesTokenizerStream.GetUniqueTokensNormalized | src/main/java/com/groupon/nakala/core/ShinglesTokenizerStream.java:96-110 | the set of the normalized shingles |
| Shingles.NormalizedSetIs | src/main/java/com/groupon/nakala/core/ShinglesTokenizerStream.java:99-109 | the set the loop accumulates is the image of the shingle list under the normalizer chain |
| Shingles.ApplyNormalizers | src/main/java/com/groupon/nakala/core/ShinglesTokenizerStream.java:102-106 | the inner loop applies the normalizers in list order |
| Shingles.NormalizedSetSnoc | src/main/java/com/groupon/nakala/core/ShinglesTokenizerStream.java:99-109 | one more shingle read adds exactly its normalized form to the set |
| WordTries.AddThenMatch | src/main/java/com/groupon/util/collections/WordTrie.java:54-72 | after add(ws, v), match(ws) finds a node and it holds v |
| WordTries.AddKeepsOtherValues | src/main/java/com/groupon/util/collections/WordTrie.java:54-64 | add sets only the final node's value: every other word sequence keeps the value it had |
| WordTries.EmptyHasNoValues | src/main/java/com/groupon/util/collections/WordTrie.java:50-52 | a fresh node holds no value on any path |
| WordTries.AddCreatesOnlyThePath | src/main/java/com/groupon/util/collections/WordTrie.java:59-63 | after add a path exists exactly when it existed before or is a prefix of the added words: only missing children are created |
| WordTries.EmptyMatchesOnlyEmpty | src/main/java/com/groupon/util/collections/WordTrie.java:66-72 | on a fresh node only the empty word sequence matches |
| WordTries.MatchStep | src/main/java/com/groupon/util/collections/WordTrie.java:66-72 | matching ws+[w] is matching ws and then taking the child for w, failing as soon as one word has no child |
| WordTries.Node.constructor | src/main/java/com/groupon/util/collections/WordTrie.java:50-52 | a new node has no value and no children |
| WordTries.Node.Add | src/main/java/com/groupon/util/collections/WordTrie.java:54-64 | the node's subtree becomes the reference trie with words[i..] added |
| WordTries.Node.GrowKid | src/main/java/com/groupon/util/collections/WordTrie.java:63 | the recursive call replaces only the child for the word by its grown subtree |
| WordTries.Node.SetValue | src/main/java/com/groupon/util/collections/WordTrie.java:55-57 | at the end of the words the node's value is set and nothing else changes |
| WordTries.Node.Adopt | src/main/java/com/groupon/util/collections/WordTrie.java:59-63 | re-establishes the node's invariant once a child has changed |
| WordTries.Node.KidFor | src/main/java/com/groupon/util/collections/WordTrie.java:59-62 | returns the existing child for the word, or puts and returns a new empty one |
| WordTries.Node.Match | src/main/java/com/groupon/util/collections/WordTrie.java:66-73 | returns null exactly when some word on the path has no child, otherwise the node the words lead to; an empty sequence returns the node itself |
| WordTries.WordTrie.constructor | src/main/java/com/groupon/util/collections/WordTrie.java:48 | a new trie is one empty root |
| WordTries.WordTrie.Add | src/main/java/com/groupon/util/collections/WordTrie.java:96-98 | the root's trie becomes the reference trie with the words added |
| WordTries.WordTrie.Match | src/main/java/com/groupon/util/collections/WordTrie.java:104-106 | null exactly when the words do not lead to a node from the root, otherwise that node |
| UnionFinds.UnionFind.constructor | src/main/java/com/groupon/util/collections/UnionFind.java:53-57 | a new node holds its object, is its own parent and root, at depth 0, with no children |
| UnionFinds.UnionFind.Find | src/main/java/com/groupon/util/collections/UnionFind.java:71-75 | returns this node's root, which is its own parent, and re-points this node to it; no node changes root or depth, so the forest and its sets are unchanged |
| UnionFinds.UnionFind.Repoint | src/main/java/com/groupon/util/collections/UnionFind.java:74 | the compression step moves only this node under the root and keeps the forest invariant |
| UnionFinds.UnionFind.Union | src/main/java/com/groupon/util/collections/UnionFind.java:77-86 | union(x, x) returns x and changes nothing; otherwise the shallower root goes under the deeper and is returned as root, on a tie `with` goes under this and this.depth grows by one; the two sets merge and every other set is untouched |
| UnionFinds.UnionFind.SetParent | src/main/java/com/groupon/util/collections/UnionFind.java:88-95 | the node leaves its old parent's children (unless it was its own parent), joins the new parent's, and returns the new parent |
| Strings.Truncate | src/main/java/com/groupon/util/Strings.java:247-253 | null and strings of length ≤ n come back unchanged; longer ones become their first n-3 characters plus "..." when n > 3, else their first n characters; a negative n throws |
| Strings.Present | src/main/java/com/groupon/util/Strings.java:80-85 | the non-null arguments, in order, never more than were given |
| Strings.JoinObjects | src/main/java/com/groupon/util/Strings.java:73-87 | no arguments give null; one argument gives its string or "" for null; otherwise the non-null arguments joined by sep |
| Strings.Repeat | src/main/java/com/groupon/util/Strings.java:255-265 | n rounds of the values, every two consecutive items separated by sep |
| Strings.AppendRound | src/main/java/com/groupon/util/Strings.java:259-262 | one inner round appends every value after the pending separator |
| Strings.ContainsAsWritten | src/main/java/com/groupon/util/Strings.java:181-187 | as written: null exactly for no candidates, otherwise always the first candidate, whatever str holds |
| Strings.ContainsSelf | src/main/java/com/groupon/util/Strings.java:183 | every string contains itself, so the test str.indexOf(str) ≥ 0 always succeeds |
| Strings.ContainsOneOf | src/main/java/com/groupon/util/Strings.java:181-187 | corrected: the first candidate that occurs in str, or null when none does |
| Strings.ContainsCounterexample | src/main/java/com/groupon/util/Strings.java:181-187 | contains("abc", "xyz") answers "xyz" although "abc" does not contain it; the corrected search answers null |
| Strings.Decamel | src/main/java/com/groupon/util/Strings.java:141-179 | the words are str cut at exactly its cut positions (before an upper-case letter that follows a non-upper-case one, and after a run of two or more upper-case letters): every word after the first starts at a cut, none holds a cut, they concatenate back to str and none is empty; the empty string is one empty word |
| Strings.PiecesAtCuts | src/main/java/com/groupon/util/Strings.java:144-178 | the reference pieces from any position start at cuts and hold none inside |
| Strings.CutUnfold | src/main/java/com/groupon/util/Strings.java:150-153 | at a cut the current piece ends and a new one starts there |
| Strings.SkipUnfold | src/main/java/com/groupon/util/Strings.java:150-170 | away from a cut the current piece goes on |
| Strings.DecamelStep | src/main/java/com/groupon/util/Strings.java:148-174 | one outer turn keeps the scan state and advances the position |
| Strings.UpperRun | src/main/java/com/groupon/util/Strings.java:155-166 | a run of two or more upper-case letters starting at a cut becomes one word, and the scan state is kept |
| Strings.DecamelExamples | src/main/java/com/groupon/util/Strings.java:141-179 | "aBCd" gives "a", "BC", "d"; "ABc" gives "AB", "c"; "AbC" gives "Ab", "C"; "" gives one empty word |
| Strings.AddPiece | src/main/java/com/groupon/util/Strings.java:153-176 | adding str[s, i) to words that spell str[..s] makes them spell str[..i] |
| Strings.LeadSkip | src/main/java/com/groupon/util/Strings.java:123 | the leading-whitespace loop stops at a non-whitespace character or at the last one |
| Strings.TrailSkip | src/main/java/com/groupon/util/Strings.java:124 | the trailing-whitespace loop stops after a non-whitespace character or at i |
| Strings.StripBounds | src/main/java/com/groupon/util/Strings.java:122-132 | the bounds the outer loop ends with lie inside the starting ones |
| Strings.StripBoundsShape | src/main/java/com/groupon/util/Strings.java:122-132 | a non-empty final range starts and ends with non-whitespace and is not enclosed in a matching pair of quotes |
| Strings.SkipEnds | src/main/java/com/groupon/util/Strings.java:123-124 | after both whitespace loops a non-empty range starts and ends with non-whitespace |
| Strings.StripQuotesOf | src/main/java/com/groupon/util/Strings.java:115-139 | the result is a substring of the input that is empty or has no surrounding whitespace and no enclosing matching quotes |
| Strings.StripQuotesIdempotent | src/main/java/com/groupon/util/Strings.java:115-139 | stripping a stripped string changes nothing |
| Strings.StripQuotesKeeps | src/main/java/com/groupon/util/Strings.java:135-136 | a string without surrounding whitespace or enclosing quotes comes back as it is |
| Strings.StripQuotes | src/main/java/com/groupon/util/Strings.java:115-139 | null gives null; otherwise the loop's result is the reference stripping, "" when everything is stripped |
| Strings.StripRound | src/main/java/com/groupon/util/Strings.java:123-131 | one outer round either stops at the final bounds or removes one pair of quotes, shrinking the range |
| Strings.SkipLeading | src/main/java/com/groupon/util/Strings.java:123 | the loop computes the leading skip |
| Strings.SkipTrailing | src/main/java/com/groupon/util/Strings.java:124 | the loop computes the trailing skip |
| Strings.StripStep | src/main/java/com/groupon/util/Strings.java:122-132 | one round of the outer loop either removes a quote pair and continues or ends with the skipped bounds |
| Strings.RunEnd | src/main/java/com/groupon/util/Strings.java:231-241 | the word loop stops at the first whitespace or the end, past at least one character of a word |
| Strings.RunEndNoSpace | src/main/java/com/groupon/util/Strings.java:231-241 | a run holds no whitespace |
| Strings.WordsShape | src/main/java/com/groupon/util/Strings.java:219-245 | every word splitWS returns is non-empty and holds no whitespace |
| Strings.SpaceHasNoWords | src/main/java/com/groupon/util/Strings.java:224-226 | an all-whitespace string has no words, so splitWS returns an empty array |
| Strings.TrailingSpace | src/main/java/com/groupon/util/Strings.java:229 | trailing whitespace adds no word |
| Strings.RunEndShrinks | src/main/java/com/groupon/util/Strings.java:229-231 | a word ends before trailing whitespace |
| Strings.SplitWS | src/main/java/com/groupon/util/Strings.java:219-245 | null gives null; otherwise the maximal runs of non-whitespace characters, in order |
| Strings.SkipSpace | src/main/java/com/groupon/util/Strings.java:224-239 | the whitespace loop reaches the next word start without changing the words ahead |
| Strings.SkipWord | src/main/java/com/groupon/util/Strings.java:231-241 | the word loop reaches the end of the word |
| Strings.TrimTrailing | src/main/java/com/groupon/util/Strings.java:229 | the end is moved back over trailing whitespace without changing the words |
| Strings.TrailingSpaces | src/main/java/com/groupon/util/Strings.java:229 | a whitespace tail adds no word |
| Strings.QuotedScanFinds | src/main/java/com/groupon/util/Strings.java:42-71 | a found position is an occurrence of m at or after the start |
| Strings.QuotedScanUnquoted | src/main/java/com/groupon/util/Strings.java:42-71 | on text without quotes indexOfQuoted is plain indexOf |
| Strings.QuotedScanExample | src/main/java/com/groupon/util/Strings.java:42-71 | an occurrence inside quotes is passed over: in "'a' a" the answer is 4 where indexOf gives 1 |
| Strings.IndexOfQuoted | src/main/java/com/groupon/util/Strings.java:42-71 | the loop with its quote stack returns the reference scan's answer: the first unquoted occurrence, or -1 |
| Strings.MatchesAt | src/main/java/com/groupon/util/Strings.java:61-66 | the comparison loop is true exactly when m occurs at i |
| Strings.StripBoundsStep | src/main/java/com/groupon/util/Strings.java:122-132 | when the trimmed range is enclosed in a matching pair of quotes, the loop goes on with the range inside them |
| Strings.StripBoundsStops | src/main/java/com/groupon/util/Strings.java:122-132 | when no matching pair of quotes encloses the trimmed range, the loop ends on it, and a non-empty end range has the stripped shape |
| Strings.CutThenWords | src/main/java/com/groupon/util/Strings.java:144-178 | a word ending at a cut followed by words laid out from that cut again starts each word at a cut and holds none inside |
| Strings.WordAfterCut | src/main/java/com/groupon/util/Strings.java:144-178 | in that layout the first word lies at the start with no cut inside, and each later word begins at a cut with no cut inside |
| ArrayTokenizers.SegmentEnd | src/main/java/com/groupon/util/ArrayTokenizer.java:72-74 | the end of the segment at start lies between start and the end of the string |
| ArrayTokenizers.SegmentEndIsNextSeparator | src/main/java/com/groupon/util/ArrayTokenizer.java:72-74 | a segment ends at the next occurrence of the separator, or at the end of the string, and holds no separator start |
| ArrayTokenizers.SegmentEndByIndexOf | src/main/java/com/groupon/util/ArrayTokenizer.java:72-74 | the segment end is indexOf(sep, start), or the length when indexOf gives -1 |
| ArrayTokenizers.TrimmedIf | src/main/java/com/groupon/util/ArrayTokenizer.java:109-110 | one output per token, trimmed exactly when trimming is on |
| ArrayTokenizers.TrimmedIfStep | src/main/java/com/groupon/util/ArrayTokenizer.java:89-91 | taking one token off the front moves its (trimmed) form onto the output list |
| ArrayTokenizers.IsBlankBetween | src/main/java/com/groupon/util/ArrayTokenizer.java:75-78 | the inner loop finds a non-whitespace character exactly when the segment is not blank |
| ArrayTokenizers.BlankSegment | src/main/java/com/groupon/util/ArrayTokenizer.java:69-81 | a whitespace-only segment contributes no token |
| ArrayTokenizers.TokensShape | src/main/java/com/groupon/util/ArrayTokenizer.java:69-81 | every token is non-empty, not whitespace-only, and holds no separator |
| ArrayTokenizers.SliceOccurrences | src/main/java/com/groupon/util/ArrayTokenizer.java:72 | an occurrence of the separator inside a segment is one in the string |
| ArrayTokenizers.SingleToken | src/main/java/com/groupon/util/ArrayTokenizer.java:69-81 | a non-blank string without the separator is one token |
| ArrayTokenizers.TokensExample | src/main/java/com/groupon/util/ArrayTokenizer.java:69-81 | the text "a", a blank, "b", each followed by a vertical-bar separator, gives exactly ["a", "b"]: the blank segment and the trailing separator give no token |
| ArrayTokenizers.NonBlankSegment | src/main/java/com/groupon/util/ArrayTokenizer.java:101-108 | a non-blank segment is the next token and the rest follow it |
| ArrayTokenizers.SkipBlank | src/main/java/com/groupon/util/ArrayTokenizer.java:70-80 | the advance loop stops at the next non-blank segment, or past the end, without losing a token |
| ArrayTokenizers.ScanSegment | src/main/java/com/groupon/util/ArrayTokenizer.java:72-79 | one round finds the segment end and whether it is blank |
| ArrayTokenizers.ArrayTokenizer.WithDefaultSeparator | src/main/java/com/groupon/util/ArrayTokenizer.java:49-51 | the default separator is hash, two vertical bars, hash and the tokens of s remain to be read |
| ArrayTokenizers.ArrayTokenizer.constructor | src/main/java/com/groupon/util/ArrayTokenizer.java:53-59 | the tokens of s under the separator remain to be read; for a null string none |
| ArrayTokenizers.ArrayTokenizer.SetTrim | src/main/java/com/groupon/util/ArrayTokenizer.java:61-63 | sets only the trim flag |
| ArrayTokenizers.ArrayTokenizer.Advance | src/main/java/com/groupon/util/ArrayTokenizer.java:69-81 | the remaining tokens become those after the current separator |
| ArrayTokenizers.ArrayTokenizer.HasNext | src/main/java/com/groupon/util/ArrayTokenizer.java:95-98 | true exactly when a token remains; false for a null string |
| ArrayTokenizers.ArrayTokenizer.Next | src/main/java/com/groupon/util/ArrayTokenizer.java:100-112 | returns the first remaining token, trimmed when trimming is on, and drops it from the remaining ones |
| ArrayTokenizers.ArrayTokenizer.ToArray | src/main/java/com/groupon/util/ArrayTokenizer.java:83-93 | null for a null string; otherwise every token in order, trimmed when trimming is on |
| ArrayTokenizers.ArrayTokenizer.Size | src/main/java/com/groupon/util/ArrayTokenizer.java:119-124 | the number of tokens, which is the length of what toArray returns (0 for a null string) |
| PropertiesLineEditors.FirstAt | src/main/java/com/groupon/util/io/PropertiesLineEditor.java:65 | the position of the first '@', before which there is none |
| PropertiesLineEditors.AtCountAppend | src/main/java/com/groupon/util/io/PropertiesLineEditor.java:77 | the '@' count of a concatenation is the sum of the counts |
| PropertiesLineEditors.AtFreeCount | src/main/java/com/groupon/util/io/PropertiesLineEditor.java:61-63 | a line holds no '@' exactly when its '@' count is zero |
| PropertiesLineEditors.IndexOfCharIsFirstAt | src/main/java/com/groupon/util/io/PropertiesLineEditor.java:61-78 | indexOf("@", from) is -1 on an '@'-free rest and otherwise the first '@' at or after from |
| PropertiesLineEditors.ExpandAfterPrefix | src/main/java/com/groupon/util/io/PropertiesLineEditor.java:77 | an '@'-free head passes through the replacement untouched |
| PropertiesLineEditors.ExpandPlainHead | src/main/java/com/groupon/util/io/PropertiesLineEditor.java:77 | a first character other than '@' is copied |
| PropertiesLineEditors.AtFreeTail | src/main/java/com/groupon/util/io/PropertiesLineEditor.java:61-63 | the tail of an '@'-free line is '@'-free |
| PropertiesLineEditors.ConsAssoc | src/main/java/com/groupon/util/io/PropertiesLineEditor.java:77 | splitting off the first character and concatenating gives the same line |
| PropertiesLineEditors.ExpandAtPair | src/main/java/com/groupon/util/io/PropertiesLineEditor.java:65-77 | an '@' with a partner: the name between them is replaced and the rest expanded |
| PropertiesLineEditors.SliceFacts | src/main/java/com/groupon/util/io/PropertiesLineEditor.java:68-77 | the substrings the loop cuts fit back together |
| PropertiesLineEditors.PairPositions | src/main/java/com/groupon/util/io/PropertiesLineEditor.java:61-68 | the scan's off and end are the first two '@' of the line, with no '@' before off or between them |
| PropertiesLineEditors.ExpandFromOff | src/main/java/com/groupon/util/io/PropertiesLineEditor.java:65-77 | from the first '@', the name up to its partner is replaced and the rest expanded |
| PropertiesLineEditors.ExpandAfterSplit | src/main/java/com/groupon/util/io/PropertiesLineEditor.java:77 | the '@'-free head before off is kept |
| PropertiesLineEditors.ExpandFirstPair | src/main/java/com/groupon/util/io/PropertiesLineEditor.java:77 | the expansion is head + replacement of the first name + expansion of the rest |
| PropertiesLineEditors.ExpandStep | src/main/java/com/groupon/util/io/PropertiesLineEditor.java:64-77 | one loop round cuts the line at its first pair and agrees with the left-to-right expansion |
| PropertiesLineEditors.ExpandNoPair | src/main/java/com/groupon/util/io/PropertiesLineEditor.java:62-67 | when no pair is found the expansion leaves the line as it is |
| PropertiesLineEditors.EditRound | src/main/java/com/groupon/util/io/PropertiesLineEditor.java:64-78 | with '@'-free values, one round keeps the final expansion and removes two '@', so the loop ends |
| PropertiesLineEditors.ReplacementAtFree | src/main/java/com/groupon/util/io/PropertiesLineEditor.java:69-75 | a value, the empty string, or a marked unknown name holds no '@' |
| PropertiesLineEditors.AtFreeConcat | src/main/java/com/groupon/util/io/PropertiesLineEditor.java:77 | two '@'-free strings concatenate to an '@'-free one |
| PropertiesLineEditors.AtCountPair | src/main/java/com/groupon/util/io/PropertiesLineEditor.java:68-77 | the '@' count around a pair is the counts of the three pieces plus two |
| PropertiesLineEditors.ExpandLeavesAtMostOneAt | src/main/java/com/groupon/util/io/PropertiesLineEditor.java:64-79 | with '@'-free values at most one (unpaired) '@' is left before the markers are restored |
| PropertiesLineEditors.LoneAtKept | src/main/java/com/groupon/util/io/PropertiesLineEditor.java:65-67 | a line with a single '@' is left as it is |
| PropertiesLineEditors.KnownTokenReplaced | src/main/java/com/groupon/util/io/PropertiesLineEditor.java:69-72 | "@k@" for a known key becomes its value, or nothing when the value is null |
| PropertiesLineEditors.ReplaceWithoutQuote | src/main/java/com/groupon/util/io/PropertiesLineEditor.java:80 | restoring markers leaves a quote-free string alone |
| PropertiesLineEditors.ReplaceTail | src/main/java/com/groupon/util/io/PropertiesLineEditor.java:80 | a marker after a quote-free string becomes '@' |
| PropertiesLineEditors.UnknownTokenKept | src/main/java/com/groupon/util/io/PropertiesLineEditor.java:73-80 | an unknown "@tok@" comes out verbatim |
| PropertiesLineEditors.PropertiesLineEditor.constructor | src/main/java/com/groupon/util/io/PropertiesLineEditor.java:49-51 | the editor holds the given properties |
| PropertiesLineEditors.PropertiesLineEditor.Edit | src/main/java/com/groupon/util/io/PropertiesLineEditor.java:57-81 | null stays null, an '@'-free line is returned as it is, otherwise the result is the left-to-right expansion with markers turned back into '@' |
| Finder.LineEnd | src/main/java/com/groupon/nakala/core/GeneralFinder.java:79-85 | the match of ".*" ends at the first line terminator after the start, or at the end of the line |
| Finder.StripComment | src/main/java/com/groupon/nakala/core/GeneralFinder.java:79-85 | the first "#" and what follows it up to a line terminator are removed; a line without "#" is kept |
| Finder.FirstKey | src/main/java/com/groupon/nakala/core/GeneralFinder.java:90-104 | the first token that is non-empty, not a stop word and not made only of digits and non-word characters, or none exactly when no token qualifies |
| Finder.AddLineHolds | src/main/java/com/groupon/nakala/core/GeneralFinder.java:81-104 | one line files its cleaned text under its key, and nothing else changes |
| Finder.IndexLinesHolds | src/main/java/com/groupon/nakala/core/GeneralFinder.java:81-106 | a phrase stands under a word exactly when it stood there before, or some line cleans to it and the word is its key |
| Finder.IndexLinesNoEmpty | src/main/java/com/groupon/nakala/core/GeneralFinder.java:86-88 | the index never files an empty phrase |
| Finder.FinderIndex.constructor | src/main/java/com/groupon/nakala/core/GeneralFinder.java:54-59 | a new index is empty |
| Finder.FirstKeyFrom | src/main/java/com/groupon/nakala/core/GeneralFinder.java:90-95 | the key search skips a token that cannot serve and stops at one that can |
| Finder.FirstKeyToken | src/main/java/com/groupon/nakala/core/GeneralFinder.java:90-104 | the token loop picks exactly the first key token |
| Finder.MakeIndex | src/main/java/com/groupon/nakala/core/GeneralFinder.java:67-107 | the index after makeIndex is the old index with every line of the reader added in order |
| Finder.AddPhraseLine | src/main/java/com/groupon/nakala/core/GeneralFinder.java:82-104 | one line: comment removed, trimmed, skipped when empty, filed under its key |
| Finder.FileUnderKey | src/main/java/com/groupon/nakala/core/GeneralFinder.java:96-102 | the phrase joins the set under its key, a new set being made when the key is new; no key, no change |
| Finder.IsFound | src/main/java/com/groupon/nakala/core/GeneralFinder.java:109-125 | false for a null or empty text; otherwise true exactly when the lower-cased trimmed text is filed under one of its own tokens |
| Finder.FiledUnderToken | src/main/java/com/groupon/nakala/core/GeneralFinder.java:115-124 | true exactly when some token has the text filed under it |
| Finder.FindableIffLine | src/main/java/com/groupon/nakala/core/GeneralFinder.java:67-125 | over an index built from a phrase file, a query is found exactly when some line cleans to it and that line has a key |
| Finder.InsertCovers | src/main/java/com/groupon/nakala/core/GeneralFinder.java:150-169 | offering a span covers it, keeps every old span covered, and adds no span but the new one |
| Finder.ScanOccurs | src/main/java/com/groupon/nakala/core/GeneralFinder.java:144-170 | every position the indexOf loop visits is an occurrence of the phrase |
| Finder.CoverTransitive | src/main/java/com/groupon/nakala/core/GeneralFinder.java:152 | containment of spans is transitive |
| Finder.InsertAtRefines | src/main/java/com/groupon/nakala/core/GeneralFinder.java:145-171 | offering several occurrences keeps every old span covered |
| Finder.InsertAtCovers | src/main/java/com/groupon/nakala/core/GeneralFinder.java:145-171 | each offered occurrence ends up inside a span |
| Finder.InsertAtOnly | src/main/java/com/groupon/nakala/core/GeneralFinder.java:145-171 | the only spans brought in are the offered occurrences |
| Finder.InsertSkip | src/main/java/com/groupon/nakala/core/GeneralFinder.java:150-161 | a span that neither contains nor lies inside the new one is passed over |
| Finder.InsertStop | src/main/java/com/groupon/nakala/core/GeneralFinder.java:152-155 | a span containing the new one leaves the list as it is |
| Finder.InsertReplace | src/main/java/com/groupon/nakala/core/GeneralFinder.java:156-165 | the first span inside the new one is replaced by it |
| Finder.AddSpan | src/main/java/com/groupon/nakala/core/GeneralFinder.java:146-169 | the span loop gives exactly the offered-span list: kept, replaced at the first contained span, or appended |
| Finder.ScanHits | src/main/java/com/groupon/nakala/core/GeneralFinder.java:144-170 | the visits from a position are those from the next occurrence on |
| Finder.InsertAtCons | src/main/java/com/groupon/nakala/core/GeneralFinder.java:145-171 | the first occurrence is offered before the rest |
| Finder.ScanPhrase | src/main/java/com/groupon/nakala/core/GeneralFinder.java:144-171 | the indexOf loop offers every non-overlapping occurrence of the phrase, left to right |
| Finder.DistinctSnoc | src/main/java/com/groupon/nakala/core/GeneralFinder.java:137-139 | the set of seen words grows by the current token |
| Finder.CompleteRefined | src/main/java/com/groupon/nakala/core/GeneralFinder.java:150-169 | once covered, an occurrence stays covered |
| Finder.ScanPhrases | src/main/java/com/groupon/nakala/core/GeneralFinder.java:143-172 | after the phrases under one word, each span is an occurrence of a filed phrase and each visited occurrence of those phrases is covered |
| Finder.ScanPhraseSound | src/main/java/com/groupon/nakala/core/GeneralFinder.java:144-171 | one phrase's scan brings in only occurrences of that phrase |
| Finder.ScanPhraseCovers | src/main/java/com/groupon/nakala/core/GeneralFinder.java:144-171 | one phrase's scan keeps the old coverage and covers its own occurrences |
| Finder.FindSpans | src/main/java/com/groupon/nakala/core/GeneralFinder.java:127-175 | nothing for a null or empty text; every span is an occurrence, in the lower-cased text, of a phrase filed under one of its tokens; every visited occurrence of such a phrase lies inside a span |
| Finder.SpansOverTokens | src/main/java/com/groupon/nakala/core/GeneralFinder.java:136-173 | the token loop, each distinct token once, keeps both the soundness and the coverage of the spans |
| Finder.ScanToken | src/main/java/com/groupon/nakala/core/GeneralFinder.java:137-172 | a token not in the index adds nothing; otherwise its phrases are searched |
| Finder.GetExtractions | src/main/java/com/groupon/nakala/core/GeneralFinder.java:177-182 | the set of original-case texts at the spans; each lower-cases to a phrase filed under a token of the text; empty for a null or empty text |
| Finder.LowerSlice | src/main/java/com/groupon/nakala/core/GeneralFinder.java:134-180 | lower-casing commutes with taking a substring, so the original-case extraction matches the phrase |
| Histograms.BeforeTotal | src/main/java/com/groupon/util/collections/Histogram.java:94-105 | the sort comparator relates any two keys one way or the other |
| Histograms.BeforeTransitive | src/main/java/com/groupon/util/collections/Histogram.java:94-105 | the sort comparator is transitive |
| Histograms.MaxScanCounterexample | src/main/java/com/groupon/util/collections/Histogram.java:76-89 | with counts a=1, b=2 visited in that order, getMaxValues as written returns both a and b, although a does not have the largest count |
| Histograms.Histogram.constructor | src/main/java/com/groupon/util/collections/Histogram.java:41-42 | a new histogram is empty |
| Histograms.Histogram.FromMap | src/main/java/com/groupon/util/collections/Histogram.java:44-46 | a histogram made from a map starts with its counts |
| Histograms.Histogram.Add | src/main/java/com/groupon/util/collections/Histogram.java:53-57 | returns the previous count (0 for a new key) and raises it by one, nothing else changing |
| Histograms.Histogram.AddAll | src/main/java/com/groupon/util/collections/Histogram.java:59-63 | each key's count grows by its number of occurrences among the items; the keys are the old ones plus the items |
| Histograms.Histogram.Merge | src/main/java/com/groupon/util/collections/Histogram.java:65-74 | the counts become the key-wise sum of both histograms |
| Histograms.Histogram.MergeAt | src/main/java/com/groupon/util/collections/Histogram.java:67-71 | one entry of the other histogram is added to the count, or copied when new |
| Histograms.Histogram.GetMaxValues | src/main/java/com/groupon/util/collections/Histogram.java:76-89 | as written: every key with the largest non-negative count is returned, and each returned key is one whose count was at least the running maximum |
| Histograms.Histogram.MaxValues | src/main/java/com/groupon/util/collections/Histogram.java:76-89 | as intended: exactly the keys whose count is the largest and not negative |
| Histograms.Histogram.Sort | src/main/java/com/groupon/util/collections/Histogram.java:91-116 | every key exactly once, by descending count, ties in key order |
| Histograms.SortInPlace | src/main/java/com/groupon/util/collections/Histogram.java:92-107 | the array is rearranged, as a permutation, into comparator order |
| Histograms.InsertAt | src/main/java/com/groupon/util/collections/Histogram.java:93-107 | one insertion step extends the sorted prefix by one key, as a permutation |
| Histograms.SwapStep | src/main/java/com/groupon/util/collections/Histogram.java:93-107 | swapping two neighbours out of order keeps the multiset and every other ordered pair |
| JavaCollections.MergeCounts | src/main/java/com/groupon/util/collections/Histogram.java:65-74 | the merged counter has the keys of both and each count the sum of the two |
| JavaCollections.PartialStep | src/main/java/com/groupon/util/collections/Histogram.java:66-72 | merging one more distinct key adds its count and leaves the others |
| JavaCollections.MergeCountsUnique | src/main/java/com/groupon/util/collections/Histogram.java:65-74 | a counter with the keys and sums of both is the merged counter |
| JavaCollections.MergeCommutes | src/main/java/com/groupon/util/collections/Histogram.java:65-74 | merging is commutative |
| JavaCollections.MergeEmpty | src/main/java/com/groupon/util/collections/Histogram.java:65-74 | merging an empty histogram changes nothing |
| StringCountsCollectors.StringCountsAnalysisCollector.constructor | src/main/java/com/groupon/nakala/analysis/StringCountsAnalysisCollector.java:48-50 | a new collector has no counts |
| StringCountsCollectors.StringCountsAnalysisCollector.Add | src/main/java/com/groupon/nakala/analysis/StringCountsAnalysisCollector.java:52-58 | a new string counts 1, a known one goes up by one, nothing else changes |
| StringCountsCollectors.StringCountsAnalysisCollector.Merge | src/main/java/com/groupon/nakala/analysis/StringCountsAnalysisCollector.java:64-74 | the counts become the key-wise sum of both collectors |
| StringCountsCollectors.StringCountsAnalysisCollector.AddAnalysis | src/main/java/com/groupon/nakala/analysis/StringCountsAnalysisCollector.java:85-98 | a string-count analysis is added key by key; any other analysis is refused with "Unsupported analysis type." and the counts stay as they were |
| StringCountsCollectors.StringCountsAnalysisCollector.AddCounts | src/main/java/com/groupon/nakala/analysis/StringCountsAnalysisCollector.java:66-94 | after the entry loop the counts are the key-wise sum |
| StringCountsCollectors.StringCountsAnalysisCollector.AddAt | src/main/java/com/groupon/nakala/analysis/StringCountsAnalysisCollector.java:67-93 | one entry is added to its key's count, or copied when the key is new |
| StringCountsCollectors.AddCountsOccurrences | src/main/java/com/groupon/nakala/analysis/StringCountsAnalysisCollector.java:52-58 | adding strings one at a time leaves each string's count raised by its number of occurrences |
| JobFlowDefinitions.CheckKeySound | src/main/java/com/groupon/nakala/core/JobFlowSpecsDefinition.java:138-196 | a successful validate of a label: the label is used, every label it newly used is defined, well formed and refers only to used labels, and no used key is dropped |
| JobFlowDefinitions.CheckSpecSound | src/main/java/com/groupon/nakala/core/JobFlowSpecsDefinition.java:146-196 | a spec map that passes has a known value type, well-formed links, and all its references used |
| JobFlowDefinitions.CheckLinksSound | src/main/java/com/groupon/nakala/core/JobFlowSpecsDefinition.java:159-195 | passing the list-type, required and parameter checks makes the spec well formed with its references used |
| JobFlowDefinitions.CheckListTypeSound | src/main/java/com/groupon/nakala/core/JobFlowSpecsDefinition.java:159-174 | a list's type is a string naming a defined label (then validated and used) or "string" |
| JobFlowDefinitions.CheckRequiredSound | src/main/java/com/groupon/nakala/core/JobFlowSpecsDefinition.java:176-184 | every required entry is a label string, validated and used |
| JobFlowDefinitions.CheckParametersSound | src/main/java/com/groupon/nakala/core/JobFlowSpecsDefinition.java:186-195 | every parameter entry is a label string, and is used afterwards |
| JobFlowDefinitions.LabelsCons | src/main/java/com/groupon/nakala/core/JobFlowSpecsDefinition.java:181-191 | the labels of a list are its first label plus those of the rest |
| JobFlowDefinitions.AllStringsCons | src/main/java/com/groupon/nakala/core/JobFlowSpecsDefinition.java:181-191 | a list of string labels is one string label followed by such a list |
| JobFlowDefinitions.MalformedRejected | src/main/java/com/groupon/nakala/core/JobFlowSpecsDefinition.java:146-195 | a defined label whose spec is not a well-formed map is rejected, whatever the stack depth and used keys |
| JobFlowDefinitions.ValidatedClosed | src/main/java/com/groupon/nakala/core/JobFlowSpecsDefinition.java:97 | after validating from "top", the used labels include "top", are all defined, well formed, and refer only to used labels |
| JobFlowDefinitions.UnusedKeysAreUsed | src/main/java/com/groupon/nakala/core/JobFlowSpecsDefinition.java:99-103 | as written, the "unused" warning set after a successful validation is exactly the used labels: it always holds "top" and never a label that was not reached |
| JobFlowDefinitions.UnusedKeysCorrectedSplits | src/main/java/com/groupon/nakala/core/JobFlowSpecsDefinition.java:99-103 | as intended, every defined label is either used or reported, never both, and "top" is never reported |
| JobFlowDefinitions.UnusedKeysExample | src/main/java/com/groupon/nakala/core/JobFlowSpecsDefinition.java:99-103 | with an extra label nothing refers to, the warning as written names only "top" and the corrected one names only "extra" |
| JobFlowDefinitions.SpecItemOfValid | src/main/java/com/groupon/nakala/core/JobFlowSpecsDefinition.java:110-135 | a validated label's stored spec has its value type, its list type for lists only, and as required and parameter sets exactly the labels its lists name |
| JobFlowDefinitions.SpecItemDefaults | src/main/java/com/groupon/nakala/core/JobFlowSpecsDefinition.java:113-132 | an absent required or parameter list is the empty set; a non-list has no list type |
| JobFlowDefinitions.ConvertedStep | src/main/java/com/groupon/nakala/core/JobFlowSpecsDefinition.java:134 | storing one more label's spec extends the stored specs by that label |
| JobFlowDefinitions.JobFlowSpecsDefinition.constructor | src/main/java/com/groupon/nakala/core/JobFlowSpecsDefinition.java:77 | a new definition holds no specs |
| JobFlowDefinitions.JobFlowSpecsDefinition.Initialize | src/main/java/com/groupon/nakala/core/JobFlowSpecsDefinition.java:90-106 | a failed validation is thrown with its message and leaves no specs; on success every label's spec is stored and the warning set is the one computed as written |
| JobFlowDefinitions.JobFlowSpecsDefinition.AddSpec | src/main/java/com/groupon/nakala/core/JobFlowSpecsDefinition.java:108-136 | succeeds exactly when every label's spec converts (a map with a string value type, a string or absent list type for a list, and lists or nothing for required and parameters, whatever their items), and then stores the converted spec of every label |
| JobFlowDefinitions.JobFlowSpecsDefinition.GetValueType | src/main/java/com/groupon/nakala/core/JobFlowSpecsDefinition.java:198-204 | the stored value type, or "Key ... undefined." for an unknown label |
| JobFlowDefinitions.JobFlowSpecsDefinition.GetListType | src/main/java/com/groupon/nakala/core/JobFlowSpecsDefinition.java:206-212 | the stored list type (null for a non-list), or "Key ... undefined." for an unknown label |
| JobFlowDefinitions.JobFlowSpecsDefinition.GetRequired | src/main/java/com/groupon/nakala/core/JobFlowSpecsDefinition.java:214-220 | the stored items of the required list, or "Key ... undefined." for an unknown label |
| JobFlowDefinitions.JobFlowSpecsDefinition.GetParameters | src/main/java/com/groupon/nakala/core/JobFlowSpecsDefinition.java:222-228 | the stored items of the parameters list, or "Key ... undefined." for an unknown label |
| JobFlowDefinitions.Validate | src/main/java/com/groupon/nakala/core/JobFlowSpecsDefinition.java:138-196 | the recursive method gives exactly the outcome of the validation function: an unknown label, an exhausted stack or the first malformed spec is an error, otherwise the used keys afterwards |
| JobFlowDefinitions.ValidateSpec | src/main/java/com/groupon/nakala/core/JobFlowSpecsDefinition.java:146-157 | the value-type checks in order, with their messages, then the links |
| JobFlowDefinitions.ValidateLinks | src/main/java/com/groupon/nakala/core/JobFlowSpecsDefinition.java:159-195 | the list-type, required and parameter checks in order, threading the used keys |
| JobFlowDefinitions.ValidateListType | src/main/java/com/groupon/nakala/core/JobFlowSpecsDefinition.java:159-174 | the list-type checks with their messages |
| JobFlowDefinitions.ValidateRequired | src/main/java/com/groupon/nakala/core/JobFlowSpecsDefinition.java:176-184 | the loop validating each required label in turn |
| JobFlowDefinitions.ValidateParameters | src/main/java/com/groupon/nakala/core/JobFlowSpecsDefinition.java:186-195 | the loop validating each parameter label not used yet |
| JobFlowDefinitions.CheckKeyComplete | src/main/java/com/groupon/nakala/core/JobFlowSpecsDefinition.java:138-196 | on a well-formed definition without cycles, validate accepts every label whose rank the stack depth exceeds, whatever keys were used before |
| JobFlowDefinitions.CheckSpecComplete | src/main/java/com/groupon/nakala/core/JobFlowSpecsDefinition.java:146-196 | a well-formed spec map whose references lie within the stack depth passes its checks |
| JobFlowDefinitions.CheckLinksComplete | src/main/java/com/groupon/nakala/core/JobFlowSpecsDefinition.java:159-195 | the list-type, required and parameter checks pass on a well-formed spec map whose references lie within the stack depth |
| JobFlowDefinitions.CheckListTypeComplete | src/main/java/com/groupon/nakala/core/JobFlowSpecsDefinition.java:159-174 | a list whose type is a defined label within the stack depth, or "string", passes |
| JobFlowDefinitions.ItemsBelowOfRefs | src/main/java/com/groupon/nakala/core/JobFlowSpecsDefinition.java:176-195 | the labels of a required or parameters list are references of the spec map, so they lie within the stack depth |
| JobFlowDefinitions.CheckRequiredComplete | src/main/java/com/groupon/nakala/core/JobFlowSpecsDefinition.java:176-184 | a list of defined labels within the stack depth passes the required loop |
| JobFlowDefinitions.CheckParametersComplete | src/main/java/com/groupon/nakala/core/JobFlowSpecsDefinition.java:186-195 | a list of defined labels within the stack depth passes the parameters loop, used ones skipped |
| JobFlowDefinitions.RankedValidates | src/main/java/com/groupon/nakala/core/JobFlowSpecsDefinition.java:97 | validation from "top" succeeds on every well-formed definition without cycles that defines "top", given a stack deeper than its rank |
| JobFlowDefinitions.SelfRequiredOverflows | src/main/java/com/groupon/nakala/core/JobFlowSpecsDefinition.java:176-184 | a label that lists itself as required is rejected at every stack depth, as the source recurses until its stack overflows |
| JobFlowDefinitions.ElementsOfStrings | src/main/java/com/groupon/nakala/core/JobFlowSpecsDefinition.java:122-129 | the items of a list of strings are exactly its labels |
| JobFlowDefinitions.UncheckedItemsKept | src/main/java/com/groupon/nakala/core/JobFlowSpecsDefinition.java:120-131 | a required list holding a number converts and the number is stored, as the unchecked cast lets it through |
| JobFlowSpecsValidation.Validate | src/main/java/com/groupon/nakala/core/SimpleJobFlowSpecs.java:181-256 | messages only accumulate; none is added exactly when the value conforms to its label; an exception means it does not; an undefined label throws "Key ... undefined."; a scalar of the wrong type adds its one type message, an integer outside the 32-bit range counting as not an integer; a map reports every missing required key and every parameter not allowed |
| JobFlowSpecsValidation.ValidateList | src/main/java/com/groupon/nakala/core/SimpleJobFlowSpecs.java:205-223 | the list branch adds nothing exactly when the value is a list and its items conform (or its list type is "string"); a non-list is reported before the cast fails |
| JobFlowSpecsValidation.ValidateItems | src/main/java/com/groupon/nakala/core/SimpleJobFlowSpecs.java:212-222 | a list's items add nothing exactly when each is a conforming label or a map of conforming entries |
| JobFlowSpecsValidation.ValidateMap | src/main/java/com/groupon/nakala/core/SimpleJobFlowSpecs.java:224-252 | the map branch adds nothing exactly when every required item is a present key, no parameter is disallowed and every entry conforms; each missing key, a null required key, and each disallowed parameter is reported; a required item that is not a string throws |
| JobFlowSpecsValidation.ReportRequired | src/main/java/com/groupon/nakala/core/SimpleJobFlowSpecs.java:229-234 | a required item that is neither a string nor null throws ClassCastException; otherwise each string key outside the present set and a null key add their message, and none is added exactly when every item is a present string key |
| JobFlowSpecsValidation.PrefixChain | src/main/java/com/groupon/nakala/core/SimpleJobFlowSpecs.java:229-251 | three extensions in a row leave the message list as it was exactly when each one does |
| JobFlowSpecsValidation.ReportParameters | src/main/java/com/groupon/nakala/core/SimpleJobFlowSpecs.java:236-245 | the parameters entry, when present, must be a map; every parameter outside the allowed set adds its message, and none is added exactly when all are allowed |
| JobFlowSpecsValidation.MessagesForHas | src/main/java/com/groupon/nakala/core/SimpleJobFlowSpecs.java:230-243 | a key outside the present set has its message |
| JobFlowSpecsValidation.MessagesForEmpty | src/main/java/com/groupon/nakala/core/SimpleJobFlowSpecs.java:230-243 | there are no messages exactly when every key is present |
| JobFlowSpecsValidation.MessagesForCount | src/main/java/com/groupon/nakala/core/SimpleJobFlowSpecs.java:230-243 | one message per key outside the present set |
| JobFlowSpecsValidation.KeysOfSnoc | src/main/java/com/groupon/nakala/core/SimpleJobFlowSpecs.java:230-240 | the keys looked at grow by the next one |
| JobFlowSpecsValidation.OutsideStep | src/main/java/com/groupon/nakala/core/SimpleJobFlowSpecs.java:231-241 | the keys outside the present set grow by the next key exactly when it is outside |
| JobFlowSpecsValidation.ReportOutside | src/main/java/com/groupon/nakala/core/SimpleJobFlowSpecs.java:229-245 | one message per key outside the present set, each of them reported, none exactly when all keys are present |
| JobFlowSpecsValidation.ValidateEntries | src/main/java/com/groupon/nakala/core/SimpleJobFlowSpecs.java:247-251 | a map's entries add nothing exactly when each conforms under its own key |
| JobFlowSpecsValidation.Initialize | src/main/java/com/groupon/nakala/core/SimpleJobFlowSpecs.java:68-82 | the specification is accepted exactly when it conforms from "top": any thrown exception or any message fails it |
| JobFlowSpecsValidation.IntegerWidth | src/main/java/com/groupon/nakala/core/SimpleJobFlowSpecs.java:189-204 | under an integer or string-or-integer label an integer conforms exactly when it fits in 32 bits: 2^31 draws the message, 2^31 - 1 does not |
| CollectionUtils.JoinCollection | src/main/java/com/groupon/util/collections/CollectionUtil.java:146-163 | null gives null; otherwise the elements with the separator between consecutive ones: "" for none, the element itself for one |
| CollectionUtils.JoinArray | src/main/java/com/groupon/util/collections/CollectionUtil.java:172-186 | a null or empty array gives ""; otherwise the joined elements |
| CollectionUtils.JoinLoop | src/main/java/com/groupon/util/collections/CollectionUtil.java:156-185 | the StringBuilder loop writes the separator before every element but the first, which is the join |
| CollectionUtils.JoinLength | src/main/java/com/groupon/util/collections/CollectionUtil.java:156-162 | a join is as long as its parts plus one separator between each two |
| CollectionUtils.HashMap | src/main/java/com/groupon/util/collections/CollectionUtil.java:105-114 | an odd number of arguments is refused with "Must supply even number of arguments: n"; otherwise the map of the key/value pairs put in order |
| CollectionUtils.PairsMapKeys | src/main/java/com/groupon/util/collections/CollectionUtil.java:110-112 | the keys of the map are exactly the arguments at even positions |
| CollectionUtils.PairsMapLast | src/main/java/com/groupon/util/collections/CollectionUtil.java:110-112 | a key maps to the value after its last occurrence as a key |
| CollectionUtils.Slice | src/main/java/com/groupon/util/collections/CollectionUtil.java:310-315 | min(len, length - off) elements copied from off on; a negative length or an offset outside the array is refused |
| CollectionUtils.SliceFrom | src/main/java/com/groupon/util/collections/CollectionUtil.java:297-299 | everything from off on; an offset outside the array is refused |
| CollectionUtils.CountIntersection | src/main/java/com/groupon/util/collections/CollectionUtil.java:428-444 | 0 when either is null; otherwise the number of elements of the smaller collection (the first on a tie) that the other contains |
| CollectionUtils.CountInDistinct | src/main/java/com/groupon/util/collections/CollectionUtil.java:438-442 | over distinct elements the count is the size of the intersection |
| CollectionUtils.DistinctSnoc | src/main/java/com/groupon/util/collections/CollectionUtil.java:439 | dropping the last element keeps a sequence distinct, and that element is not among the others |
| CollectionUtils.IntersectionSnoc | src/main/java/com/groupon/util/collections/CollectionUtil.java:439-441 | a new element grows the intersection by one exactly when the other side holds it |
| CollectionUtils.CountIntersectionSymmetric | src/main/java/com/groupon/util/collections/CollectionUtil.java:428-444 | for duplicate-free collections the count is symmetric and is the size of the intersection |
| CollectionUtils.CountIntersectionRepeats | src/main/java/com/groupon/util/collections/CollectionUtil.java:428-444 | with a repeated element the count depends on the argument order: ([1,1],[1,2]) gives 2 but ([1,2],[1,1]) gives 1 |
| CollectionUtils.HasComplement | src/main/java/com/groupon/util/collections/CollectionUtil.java:484-496 | true exactly when both are non-null and some element is in one but not the other |
| CollectionUtils.FirstMissing | src/main/java/com/groupon/util/collections/CollectionUtil.java:487-490 | true exactly when some element of the first is absent from the second |
| CollectionUtils.RepeatInto | src/main/java/com/groupon/util/collections/CollectionUtil.java:388-395 | the list gains n rounds of the items, in order |
| CollectionUtils.AddAll | src/main/java/com/groupon/util/collections/CollectionUtil.java:390-392 | one round appends each item in order |
| CollectionUtils.Repeat | src/main/java/com/groupon/util/collections/CollectionUtil.java:384-386 | a negative capacity n times the length of items is refused; otherwise n rounds of the items (n times the length of items elements by RepeatedLength) |
| JavaCollections.RepeatedLength | src/main/java/com/groupon/util/collections/CollectionUtil.java:384-395 | n rounds hold n times the length of items elements (none for n <= 0) |
| JavaCollections.RepeatedSplit | src/main/java/com/groupon/util/collections/CollectionUtil.java:389-393 | a + b rounds are a rounds followed by b rounds |
| CollectionUtils.Intersected | src/main/java/com/groupon/util/collections/CollectionUtil.java:397-405 | the set keeps the elements of into or the first collection that every later collection holds; into unchanged with no collections |
| CollectionUtils.IntersectInto | src/main/java/com/groupon/util/collections/CollectionUtil.java:397-405 | into becomes exactly that set |
| CollectionUtils.IntersectAll | src/main/java/com/groupon/util/collections/CollectionUtil.java:407-409 | intersect from an empty set is the intersection of all the collections |
| CollectionUtils.Filtered | src/main/java/com/groupon/util/collections/CollectionUtil.java:241-247 | the kept elements are a subsequence no longer than the input |
| CollectionUtils.FilteredCounts | src/main/java/com/groupon/util/collections/CollectionUtil.java:241-247 | each matching element keeps all its occurrences and each non-matching one loses them all |
| CollectionUtils.FilterLoopStep | src/main/java/com/groupon/util/collections/CollectionUtil.java:242-245 | one iterator step: keeping moves the cursor on, removing leaves it in place |
| CollectionUtils.FilteredStep | src/main/java/com/groupon/util/collections/CollectionUtil.java:242-245 | the kept prefix grows by the next element exactly when it matches |
| CollectionUtils.Filter | src/main/java/com/groupon/util/collections/CollectionUtil.java:241-247 | the list becomes exactly its matching elements, in order |
| CollectionUtils.JavaList.constructor | src/main/java/com/groupon/util/collections/CollectionUtil.java:69-85 | a list holds the given elements |
| CollectionUtils.JavaSet.constructor | src/main/java/com/groupon/util/collections/CollectionUtil.java:397-399 | a set holds the given elements |
| VocabUtils.Step | src/main/java/com/groupon/nakala/sentiment/VocabUtils.java:138-152 | one character never moves the token start past it |
| VocabUtils.ScanTo | src/main/java/com/groupon/nakala/sentiment/VocabUtils.java:137-153 | the token start never passes the characters scanned |
| VocabUtils.Tokenize | src/main/java/com/groupon/nakala/sentiment/VocabUtils.java:125-162 | the index loop gives exactly the tokens of the reference scan, or the uneven-quotes error |
| VocabUtils.InQuoteParity | src/main/java/com/groupon/nakala/sentiment/VocabUtils.java:145-146 | the scan is inside quotes exactly when it has passed an odd number of double quotes |
| VocabUtils.TokensFailIffUneven | src/main/java/com/groupon/nakala/sentiment/VocabUtils.java:157-159 | the query is refused with "Uneven quotes in query '...'" exactly when its double quotes are uneven |
| VocabUtils.EmittedTokens | src/main/java/com/groupon/nakala/sentiment/VocabUtils.java:138-152 | every token emitted in the loop is non-empty and does not end with the delimiter; a token has begun when the last character was not a delimiter |
| VocabUtils.TokensNonEmpty | src/main/java/com/groupon/nakala/sentiment/VocabUtils.java:141-155 | leading or repeated delimiters give no empty token: every token but the last is non-empty, and the last is the rest of the query from some position |
| VocabUtils.TokensCorrectedEndBeforeDelimiter | src/main/java/com/groupon/nakala/sentiment/VocabUtils.java:141-155 | as intended, every token of a non-empty query is non-empty and none ends with the delimiter |
| VocabUtils.TokensCorrectedAgrees | src/main/java/com/groupon/nakala/sentiment/VocabUtils.java:155 | the intended tokenizer differs from the written one only when the query ends with a delimiter |
| VocabUtils.TrailingDelimiterRepeats | src/main/java/com/groupon/nakala/sentiment/VocabUtils.java:155 | as written "a " split at spaces gives "a" and "a "; as intended only "a" |
| VocabUtils.QuotedExample | src/main/java/com/groupon/nakala/sentiment/VocabUtils.java:145-155 | quotes protect a delimiter and stay in the token; the empty query gives one empty token |
| VocabUtils.QuoteCountPrefix | src/main/java/com/groupon/nakala/sentiment/VocabUtils.java:145-146 | one more character adds one to the quote count exactly when it is a double quote |
| VocabUtils.NoSplitInToken | src/main/java/com/groupon/nakala/sentiment/VocabUtils.java:141-152 | no unquoted delimiter lies between the current token's start and the last character read |
| VocabUtils.EmittedPieces | src/main/java/com/groupon/nakala/sentiment/VocabUtils.java:147-150 | every token emitted is a stretch of the query ending right before an unquoted delimiter and holding none |
| VocabUtils.SplitsEmit | src/main/java/com/groupon/nakala/sentiment/VocabUtils.java:147-150 | every unquoted delimiter read so far that follows a non-delimiter has emitted the token ending there |
| VocabUtils.TokensSplitAtUnquoted | src/main/java/com/groupon/nakala/sentiment/VocabUtils.java:125-162 | for every query: each token but the last is a stretch of the query ending right before an unquoted delimiter and holding none, and every unquoted delimiter after a non-delimiter ends such a token, so quoted delimiters never split |
| VocabUtils.WholeScan | src/main/java/com/groupon/nakala/sentiment/VocabUtils.java:141-152 | with no unquoted delimiter the scan never starts a second token nor emits one |
| VocabUtils.TokensWhole | src/main/java/com/groupon/nakala/sentiment/VocabUtils.java:125-162 | a query with even quotes and no unquoted delimiter is one token, itself |
| PostProcessing.Plain | src/main/java/com/groupon/nakala/sentiment/PrePostProcessor.java:383-385 | the quote is never longer than the annotated text it comes from |
| PostProcessing.LastMarker | src/main/java/com/groupon/nakala/sentiment/PrePostProcessor.java:371-387 | the position of the last highlight marker, after which there is none |
| PostProcessing.ScanTexts | src/main/java/com/groupon/nakala/sentiment/PrePostProcessor.java:371-387 | the quote is the text without markers, and the annotated quote has each marker replaced by its tag |
| PostProcessing.ScanOpen | src/main/java/com/groupon/nakala/sentiment/PrePostProcessor.java:373-382 | a highlight is open exactly when the last marker is a HIGHLIGHTSTART, and it starts where that marker stands in the quote |
| PostProcessing.ScanOrdered | src/main/java/com/groupon/nakala/sentiment/PrePostProcessor.java:371-387 | every highlight lies in the quote with start <= end, the highlights come in order without overlapping, and all end before an open one starts |
| PostProcessing.PrefixOfSnoc | src/main/java/com/groupon/nakala/sentiment/PrePostProcessor.java:371 | a prefix of a text keeps the text's characters |
| PostProcessing.ClosesSpanSnoc | src/main/java/com/groupon/nakala/sentiment/PrePostProcessor.java:376-382 | the closing markers of a longer text are those of its prefix, with the same highlights |
| PostProcessing.ScanSpansSound | src/main/java/com/groupon/nakala/sentiment/PrePostProcessor.java:376-382 | every highlight closed in the loop was closed by a HIGHLIGHTEND whose last marker before it is a HIGHLIGHTSTART, and runs from that marker to it |
| PostProcessing.ScanSpansComplete | src/main/java/com/groupon/nakala/sentiment/PrePostProcessor.java:376-382 | every HIGHLIGHTEND whose last marker before it is a HIGHLIGHTSTART closes a highlight |
| PostProcessing.PlainAppend | src/main/java/com/groupon/nakala/sentiment/PrePostProcessor.java:383-385 | the plain text of a concatenation is the concatenation of the plain texts |
| PostProcessing.PlainUnmarked | src/main/java/com/groupon/nakala/sentiment/PrePostProcessor.java:383-385 | a text without markers is its own plain text |
| PostProcessing.HighlightText | src/main/java/com/groupon/nakala/sentiment/PrePostProcessor.java:373-392 | the quote text a highlight covers is exactly the text between its HIGHLIGHTSTART and the position that ends it |
| PostProcessing.HighlightMeaning | src/main/java/com/groupon/nakala/sentiment/PrePostProcessor.java:366-393 | the quote, the tags (with a closing tag for a highlight left open), and the highlights: those closed by markers plus one for a highlight open at the end |
| PostProcessing.HighlightSpan | src/main/java/com/groupon/nakala/sentiment/PrePostProcessor.java:376-393 | one highlight of the result is either closed by a marker or the one left open at the end |
| PostProcessing.HighlightOrdered | src/main/java/com/groupon/nakala/sentiment/PrePostProcessor.java:366-393 | every highlight of the result indexes into the quote with start <= end, in order, without overlapping |
| PostProcessing.TaggedUnmarked | src/main/java/com/groupon/nakala/sentiment/PrePostProcessor.java:373-386 | the annotated quote holds no marker |
| PostProcessing.StrayAndOpenExample | src/main/java/com/groupon/nakala/sentiment/PrePostProcessor.java:376-393 | a HIGHLIGHTEND without a highlight writes "</B>" and adds no highlight; a highlight left open is closed at the end of the quote |
| PostProcessing.ReviewRecord.constructor | src/main/java/com/groupon/nakala/sentiment/PrePostProcessor.java:360-364 | a record with its title and empty texts and highlights |
| PostProcessing.HighlightScan | src/main/java/com/groupon/nakala/sentiment/PrePostProcessor.java:366-393 | the character loop gives the plain quote, the tagged quote (closed at the end if needed), and the highlights of the reference scan |
| PostProcessing.PostprocessRow | src/main/java/com/groupon/nakala/sentiment/PrePostProcessor.java:360-405 | on success the record's quote, annotated quote and title are the shortened texts and its highlights are those of the scan; a size too small to shorten to throws and leaves the record as it was |
| PostProcessing.TrimForDb | src/main/java/com/groupon/nakala/sentiment/PrePostProcessor.java:407-413 | a text that fits is kept; a longer one is cut, which throws for a size below 5 |
| PostProcessing.TrimForDbFits | src/main/java/com/groupon/nakala/sentiment/PrePostProcessor.java:407-413 | a shortened text is maxSize - 2 long, keeps the start of the text, ends with "...", and shortening again changes nothing |
| PostProcessing.LastIndexOfChar | src/main/java/com/groupon/nakala/sentiment/PrePostProcessor.java:440-445 | the last position of the character, after which there is none, -1 without one |
| PostProcessing.TidyAnnotations | src/main/java/com/groupon/nakala/sentiment/PrePostProcessor.java:439-453 | the text is kept or cut before its last HIGHLIGHTSTART; without a HIGHLIGHTSTART it is kept |
| PostProcessing.TidyCuts | src/main/java/com/groupon/nakala/sentiment/PrePostProcessor.java:439-453 | the cut happens exactly when the last HIGHLIGHTSTART has no HIGHLIGHTEND after it, or only ones with no '>' at or after the last HIGHLIGHTEND |
| PostProcessing.TrimAnnotatedQuote | src/main/java/com/groupon/nakala/sentiment/PrePostProcessor.java:423-430 | as written: a text that fits is kept, a longer one is cut and tidied; a size below 5 throws |
| PostProcessing.UnmarkedConcat | src/main/java/com/groupon/nakala/sentiment/PrePostProcessor.java:426 | two marker-free texts concatenate to a marker-free text |
| PostProcessing.UnmarkedPrefix | src/main/java/com/groupon/nakala/sentiment/PrePostProcessor.java:426 | a prefix of a marker-free text is marker-free |
| PostProcessing.TrimAnnotatedNeverTidies | src/main/java/com/groupon/nakala/sentiment/PrePostProcessor.java:395-453 | as written the tidying never applies inside postprocessRow: the annotated quote holds tags, not markers, so it is cut like any other text |
| PostProcessing.HighlightAbExample | src/main/java/com/groupon/nakala/sentiment/PrePostProcessor.java:371-393 | a highlighted "ab" gives the quote "ab", the annotated quote "<B>ab</B>" and one highlight (0, 2) |
| PostProcessing.UnclosedTagExample | src/main/java/com/groupon/nakala/sentiment/PrePostProcessor.java:395-430 | as written that annotated quote shortened to 8 is "<B>...", an unclosed tag |
| PostProcessing.LastIndexOf | src/main/java/com/groupon/nakala/sentiment/PrePostProcessor.java:415-417 | the last occurrence of a tag, after which there is none |
| PostProcessing.LastIndexBelow | src/main/java/com/groupon/nakala/sentiment/PrePostProcessor.java:415-417 | the last occurrence of a tag at or before a position |
| PostProcessing.CutUnclosedPrefix | src/main/java/com/groupon/nakala/sentiment/PrePostProcessor.java:415-437 | cutting keeps a start of the text |
| PostProcessing.CutUnclosedCloses | src/main/java/com/groupon/nakala/sentiment/PrePostProcessor.java:415-437 | after cutting the last opening tag is closed, and a text already closed is kept |
| PostProcessing.TidyTagsCloses | src/main/java/com/groupon/nakala/sentiment/PrePostProcessor.java:432-437 | the intended tidying keeps a start of the text whose last "<B>" is closed, and keeps a closed text whole |
| PostProcessing.TrimAnnotatedCorrected | src/main/java/com/groupon/nakala/sentiment/PrePostProcessor.java:415-430 | as intended: a text that fits is kept; a longer one is cut and any unclosed "<B>" removed; a size below 5 throws |
| PostProcessing.ClosedTagExample | src/main/java/com/groupon/nakala/sentiment/PrePostProcessor.java:415-430 | as intended the highlighted "ab" shortened to 8 drops the unclosed tag and what follows |
| PostProcessing.LastOpenAtStart | src/main/java/com/groupon/nakala/sentiment/PrePostProcessor.java:415-417 | in "<B>..." the last "<B>" stands at 0 and there is no "</B>" |
| PostProcessing.TrimAnnotatedCorrectedCloses | src/main/java/com/groupon/nakala/sentiment/PrePostProcessor.java:415-430 | as intended a shortened annotated quote never ends in an unclosed tag, fits its field, and is a start of the cut text |
| TextUtils.WordBefore | src/main/java/com/groupon/nakala/core/TextUtils.java:52-78 | "" at position 0; otherwise the word (maximal run of letters and digits) that ends last at or before idx; throws when no letter or digit stands before idx or idx lies outside the text |
| TextUtils.WordBeforeUnique | src/main/java/com/groupon/nakala/core/TextUtils.java:52-78 | the word before a position is determined by the position |
| TextUtils.WordAfter | src/main/java/com/groupon/nakala/core/TextUtils.java:87-112 | as written: throws outside the text; "" exactly when no letter or digit stands from idx up to the text's last character, which is never examined; otherwise the first word starting at or after idx |
| TextUtils.WordAfterCorrected | src/main/java/com/groupon/nakala/core/TextUtils.java:87-112 | as intended: "" exactly when no letter or digit follows idx; otherwise the first word at or after idx |
| TextUtils.WordAfterUnique | src/main/java/com/groupon/nakala/core/TextUtils.java:87-112 | the word after a position is determined by the position |
| TextUtils.WordAfterMissesLastLetter | src/main/java/com/groupon/nakala/core/TextUtils.java:97-99 | after position 1 of "a b" the word "b" follows, yet as written the answer is "" |
| TextUtils.GetWordSet | src/main/java/com/groupon/nakala/core/TextUtils.java:114-122 | the set of all tokens the tokenizer yields for the text |
| FeatureTables.LineBodyTrims | src/main/java/com/groupon/nakala/core/Features.java:89-92 | the body is a start of the line, does not end with a line end, and only line ends were removed |
| FeatureTables.Fields | src/main/java/com/groupon/nakala/core/Features.java:93 | cutting at every tab gives at least one field |
| FeatureTables.FieldsJoin | src/main/java/com/groupon/nakala/core/Features.java:93 | the fields joined back with tabs give the line, and no field holds a tab |
| FeatureTables.FieldsAllEmpty | src/main/java/com/groupon/nakala/core/Features.java:93 | every field is empty exactly when the line is nothing but tabs |
| FeatureTables.FieldsFirst | src/main/java/com/groupon/nakala/core/Features.java:93 | the first field runs up to the first tab |
| FeatureTables.SplitTabEmpty | src/main/java/com/groupon/nakala/core/Features.java:93 | split("\t") gives no piece exactly when the line is one or more tabs only |
| FeatureTables.SplitTabFirst | src/main/java/com/groupon/nakala/core/Features.java:93-98 | the first piece, when there is one, is the text before the first tab |
| FeatureTables.Entries | src/main/java/com/groupon/nakala/core/Features.java:88-99 | one word and weight per line |
| FeatureTables.FeatureMapEntry | src/main/java/com/groupon/nakala/core/Features.java:98 | each entry of the word map is the line of its index |
| FeatureTables.FeatureMapHas | src/main/java/com/groupon/nakala/core/Features.java:98 | each line's word is in the map, with the index of its last occurrence |
| FeatureTables.FeatureMapSize | src/main/java/com/groupon/nakala/core/Features.java:98-104 | the map has one entry per line exactly when no word repeats, otherwise fewer |
| FeatureTables.FeatureMapDistinct | src/main/java/com/groupon/nakala/core/Features.java:98 | without repeated words, line i's word has index i and line i's weight |
| FeatureTables.StoredAll | src/main/java/com/groupon/nakala/core/Features.java:104-107 | once every word is stored without overflow, the words are distinct and each line's word sits at the line's index |
| FeatureTables.Features.constructor | src/main/java/com/groupon/nakala/core/Features.java:47-49 | a table with no feature |
| FeatureTables.Features.Initialize | src/main/java/com/groupon/nakala/core/Features.java:84-108 | succeeds exactly when no line is tabs only and no word repeats (otherwise ArrayIndexOutOfBoundsException); then the word map is that of the lines, line i's word sits at index i of the reverse lookup, and the two agree |
| FeatureTables.Features.PutLines | src/main/java/com/groupon/nakala/core/Features.java:87-99 | the line loop puts each line's word with the running index and its weight, failing at the first line of tabs only |
| FeatureTables.Features.ReadLine | src/main/java/com/groupon/nakala/core/Features.java:89-97 | one line: line ends trimmed, split at tabs, the word and the weight (1 without a second piece) |
| FeatureTables.Features.FillStrings | src/main/java/com/groupon/nakala/core/Features.java:104-107 | the reverse lookup is filled exactly when no word repeats, each line's word at its index; otherwise ArrayIndexOutOfBoundsException |
| FeatureTables.Features.FillArray | src/main/java/com/groupon/nakala/core/Features.java:105-107 | the entry loop stores every word at its index, and meets an index past the array exactly when a word repeats |
| FeatureTables.Features.StoreAt | src/main/java/com/groupon/nakala/core/Features.java:106 | one word is stored at its index, which no earlier word holds |
| FeatureTables.Features.GetIndex | src/main/java/com/groupon/nakala/core/Features.java:110-113 | -1 for an unknown word; otherwise an index of the reverse lookup holding the word |
| FeatureTables.Features.GetWeight | src/main/java/com/groupon/nakala/core/Features.java:115-118 | 0 for an unknown word, otherwise its weight |
| FeatureTables.Features.GetFeatureText | src/main/java/com/groupon/nakala/core/Features.java:129-133 | null outside the table; inside it, a known word |
| FeatureTables.Features.GetFeature | src/main/java/com/groupon/nakala/core/Features.java:125-127 | present exactly for a known word, with its weight |
| FeatureTables.Features.Size | src/main/java/com/groupon/nakala/core/Features.java:135-137 | the number of words |
| FeatureTables.Features.RoundTrip | src/main/java/com/groupon/nakala/core/Features.java:110-133 | the text at a word's index is the word, and the index of the text at an index is that index |
| FeatureTables.WeightByIndex | src/main/java/com/groupon/nakala/core/Features.java:120-123 | the weight read through a word's index is the weight read by word, 0 for an unknown word |
| FeatureTables.ReadWordExample | src/main/java/com/groupon/nakala/core/Features.java:89-98 | "a\n" is the word "a" with weight 1 |
| FeatureTables.ReadWeightExample | src/main/java/com/groupon/nakala/core/Features.java:93-98 | "a\t1" is the word "a" with weight "1" |
| FeatureTables.UnreadableExample | src/main/java/com/groupon/nakala/core/Features.java:93-107 | a line of tabs only has no word, and a repeated word makes the file unreadable |
| FeatureTables.Features.GetWeightAt | src/main/java/com/groupon/nakala/core/Features.java:120-123 | 0 outside the table; inside it, the weight of the word stored at that index |
| SynonymRewriting.Suffix | src/main/java/com/groupon/util/Synonyms.java:237-251 | as written: always one of "st", "nd", "rd", "th"; "th" for 11 to 13, otherwise chosen by the last digit |
| SynonymRewriting.SuffixCorrected | src/main/java/com/groupon/util/Synonyms.java:237-251 | as intended: always one of "st", "nd", "rd", "th", with the teens of every hundred taking "th" |
| SynonymRewriting.SuffixCorrectedByHundreds | src/main/java/com/groupon/util/Synonyms.java:237-251 | the corrected suffix repeats every hundred and agrees with the suffix as written below one hundred |
| SynonymRewriting.SuffixHundredTwelve | src/main/java/com/groupon/util/Synonyms.java:237-251 | as written 112 gets "nd" while 12 gets "th"; the corrected suffix gives 112 "th" |
| SynonymRewriting.GetSynonym | src/main/java/com/groupon/util/Synonyms.java:215-225 | null for a null word; otherwise the lookup of the word, retried without a trailing dot |
| SynonymRewriting.LookupFindsLongest | src/main/java/com/groupon/util/Synonyms.java:215-225 | a synonym is found exactly when the word less some trailing dots has one, and then it is the synonym of the longest such prefix |
| SynonymRewriting.NumberRun | src/main/java/com/groupon/util/Synonyms.java:258-283 | the scan stops within the tokens; every token it passes is a cardinal or an "and" followed by a number word, and the token it stops at is neither |
| SynonymRewriting.Number | src/main/java/com/groupon/util/Synonyms.java:253-342 | a number run consumes at least one and at most all remaining tokens |
| SynonymRewriting.NumberStarts | src/main/java/com/groupon/util/Synonyms.java:253-342 | a number is found exactly when the first token is an ordinal, a cardinal, or an "and" before a number word |
| SynonymRewriting.Rewrite | src/main/java/com/groupon/util/Synonyms.java:344-355 | the rewritten tokens are never more than the input tokens |
| SynonymRewriting.RewriteWithoutNumbers | src/main/java/com/groupon/util/Synonyms.java:344-355 | with number expansion off, each token is rewritten on its own to its synonym or itself, one output per input |
| SynonymRewriting.GlueJoins | src/main/java/com/groupon/util/Synonyms.java:146-156 | when no token is empty, the glued output is the tokens joined with single spaces |
| SynonymRewriting.GlueNonEmpty | src/main/java/com/groupon/util/Synonyms.java:146-156 | the glued output is non-empty when its last token is |
| SynonymRewriting.ReplaceAbsent | src/main/java/com/groupon/util/Synonyms.java:356-360 | a replacement whose target does not occur leaves the text unchanged |
| SynonymRewriting.PhraseBecomesCanonical | src/main/java/com/groupon/util/Synonyms.java:356-360 | as intended: a text that is exactly a phrase becomes its canonical word |
| SynonymRewriting.PhraseRuleReversed | src/main/java/com/groupon/util/Synonyms.java:356-360 | as written, the rule "c = a b" leaves "a b" alone and turns "c" into "a b" |
| SynonymRewriting.ParsedStr.constructor | src/main/java/com/groupon/util/Synonyms.java:130-132 | the tokens are the input split at runs of whitespace; both cursors start at 0 and there is no output list |
| SynonymRewriting.ParsedStr.Current | src/main/java/com/groupon/util/Synonyms.java:134-136 | the token under the read cursor |
| SynonymRewriting.ParsedStr.HasMore | src/main/java/com/groupon/util/Synonyms.java:142-144 | true exactly when the read cursor is inside the tokens |
| SynonymRewriting.ParsedStr.Advance | src/main/java/com/groupon/util/Synonyms.java:138-140 | the read cursor moves one token on and nothing else changes |
| SynonymRewriting.ParsedStr.Set | src/main/java/com/groupon/util/Synonyms.java:162-174 | appended to the output list when there is one; when the write cursor has caught up, the list is started with the tokens read so far plus the new one; otherwise written in place at the write cursor |
| SynonymRewriting.ParsedStr.Skip | src/main/java/com/groupon/util/Synonyms.java:158-160 | the current token is written out unchanged and both cursors move on; the unread tokens stay as they were |
| SynonymRewriting.ParsedStr.WriteBack | src/main/java/com/groupon/util/Synonyms.java:162-174 | with the read cursor ahead, the token goes at the write cursor and nothing from the read cursor on changes |
| SynonymRewriting.ParsedStr.Parsed | src/main/java/com/groupon/util/Synonyms.java:146-156 | without an output list, the written tokens glued with single spaces; with one, the whole token array joined |
| SynonymRewriting.Synonyms.constructor | src/main/java/com/groupon/util/Synonyms.java:177-178 | no synonyms, no phrase rules, number expansion off, the standard ordinal and cardinal tables |
| SynonymRewriting.Synonyms.FromMap | src/main/java/com/groupon/util/Synonyms.java:180-182 | the given synonyms, no phrase rules, number expansion off |
| SynonymRewriting.Synonyms.SetExpandNumbers | src/main/java/com/groupon/util/Synonyms.java:184-187 | sets the expansion flag and leaves the synonyms and rules alone |
| SynonymRewriting.Synonyms.SynonymStep | src/main/java/com/groupon/util/Synonyms.java:227-235 | succeeds exactly when the current token has a synonym, and then writes the synonym and moves on one token; otherwise changes nothing |
| SynonymRewriting.Synonyms.NumberStep | src/main/java/com/groupon/util/Synonyms.java:253-342 | succeeds exactly when expansion is on and a number starts at the cursor; then writes the number's text and consumes its tokens, leaving the unread tokens as they were; otherwise changes nothing |
| SynonymRewriting.Synonyms.WriteOrdinal | src/main/java/com/groupon/util/Synonyms.java:284-313 | a run ending in an ordinal is written as the number's digits and suffix (a lone ordinal as its table entry), consuming the run and the ordinal |
| SynonymRewriting.Synonyms.WriteCardinals | src/main/java/com/groupon/util/Synonyms.java:317-341 | a run of cardinals not ending in an ordinal is written as the digits of its total, consuming the run |
| SynonymRewriting.Synonyms.ReplaceSynonyms | src/main/java/com/groupon/util/Synonyms.java:344-370 | null for null; otherwise the tokens rewritten by synonym, number or themselves, glued with spaces, then every phrase rule applied in map order |
| SynonymRewriting.Synonyms.RewriteTokens | src/main/java/com/groupon/util/Synonyms.java:348-354 | the written tokens are the rewrite of the whole input |
| SynonymRewriting.Synonyms.RewriteStep | src/main/java/com/groupon/util/Synonyms.java:348-354 | one turn consumes at least one token and keeps the written tokens followed by the rewrite of the rest unchanged |
| SynonymRewriting.Synonyms.NumberOrKeep | src/main/java/com/groupon/util/Synonyms.java:348-354 | for a token with no synonym, a number run or the token itself is written, keeping the written tokens followed by the rewrite of the rest unchanged |
| SynonymRewriting.ApplyAll | src/main/java/com/groupon/util/Synonyms.java:356-360 | the text after each listed phrase rule is applied in turn |
| SynonymRewriting.ScanNumberWords | src/main/java/com/groupon/util/Synonyms.java:258-283 | the loop stops where the number run from the start position ends |
| SynonymRewriting.Sum | src/main/java/com/groupon/util/Synonyms.java:317-341 | the accumulation loop computes the total the cardinals spell on top of the starting value |
| SynonymRewriting.OrdinalRunExample | src/main/java/com/groupon/util/Synonyms.java:284-308 | "one hundred twenty fifth" becomes "125th", consuming four tokens |
| SynonymRewriting.OrdinalSuffixExample | src/main/java/com/groupon/util/Synonyms.java:284-308 | as written, "one hundred twelfth" becomes "112nd" |
| SynonymRewriting.CardinalRunExample | src/main/java/com/groupon/util/Synonyms.java:317-341 | "two hundred and eighty three" becomes "283", consuming all five tokens |
| SynonymRewriting.ExampleOrdinals | src/main/java/com/groupon/util/Synonyms.java:61-90 | the ordinal table maps "fifth" to "5th" and "twelfth" to "12th" |
| SynonymRewriting.ExampleCardinals | src/main/java/com/groupon/util/Synonyms.java:91-121 | the cardinal table gives one, two, three, twenty, eighty and hundred their values and does not hold "and" |

## Left out

- File, stream and console I/O, logging, and `main` entry points. Readers are modelled as lists of lines, and writers as returned values.
- Java `double` is modelled as Dafny `real`, so rounding is not modelled.
- Iteration order of HashMap and HashSet is not fixed; methods that iterate over one choose an order nondeterministically.
- UnionFinds.UnionFind.Union: requires both nodes to be roots. On non-roots the source can put a cycle into the parent links, and then `find` does not terminate.
- Metrics.ClassificationMetrics.Get: requires a known category. The source throws an index exception for an unknown one.
- ArrayTokenizers.ArrayTokenizer.constructor: requires a non-empty separator, because with an empty one the source's scan never advances.
- PropertiesLineEditors.PropertiesLineEditor.Edit: requires property values free of '@'. Otherwise the rescan from the start after each replacement may never end.
- CollectionUtils.CountIntersection: symmetry is proved only for duplicate-free inputs. With repeated elements the count is not symmetric, and `CountIntersectionRepeats` shows an input where it is not.
- Shingles.ShinglesTokenizerStream.SetShingleSize: a negative shingle size is not modelled; the source would throw in `next`.
- FeatureTables.Features.GetWeight: the weight is kept as the text of its column. `Double.parseDouble` and its NumberFormatException are not modelled.
- YamlValidation: Python `len()` on a non-list argument, which would raise TypeError, is not modelled. Argument values are limited to the shapes argparse produces: string, integer, float and list of strings.
- WordTrie `add(String)` and `match(String)`, which split their argument at whitespace first, are not modelled; the word-list forms are.
- Histograms.Histogram.Sort: only the default order is modelled (descending count, ties by key). `sort` with a caller's comparator, and the int-subtraction overflow in the default comparator, are not modelled.
- JobFlowSpecsValidation.Validate: a YAML map whose keys are not all strings cannot be represented, because a `YMap` has string keys. The source reads such a key as a String when it walks the entries, and the ClassCastException it then throws is not modelled.
- SimpleJobFlowSpecs `parseSpecs`, `parseList` and `parseMapValue`, which build objects by reflection, are not modelled; `validate` and `initialize` are.
- JobFlowDefinitions: the recursion of validation is bounded by a `fuel` parameter. Running out of fuel is an error result and stands for the source's StackOverflowError on a cyclic definition.
- Synonyms `read` (the synonym file parser) and its regular-expression rules are not modelled. A `Synonyms` built by the constructors modelled here has no regular-expression rules.
- TextUtils.GetWordSet: the tokenizer is a parameter of the source; the model uses the shingle stream's tokens.
- GeneralFinder `makeIndex(fileName)` file reading is not modelled; `makeIndex` over a list of lines is.
- StringCountsCollectors.StringCountsAnalysisCollector.Merge: merging a collector of another class (a ClassCastException in the source) and `store(DataStore)` are not modelled.
- PrePostProcessor `postProcessWords` and `postProcessString`, which use regular expressions and HTML escaping, are not modelled.
- CollectionUtil functions outside `join`, `hashMap`, `slice`, `countIntersection`, `hasComplement`, `repeat`, `intersectInto` and `filter` (such as `sum`, `map`, `select`, `split`) are not part of this model.

- Finder.IsFound: the lower-casing of text and phrases is ASCII-only (A to Z). Java's `String.toLowerCase` also lower-cases other scripts, so a phrase differing from the text only in a non-ASCII capital is found there and not here.
- Finder.FindSpans: the spans are computed on the ASCII-only lower-casing. Java lower-cases every script.
- Finder.GetExtractions: relies on a lower-casing that keeps the length. Java's `toLowerCase` can change it (capital dotted I becomes two characters), which shifts the offsets used on the original text. That shift is not modelled.
- Finder.LowerSlice: holds for the ASCII per-character lower-casing only. It is false for Java's `toLowerCase` on text whose length changes when lower-cased.
- TextUtils.WordBefore: letters and digits are the ASCII ones. `Character.isLetterOrDigit` also accepts other scripts ("café" ends in a letter in Java and not here).
- TextUtils.WordAfter: letters and digits are the ASCII ones, as for WordBefore.
- TextUtils.WordAfterCorrected: letters and digits are the ASCII ones, as for WordBefore.
- Strings.Decamel: the upper-case letters are A to Z. `Character.isUpperCase` also accepts other capitals, so "aÉ" is cut before "É" in Java and not here.
- Metrics.ClassificationMetrics.constructor: takes the items already joined with their predictions. The join by id over two maps, and its NullPointerException when an item has no prediction, are not modelled.
- Strings.IndexOfQuoted: requires a non-empty pattern and a non-negative start. On those inputs the source throws StringIndexOutOfBoundsException, and that exception is not modelled.
- Histograms.Histogram.Add: counts are unbounded integers. The source's `int` counters wrap past 2^31 - 1.
- StringCountsCollectors.StringCountsAnalysisCollector.Add: counts are unbounded integers. The source's `int` counters wrap past 2^31 - 1.
- ExtractedRecords.ExtractedRecordCollector.Add: records are keyed by a tuple of their fields. The source joins the fields into one string with spaces, so two records whose domains contain spaces can share a key there and not here.
- Shingles.ShinglesTokenizerStream.constructor: the text starts empty. In the source it starts null, so `next` before `setText` throws a NullPointerException, where the model returns no shingle.

## Findings

| source | as written | input that shows it | evidently intended | confidence | as-written member | corrected member |
|---|---|---|---|---|---|---|
| src/main/java/com/groupon/util/Strings.java:181-187 | `contains` tests `str.indexOf(str)`, so it returns the first candidate whenever there is one | str "abc", candidates ["xyz"]: returns "xyz" | return the first candidate that occurs in str, else null | not executed | Strings.ContainsCounterexample | Strings.ContainsOneOf |
| src/main/java/com/groupon/util/collections/Histogram.java:76-89 | `getMaxValues` adds each key whose count reaches the running maximum and never drops earlier keys | counts a=1, b=2 visited in that order: returns {a, b} | only the keys with the largest count | not executed | Histograms.MaxScanCounterexample | Histograms.Histogram.MaxValues |
| src/main/java/com/groupon/util/Synonyms.java:237-251 | `suffix` gives "th" only to 11 to 13 and otherwise looks at the last digit | 112 gets "nd", and "one hundred twelfth" becomes "112nd" | the teens of every hundred take "th" (112th) | not executed | SynonymRewriting.SuffixHundredTwelve | SynonymRewriting.SuffixCorrected |
| src/main/java/com/groupon/nakala/core/JobFlowSpecsDefinition.java:99-103 | the "unused keys" set is the intersection of the defined labels and the used ones | a definition with "top" and an unreferenced label "extra": the warning names "top" and not "extra" | the defined labels minus the used ones | not executed | JobFlowDefinitions.UnusedKeysExample | JobFlowDefinitions.UnusedKeysCorrectedSplits |
| src/main/java/com/groupon/nakala/sentiment/VocabUtils.java:155 | the rest of the query from the last token start is always appended | "a " split at spaces gives "a" and "a " | a trailing delimiter adds no token | not executed | VocabUtils.TrailingDelimiterRepeats | VocabUtils.TokensCorrectedAgrees |
| src/main/java/com/groupon/nakala/core/TextUtils.java:97-99 | `wordAfter` scans only up to the character before the last | "a b" at position 1 gives "" instead of "b" | the scan reaches the last character | not executed | TextUtils.WordAfterMissesLastLetter | TextUtils.WordAfterCorrected |
| src/main/java/com/groupon/nakala/sentiment/PrePostProcessor.java:395-453 | the annotated quote is tidied only when it contains the highlight control characters, but it already holds the tags that replaced them, so it is cut like plain text | highlighted "ab" trimmed to 8 gives "<B>...", an unclosed tag | a cut inside a highlight drops the open tag or closes it | not executed | PostProcessing.UnclosedTagExample | PostProcessing.TrimAnnotatedCorrectedCloses |
| src/main/java/com/groupon/util/Synonyms.java:356-360 | each multi-word rule replaces the canonical word by the phrase | rule "c = a b": "a b" stays and "c" becomes "a b" | each phrase becomes its canonical word, as single words do | not executed | SynonymRewriting.PhraseRuleReversed | SynonymRewriting.PhraseBecomesCanonical |
