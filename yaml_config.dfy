/**
 * The configuration builders and the generator object of script/generate_yaml_file.py.
 *
 * A validated parameter set is compiled into a YAML tree of component descriptors:
 * every component is a map with a "class_name" and, usually, a "parameters" map.
 * The tree has three sections: the collection reader, the data stores and the
 * collection analyzer of the phase.
 */
module YamlConfig {
  import opened Wrappers
  import opened JavaText
  import opened YamlValidation

  /** The YAML tree that yaml.dump writes; maps are unordered because the dump sorts keys. */
  datatype Yaml =
    | YStr(s: string)
    | YInt(i: int)
    | YReal(r: real)
    | YBool(b: bool)
    | YList(items: seq<Yaml>)
    | YMap(entries: map<string, Yaml>)

  // YAML keys
  const COLLECTION_READER := "collection_reader"
  const COLLECTION_ANALYZER := "collection_analyzer"
  const DATA_STORES := "data_stores"
  const PARAMETERS := "parameters"
  const CLASS_NAME := "class_name"
  const SCALER := "scaler"
  const FILE_NAME := "file_name"
  const USE_ABSOLUTE_VALUES := "use_absolute_values"
  const OVERWRITE := "overwrite"

  // Component classes
  const IDENTIFIABLE_READER := "com.groupon.nakala.db.TsvIdentifiableTextCollectionReader"
  const CATEGORIZED_READER := "com.groupon.nakala.db.TsvCategorizedTextCollectionReader"
  const FLAT_FILE_STORE := "com.groupon.nakala.db.FlatFileStore"
  const SERIALIZATION_STORE := "com.groupon.nakala.db.SerializationStore"
  const MULTI_MODEL_CLASSIFIER := "com.groupon.ml.svm.MultiModelClassifier"
  const CLASSIFIER_COLLECTION_ANALYZER := "com.groupon.ml.ClassifierCollectionAnalyzer"
  const QUIET_COLLECTION_ANALYZER := "com.groupon.ml.quiet.QuietCollectionAnalyzer"
  const MODEL_LOADER := "com.groupon.ml.quiet.HummingBirdModelLoader"
  const HUMMING_BIRD_ANALYZER := "com.groupon.ml.quiet.HummingBirdAnalyzer"
  const CLASSIFIER_EVALUATOR := "com.groupon.ml.ClassifierEvaluator"
  const RESOURCE_READER := "com.groupon.nakala.core.ResourceReader"
  const TEXT_CLASSIFIER := "com.groupon.ml.svm.LibSvmTextClassifier"
  const REPRESENTER := "com.groupon.nakala.core.TfFeatureWeightTextRepresenter"
  const FEATURES := "com.groupon.nakala.core.Features"
  const VALUE_SCALER := "com.groupon.ml.svm.ValueScaler"
  const SVM_TRAINER := "com.groupon.ml.svm.LibSvmTrainer"
  const QUERY_EXTRACTOR := "com.groupon.ml.quiet.QueryExtractorCollectionAnalyzer"
  const TOKENIZER := "com.groupon.nakala.core.RegexpTokenizerStream"
  const MARKUP_REMOVER := "com.groupon.nakala.normalization.MarkupRemover"
  const CASE_NORMALIZER := "com.groupon.nakala.normalization.CaseNormalizer"
  const NUMBER_NORMALIZER := "com.groupon.nakala.normalization.NumberNormalizer"
  const BNS_WEIGHT_CALCULATOR := "com.groupon.nakala.analysis.BnsWeightCalculator"

  const DEFAULT_MAX_FEATURE_SIZE := 40000
  const DEFAULT_MIN_FEATURE_WEIGHT: real := 0.01

  function ToYaml(v: Value): Yaml
  {
    match v
    case Str(s) => YStr(s)
    case Int(i) => YInt(i)
    case Float(f) => YReal(f)
    case StrList(items) => YList(seq(|items|, i requires 0 <= i < |items| => YStr(items[i])))
  }

  /** Python truthiness: zero, the empty string and the empty list are false. */
  predicate Truthy(v: Value)
  {
    match v
    case Str(s) => s != []
    case Int(i) => i != 0
    case Float(f) => f != 0.0
    case StrList(items) => items != []
  }

  /** dict(class_name=..., parameters=...). */
  function Component(className: string, params: map<string, Yaml>): Yaml
  {
    YMap(map[CLASS_NAME := YStr(className), PARAMETERS := YMap(params)])
  }

  /** dict(class_name=...), a component without parameters. */
  function Bare(className: string): Yaml
  {
    YMap(map[CLASS_NAME := YStr(className)])
  }

  function FileComponent(className: string, file: Yaml): Yaml
  {
    Component(className, map[FILE_NAME := file])
  }

  /** `if self.parameters.has_key(key): params[key] = self.parameters[key]`. */
  function CopyIfPresent(m: map<string, Yaml>, p: Parameters, key: string): map<string, Yaml>
  {
    if key in p then m[key := ToYaml(p[key])] else m
  }

  // Readers for the lemmas

  function ClassName(y: Yaml): Option<string>
  {
    if y.YMap? && CLASS_NAME in y.entries && y.entries[CLASS_NAME].YStr? then Some(y.entries[CLASS_NAME].s) else None
  }

  function Param(y: Yaml, k: string): Option<Yaml>
  {
    if y.YMap? && PARAMETERS in y.entries && y.entries[PARAMETERS].YMap? && k in y.entries[PARAMETERS].entries
    then Some(y.entries[PARAMETERS].entries[k]) else None
  }

  function Section(y: Yaml, k: string): Option<Yaml>
  {
    if y.YMap? && k in y.entries then Some(y.entries[k]) else None
  }

  // ---------------------------------------------------------------------------
  // The builders

  /** `_get_tokenizer_config`. */
  function TokenizerConfig(): (r: Yaml)
    ensures ClassName(r) == Some(TOKENIZER) && r.entries.Keys == {CLASS_NAME}
  {
    Bare(TOKENIZER)
  }

  /** `_get_normalizers_config`. */
  function NormalizersConfig(): (r: Yaml)
    ensures r.YList? && |r.items| == 3
    ensures ClassName(r.items[0]) == Some(MARKUP_REMOVER)
    ensures ClassName(r.items[1]) == Some(CASE_NORMALIZER)
    ensures ClassName(r.items[2]) == Some(NUMBER_NORMALIZER)
    ensures forall i :: 0 <= i < 3 ==> Param(r.items[i], FILE_NAME).None? && r.items[i].entries.Keys == {CLASS_NAME}
  {
    YList([Bare(MARKUP_REMOVER), Bare(CASE_NORMALIZER), Bare(NUMBER_NORMALIZER)])
  }

  /** `_get_representer_config`: a scaler is added only for a non-empty range file. */
  function RepresenterConfig(featureFile: string, rangeFile: Option<string>): (r: Yaml)
    ensures ClassName(r) == Some(REPRESENTER)
  {
    var params := map[
      "normalize_by_length" := YBool(true),
      "features" := FileComponent(FEATURES, YStr(featureFile)),
      "tokenizer" := TokenizerConfig(),
      "normalizers" := NormalizersConfig()];
    if rangeFile.Some? && rangeFile.value != [] then
      Component(REPRESENTER, params[SCALER := FileComponent(VALUE_SCALER, YStr(rangeFile.value))])
    else
      Component(REPRESENTER, params)
  }

  /** The representer normalizes by length and reads the feature file with the tokenizer and
    * the normalizers; it scales exactly when the range file is given and non-empty. */
  lemma RepresenterParts(featureFile: string, rangeFile: Option<string>)
    ensures var r := RepresenterConfig(featureFile, rangeFile);
      && Param(r, "normalize_by_length") == Some(YBool(true))
      && Param(r, "features") == Some(FileComponent(FEATURES, YStr(featureFile)))
      && Param(r, "tokenizer") == Some(TokenizerConfig())
      && Param(r, "normalizers") == Some(NormalizersConfig())
      && (Param(r, SCALER).Some? <==> rangeFile.Some? && rangeFile.value != [])
      && (Param(r, SCALER).Some? ==> Param(r, SCALER) == Some(FileComponent(VALUE_SCALER, YStr(rangeFile.value))))
  {
  }

  /** `_get_svm_analyzer_config`: the model, labels and range files all derive from the stem. */
  function SvmAnalyzerConfig(featureFile: string, stem: string): (r: Yaml)
    ensures ClassName(r) == Some(TEXT_CLASSIFIER)
  {
    Component(TEXT_CLASSIFIER, map[
      "model" := FileComponent(RESOURCE_READER, YStr(stem + ".model")),
      "labels" := FileComponent(RESOURCE_READER, YStr(stem + ".labels")),
      "representer" := RepresenterConfig(featureFile, Some(stem + ".range"))])
  }

  /** `_get_svm_analyzers_config`: zip stops at the shorter list. */
  function SvmAnalyzersConfig(featureFiles: seq<string>, stems: seq<string>): (r: seq<Yaml>)
    ensures |r| == if |featureFiles| < |stems| then |featureFiles| else |stems|
    ensures forall i :: 0 <= i < |r| ==> r[i] == SvmAnalyzerConfig(featureFiles[i], stems[i])
  {
    if featureFiles == [] || stems == [] then []
    else
      var fs, ss := featureFiles[1..], stems[1..];
      var rest := SvmAnalyzersConfig(fs, ss);
      assert forall i :: 1 <= i <= |rest| ==> fs[i - 1] == featureFiles[i] && ss[i - 1] == stems[i];
      [SvmAnalyzerConfig(featureFiles[0], stems[0])] + rest
  }

  /** `_get_quiet_model_config`. */
  function QuietModelConfig(model: string): (r: Yaml)
    ensures ClassName(r) == Some(MODEL_LOADER) && Param(r, FILE_NAME) == Some(YStr(model))
  {
    FileComponent(MODEL_LOADER, YStr(model))
  }

  /** `_get_quiet_models_config`. */
  function QuietModelsConfig(models: seq<string>): (r: seq<Yaml>)
    ensures |r| == |models|
    ensures forall i :: 0 <= i < |r| ==>
      ClassName(r[i]) == Some(MODEL_LOADER) && Param(r[i], FILE_NAME) == Some(YStr(models[i]))
  {
    seq(|models|, i requires 0 <= i < |models| => QuietModelConfig(models[i]))
  }

  function ListItems(p: Parameters, k: string): seq<string>
    requires k in p && p[k].StrList?
  {
    p[k].items
  }

  predicate HasList(p: Parameters, k: string)
  {
    k in p && p[k].StrList? && |p[k].items| > 0
  }

  /** `_get_quiet_evaluation_config`: the first model only, and no target class. */
  function QuietEvaluationConfig(p: Parameters): (r: Yaml)
    requires HasList(p, QUIET_MODEL)
    ensures ClassName(r) == Some(CLASSIFIER_EVALUATOR)
  {
    var model := QuietModelConfig(p[QUIET_MODEL].items[0]);
    var analyzer := Component(HUMMING_BIRD_ANALYZER, map["model" := model]);
    Component(CLASSIFIER_EVALUATOR, map[
      "min_threshold" := YReal(0.005), "max_threshold" := YReal(1.0), "threshold_step" := YReal(0.005),
      "analyzer" := analyzer])
  }

  /** `_get_svm_evaluation_config`: the first feature file and stem, and the target class if given. */
  function SvmEvaluationConfig(p: Parameters): (r: Yaml)
    requires HasList(p, FEATURE_FILE) && HasList(p, SVM_OUTPUT_STEM)
    ensures ClassName(r) == Some(CLASSIFIER_EVALUATOR)
  {
    var analyzer := SvmAnalyzerConfig(p[FEATURE_FILE].items[0], p[SVM_OUTPUT_STEM].items[0]);
    var params := map[
      "min_threshold" := YReal(0.05), "max_threshold" := YReal(1.0), "threshold_step" := YReal(0.05),
      "analyzer" := analyzer];
    Component(CLASSIFIER_EVALUATOR, CopyIfPresent(params, p, TARGET_CLASS))
  }

  /** `_get_batch_classifier_config_svm`: one text classifier per (feature file, stem) pair. */
  function BatchClassifierConfigSvm(p: Parameters): (r: Yaml)
    requires HasList(p, FEATURE_FILE) && HasList(p, SVM_OUTPUT_STEM)
    ensures ClassName(r) == Some(CLASSIFIER_COLLECTION_ANALYZER)
    ensures Param(r, "analyzer").Some? && ClassName(Param(r, "analyzer").value) == Some(MULTI_MODEL_CLASSIFIER)
    ensures (Param(Param(r, "analyzer").value, NUMBER_OF_THREADS).Some? <==> NUMBER_OF_THREADS in p)
  {
    var analyzers := SvmAnalyzersConfig(p[FEATURE_FILE].items, p[SVM_OUTPUT_STEM].items);
    var analyzer := Component(MULTI_MODEL_CLASSIFIER, CopyIfPresent(map["analyzers" := YList(analyzers)], p, NUMBER_OF_THREADS));
    Component(CLASSIFIER_COLLECTION_ANALYZER, map["analyzer" := analyzer])
  }

  /** `_get_batch_classifier_config_quiet`: one model loader per quiet model. */
  function BatchClassifierConfigQuiet(p: Parameters): (r: Yaml)
    requires HasList(p, QUIET_MODEL)
    ensures ClassName(r) == Some(QUIET_COLLECTION_ANALYZER)
    ensures (Param(r, NUMBER_OF_THREADS).Some? <==> NUMBER_OF_THREADS in p)
  {
    var params := map["models" := YList(QuietModelsConfig(p[QUIET_MODEL].items))];
    Component(QUIET_COLLECTION_ANALYZER, CopyIfPresent(params, p, NUMBER_OF_THREADS))
  }

  /** `_get_data_stores_config`. */
  function DataStoresConfig(p: Parameters): (r: Yaml)
    requires DATA_STORE in p
    ensures r.YList? && |r.items| == 1
  {
    var className :=
      if Get(p, TASK) == Some(Str(QUIET)) && Get(p, PHASE) == Some(Str(LEARN)) then SERIALIZATION_STORE
      else FLAT_FILE_STORE;
    YList([FileComponent(className, ToYaml(p[DATA_STORE]))])
  }

  /** `_get_svm_learner_config`: the representer of the first feature file, without a scaler. */
  function SvmLearnerConfig(p: Parameters): (r: Yaml)
    requires HasList(p, FEATURE_FILE)
    ensures ClassName(r) == Some(SVM_TRAINER)
    ensures Param(r, "find_best_parameters") == Some(YBool(true))
    ensures (Param(r, TARGET_CLASS).Some? <==> TARGET_CLASS in p)
    ensures (Param(r, NUMBER_OF_THREADS).Some? <==> NUMBER_OF_THREADS in p)
    ensures (Param(r, SAMPLE).Some? <==> SAMPLE in p)
  {
    var params := map[
      "find_best_parameters" := YBool(true),
      "representer" := RepresenterConfig(p[FEATURE_FILE].items[0], None)];
    Component(SVM_TRAINER,
      CopyIfPresent(CopyIfPresent(CopyIfPresent(params, p, TARGET_CLASS), p, NUMBER_OF_THREADS), p, SAMPLE))
  }

  /** `_get_quiet_learner_config`: an index directory also turns "overwrite" on. */
  function QuietLearnerConfig(p: Parameters): (r: Yaml)
    requires HasList(p, FEATURE_FILE)
    ensures ClassName(r) == Some(QUERY_EXTRACTOR)
    ensures Param(r, "generate_negative_queries") == Some(YBool(false))
    ensures Param(r, "batch_size") == Some(YInt(10000))
    ensures Param(r, "min_precision") == Some(YReal(0.95))
    ensures Param(r, "min_tp") == Some(YInt(5))
    ensures (Param(r, TARGET_CLASS).Some? <==> TARGET_CLASS in p)
    ensures (Param(r, NUMBER_OF_THREADS).Some? <==> NUMBER_OF_THREADS in p)
    ensures (Param(r, SAMPLE).Some? <==> SAMPLE in p)
  {
    var params := map[
      "features" := FileComponent(FEATURES, YStr(p[FEATURE_FILE].items[0])),
      "generate_negative_queries" := YBool(false),
      "batch_size" := YInt(10000),
      "min_precision" := YReal(0.95),
      "min_tp" := YInt(5)];
    var params1 := CopyIfPresent(CopyIfPresent(params, p, NUMBER_OF_THREADS), p, TARGET_CLASS);
    var params2 := if INDEX_DIR in p then params1[INDEX_DIR := ToYaml(p[INDEX_DIR])][OVERWRITE := YBool(true)] else params1;
    Component(QUERY_EXTRACTOR, CopyIfPresent(params2, p, SAMPLE))
  }

  /** `_get_feature_config`: a falsy or absent size or weight falls back to its default. */
  function FeatureConfig(p: Parameters, task: Task): (r: Yaml)
    ensures ClassName(r) == Some(BNS_WEIGHT_CALCULATOR)
    ensures Param(r, "tokenizer") == Some(TokenizerConfig())
    ensures Param(r, "normalizers") == Some(NormalizersConfig())
    ensures Param(r, "min_df") == Some(YInt(3))
  {
    var params := CopyIfPresent(map[
      "tokenizer" := TokenizerConfig(),
      "normalizers" := NormalizersConfig(),
      "min_df" := YInt(3)], p, TARGET_CLASS);
    var maxSize :=
      if MAX_FEATURE_SIZE in p && Truthy(p[MAX_FEATURE_SIZE]) then ToYaml(p[MAX_FEATURE_SIZE])
      else YInt(DEFAULT_MAX_FEATURE_SIZE);
    var minWeight :=
      if MIN_FEATURE_WEIGHT in p && Truthy(p[MIN_FEATURE_WEIGHT]) then ToYaml(p[MIN_FEATURE_WEIGHT])
      else YReal(DEFAULT_MIN_FEATURE_WEIGHT);
    Component(BNS_WEIGHT_CALCULATOR,
      params[USE_ABSOLUTE_VALUES := YBool(task == Svm)][MAX_FEATURE_SIZE := maxSize][MIN_FEATURE_WEIGHT := minWeight])
  }

  /** `_get_collection_reader_config`: a label field makes the reader a categorized one. */
  function CollectionReaderConfig(p: Parameters): (r: Yaml)
    requires INPUT_FILE in p && ID_FIELD in p && TEXT_FIELD in p
    ensures Param(r, "separator") == Some(YStr("\\t"))
  {
    var params := map[
      FILE_NAME := ToYaml(p[INPUT_FILE]),
      "separator" := YStr("\\t"),
      ID_FIELD := ToYaml(p[ID_FIELD]),
      TEXT_FIELD := ToYaml(p[TEXT_FIELD])];
    if LABEL_FIELD in p then Component(CATEGORIZED_READER, params[LABEL_FIELD := ToYaml(p[LABEL_FIELD])])
    else Component(IDENTIFIABLE_READER, params)
  }

  /** `_get_learner_config`. */
  function LearnerConfig(p: Parameters, task: Task): (r: Yaml)
    requires HasList(p, FEATURE_FILE)
    ensures ClassName(r) == Some(if task == Quiet then QUERY_EXTRACTOR else SVM_TRAINER)
  {
    match task
    case Quiet => QuietLearnerConfig(p)
    case Svm => SvmLearnerConfig(p)
  }

  /** The lists the evaluate and classify builders of a task read. */
  predicate HasModelLists(p: Parameters, task: Task)
  {
    match task
    case Quiet => HasList(p, QUIET_MODEL)
    case Svm => HasList(p, FEATURE_FILE) && HasList(p, SVM_OUTPUT_STEM)
  }

  /** `_get_evaluate_config`. */
  function EvaluateConfig(p: Parameters, task: Task): (r: Yaml)
    requires HasModelLists(p, task)
    ensures ClassName(r) == Some(CLASSIFIER_EVALUATOR)
  {
    match task
    case Quiet => QuietEvaluationConfig(p)
    case Svm => SvmEvaluationConfig(p)
  }

  /** `_get_batch_classifier_config`. */
  function BatchClassifierConfig(p: Parameters, task: Task): (r: Yaml)
    requires HasModelLists(p, task)
    ensures ClassName(r) == Some(if task == Quiet then QUIET_COLLECTION_ANALYZER else CLASSIFIER_COLLECTION_ANALYZER)
  {
    match task
    case Quiet => BatchClassifierConfigQuiet(p)
    case Svm => BatchClassifierConfigSvm(p)
  }

  function TaskOfParams(p: Parameters): Task
    requires Accepted(p)
  {
    TaskOf(Get(p, TASK)).value
  }

  function PhaseOfParams(p: Parameters): Phase
    requires Accepted(p)
  {
    PhaseOf(Get(p, PHASE)).value
  }

  /** What the builders read is there once validation has accepted the parameters. */
  lemma AcceptedHasInputs(p: Parameters)
    requires Accepted(p) && ArgShaped(p)
    ensures INPUT_FILE in p && ID_FIELD in p && TEXT_FIELD in p && DATA_STORE in p
    ensures PhaseOfParams(p) == Learn ==> HasList(p, FEATURE_FILE)
    ensures PhaseOfParams(p) == Evaluate || PhaseOfParams(p) == Classify ==> HasModelLists(p, TaskOfParams(p))
  {
    var t, ph := TaskOfParams(p), PhaseOfParams(p);
    var req := RuleFor(t, ph).required;
    assert forall k :: k in req ==> k in p;
    assert INPUT_FILE in req && ID_FIELD in req && TEXT_FIELD in req && DATA_STORE in req;
    if ph == Learn { assert FEATURE_FILE in req; }
    if (ph == Evaluate || ph == Classify) && t == Quiet { assert QUIET_MODEL in req; }
    if (ph == Evaluate || ph == Classify) && t == Svm { assert FEATURE_FILE in req && SVM_OUTPUT_STEM in req; }
  }

  /** The analyzer section of the phase (the if/elif chain of getConfiguration). */
  function AnalyzerConfig(p: Parameters): (r: Yaml)
    requires Accepted(p) && ArgShaped(p)
    ensures ClassName(r) == Some(
      match PhaseOfParams(p)
      case Feature => BNS_WEIGHT_CALCULATOR
      case Learn => if TaskOfParams(p) == Quiet then QUERY_EXTRACTOR else SVM_TRAINER
      case Evaluate => CLASSIFIER_EVALUATOR
      case Classify => if TaskOfParams(p) == Quiet then QUIET_COLLECTION_ANALYZER else CLASSIFIER_COLLECTION_ANALYZER)
  {
    AcceptedHasInputs(p);
    var task := TaskOfParams(p);
    match PhaseOfParams(p)
    case Feature => FeatureConfig(p, task)
    case Learn => LearnerConfig(p, task)
    case Evaluate => EvaluateConfig(p, task)
    case Classify => BatchClassifierConfig(p, task)
  }

  /** The configuration getConfiguration returns for accepted parameters. */
  function Configuration(p: Parameters): (r: Yaml)
    requires Accepted(p) && ArgShaped(p)
    ensures r.YMap? && r.entries.Keys == {COLLECTION_READER, DATA_STORES, COLLECTION_ANALYZER}
  {
    AcceptedHasInputs(p);
    YMap(map[
      COLLECTION_READER := CollectionReaderConfig(p),
      DATA_STORES := DataStoresConfig(p),
      COLLECTION_ANALYZER := AnalyzerConfig(p)])
  }

  // ---------------------------------------------------------------------------
  // What the configuration promises

  /** The configuration has exactly the reader, the data stores and the analyzer of the phase. */
  lemma ConfigurationSections(p: Parameters)
    requires Accepted(p) && ArgShaped(p)
    ensures Configuration(p).YMap?
    ensures Configuration(p).entries.Keys == {COLLECTION_READER, DATA_STORES, COLLECTION_ANALYZER}
    ensures INPUT_FILE in p && ID_FIELD in p && TEXT_FIELD in p && DATA_STORE in p
    ensures Section(Configuration(p), COLLECTION_READER) == Some(CollectionReaderConfig(p))
    ensures Section(Configuration(p), DATA_STORES) == Some(DataStoresConfig(p))
    ensures Section(Configuration(p), COLLECTION_ANALYZER) == Some(AnalyzerConfig(p))
  {
    AcceptedHasInputs(p);
    ThreeSections(CollectionReaderConfig(p), DataStoresConfig(p), AnalyzerConfig(p));
  }

  /** The lookups in a configuration of three sections. */
  lemma ThreeSections(reader: Yaml, stores: Yaml, analyzer: Yaml)
    ensures var c := YMap(map[COLLECTION_READER := reader, DATA_STORES := stores, COLLECTION_ANALYZER := analyzer]);
      && c.entries.Keys == {COLLECTION_READER, DATA_STORES, COLLECTION_ANALYZER}
      && Section(c, COLLECTION_READER) == Some(reader)
      && Section(c, DATA_STORES) == Some(stores)
      && Section(c, COLLECTION_ANALYZER) == Some(analyzer)
  {
    assert COLLECTION_READER[0] != DATA_STORES[0];
    assert COLLECTION_ANALYZER[0] != DATA_STORES[0];
    assert COLLECTION_ANALYZER[11] != COLLECTION_READER[11];
  }

  /** The analyzer section is the builder of the phase and task: the feature calculator, the
    * learner, the evaluator or the batch classifier. */
  lemma AnalyzerOfPhase(p: Parameters)
    requires Accepted(p) && ArgShaped(p)
    ensures var t, ph := TaskOfParams(p), PhaseOfParams(p);
      && (ph == Feature ==> AnalyzerConfig(p) == FeatureConfig(p, t))
      && (ph == Learn ==>
            HasList(p, FEATURE_FILE)
            && AnalyzerConfig(p) == if t == Quiet then QuietLearnerConfig(p) else SvmLearnerConfig(p))
      && (ph == Evaluate && t == Quiet ==> HasList(p, QUIET_MODEL) && AnalyzerConfig(p) == QuietEvaluationConfig(p))
      && (ph == Evaluate && t == Svm ==>
            HasList(p, FEATURE_FILE) && HasList(p, SVM_OUTPUT_STEM)
            && AnalyzerConfig(p) == SvmEvaluationConfig(p))
      && (ph == Classify && t == Quiet ==> HasList(p, QUIET_MODEL) && AnalyzerConfig(p) == BatchClassifierConfigQuiet(p))
      && (ph == Classify && t == Svm ==>
            HasList(p, FEATURE_FILE) && HasList(p, SVM_OUTPUT_STEM)
            && AnalyzerConfig(p) == BatchClassifierConfigSvm(p))
  {
    AcceptedHasInputs(p);
  }

  /** The data store is a SerializationStore exactly for quiet learning, a FlatFileStore
    * otherwise, and it writes to the data_store path. */
  lemma DataStoreChoice(p: Parameters)
    requires DATA_STORE in p
    ensures var stores := DataStoresConfig(p);
      stores.YList? && |stores.items| == 1
      && ClassName(stores.items[0]) == Some(
           if Get(p, TASK) == Some(Str(QUIET)) && Get(p, PHASE) == Some(Str(LEARN)) then SERIALIZATION_STORE
           else FLAT_FILE_STORE)
      && Param(stores.items[0], FILE_NAME) == Some(ToYaml(p[DATA_STORE]))
  {
  }

  /** The reader is the categorized one exactly when a label field is given, and only then
    * carries it; it always reads the input file with a tab separator. */
  lemma ReaderChoice(p: Parameters)
    requires INPUT_FILE in p && ID_FIELD in p && TEXT_FIELD in p
    ensures var reader := CollectionReaderConfig(p);
      ClassName(reader) == Some(if LABEL_FIELD in p then CATEGORIZED_READER else IDENTIFIABLE_READER)
      && (Param(reader, LABEL_FIELD).Some? <==> LABEL_FIELD in p)
      && Param(reader, FILE_NAME) == Some(ToYaml(p[INPUT_FILE]))
      && Param(reader, ID_FIELD) == Some(ToYaml(p[ID_FIELD]))
      && Param(reader, TEXT_FIELD) == Some(ToYaml(p[TEXT_FIELD]))
  {
  }

  /** Feature selection: the size and weight fall back to 40000 and 0.01 when absent or falsy,
    * and absolute values are used for svm only. */
  lemma FeatureDefaults(p: Parameters, task: Task)
    ensures var a := FeatureConfig(p, task);
      ClassName(a) == Some(BNS_WEIGHT_CALCULATOR)
      && Param(a, MAX_FEATURE_SIZE) == Some(
           if MAX_FEATURE_SIZE in p && Truthy(p[MAX_FEATURE_SIZE]) then ToYaml(p[MAX_FEATURE_SIZE]) else YInt(40000))
      && Param(a, MIN_FEATURE_WEIGHT) == Some(
           if MIN_FEATURE_WEIGHT in p && Truthy(p[MIN_FEATURE_WEIGHT]) then ToYaml(p[MIN_FEATURE_WEIGHT]) else YReal(0.01))
      && Param(a, USE_ABSOLUTE_VALUES) == Some(YBool(task == Svm))
      && (Param(a, TARGET_CLASS).Some? <==> TARGET_CLASS in p)
  {
  }

  /** The files of one svm text classifier all derive from its stem, and its representer reads
    * the paired feature file and scales with the stem's range file. */
  lemma SvmAnalyzerFiles(featureFile: string, stem: string)
    ensures var a := SvmAnalyzerConfig(featureFile, stem);
      ClassName(a) == Some(TEXT_CLASSIFIER)
      && Param(a, "model") == Some(FileComponent(RESOURCE_READER, YStr(stem + ".model")))
      && Param(a, "labels") == Some(FileComponent(RESOURCE_READER, YStr(stem + ".labels")))
      && Param(a, "representer").Some?
      && Param(Param(a, "representer").value, "features") == Some(FileComponent(FEATURES, YStr(featureFile)))
      && Param(Param(a, "representer").value, SCALER) == Some(FileComponent(VALUE_SCALER, YStr(stem + ".range")))
  {
    assert stem + ".range" != [];
  }

  /** The svm learner's representer has no scaler: the range file is written by training. */
  lemma SvmLearnerUnscaled(p: Parameters)
    requires HasList(p, FEATURE_FILE)
    ensures var a := SvmLearnerConfig(p);
      ClassName(a) == Some(SVM_TRAINER)
      && Param(a, "representer").Some?
      && Param(Param(a, "representer").value, SCALER).None?
      && Param(Param(a, "representer").value, "features") == Some(FileComponent(FEATURES, YStr(p[FEATURE_FILE].items[0])))
  {
  }

  /** Svm batch classification builds one text classifier per (feature file, stem) pair, in
    * order; accepted parameters have as many stems as feature files. */
  lemma SvmClassifyPairs(p: Parameters)
    requires HasList(p, FEATURE_FILE) && HasList(p, SVM_OUTPUT_STEM)
    requires |p[FEATURE_FILE].items| == |p[SVM_OUTPUT_STEM].items|
    ensures var a := BatchClassifierConfigSvm(p);
      ClassName(a) == Some(CLASSIFIER_COLLECTION_ANALYZER)
      && Param(a, "analyzer").Some?
      && var multi := Param(a, "analyzer").value;
         ClassName(multi) == Some(MULTI_MODEL_CLASSIFIER)
         && Param(multi, "analyzers").Some? && Param(multi, "analyzers").value.YList?
         && var analyzers := Param(multi, "analyzers").value.items;
            |analyzers| == |p[FEATURE_FILE].items|
            && forall i :: 0 <= i < |analyzers| ==>
                 analyzers[i] == SvmAnalyzerConfig(p[FEATURE_FILE].items[i], p[SVM_OUTPUT_STEM].items[i])
  {
  }

  /** Quiet batch classification loads every quiet model, in order. */
  lemma QuietClassifyModels(p: Parameters)
    requires HasList(p, QUIET_MODEL)
    ensures var a := BatchClassifierConfigQuiet(p);
      ClassName(a) == Some(QUIET_COLLECTION_ANALYZER)
      && Param(a, "models").Some? && Param(a, "models").value.YList?
      && var models := Param(a, "models").value.items;
         |models| == |p[QUIET_MODEL].items|
         && forall i :: 0 <= i < |models| ==> models[i] == QuietModelConfig(p[QUIET_MODEL].items[i])
  {
  }

  /** Quiet evaluation loads the first quiet model, scans thresholds 0.005..1.0 by 0.005 and,
    * unlike svm evaluation, never passes a target class. */
  lemma QuietEvaluation(p: Parameters)
    requires HasList(p, QUIET_MODEL)
    ensures var a := QuietEvaluationConfig(p);
      ClassName(a) == Some(CLASSIFIER_EVALUATOR)
      && Param(a, "min_threshold") == Some(YReal(0.005))
      && Param(a, "max_threshold") == Some(YReal(1.0))
      && Param(a, "threshold_step") == Some(YReal(0.005))
      && Param(a, TARGET_CLASS).None?
      && Param(a, "analyzer") == Some(Component(HUMMING_BIRD_ANALYZER, map["model" := QuietModelConfig(p[QUIET_MODEL].items[0])]))
  {
  }

  /** Svm evaluation scans thresholds 0.05..1.0 by 0.05 and passes the target class exactly when given. */
  lemma SvmEvaluation(p: Parameters)
    requires HasList(p, FEATURE_FILE) && HasList(p, SVM_OUTPUT_STEM)
    ensures var a := SvmEvaluationConfig(p);
      ClassName(a) == Some(CLASSIFIER_EVALUATOR)
      && Param(a, "min_threshold") == Some(YReal(0.05))
      && Param(a, "max_threshold") == Some(YReal(1.0))
      && Param(a, "threshold_step") == Some(YReal(0.05))
      && (Param(a, TARGET_CLASS).Some? <==> TARGET_CLASS in p)
      && Param(a, "analyzer") == Some(SvmAnalyzerConfig(p[FEATURE_FILE].items[0], p[SVM_OUTPUT_STEM].items[0]))
  {
  }

  /** Quiet learning overwrites the index exactly when an index directory is given. */
  lemma QuietLearnerIndex(p: Parameters)
    requires HasList(p, FEATURE_FILE)
    ensures var a := QuietLearnerConfig(p);
      ClassName(a) == Some(QUERY_EXTRACTOR)
      && (Param(a, OVERWRITE) == Some(YBool(true)) <==> INDEX_DIR in p)
      && (Param(a, OVERWRITE).None? <==> INDEX_DIR !in p)
      && (Param(a, INDEX_DIR).Some? <==> INDEX_DIR in p)
      && Param(a, "features") == Some(FileComponent(FEATURES, YStr(p[FEATURE_FILE].items[0])))
  {
  }

  /** The generator object: getConfiguration stores the caller's dictionary in `parameters`,
    * and a failed validation writes the joined messages into it under "error". */
  class YamlFileGenerator {
    var parameters: Parameters

    constructor()
      ensures parameters == map[]
    {
      parameters := map[];
    }

    /** `_validate`. */
    method Validate() returns (ok: bool)
      requires ArgShaped(parameters)
      modifies this
      ensures ok <==> Accepted(old(parameters))
      ensures ok ==> parameters == old(parameters)
      ensures !ok ==> parameters == old(parameters)[ERROR := Str(Join("\n", ExpectedErrors(old(parameters))))]
    {
      var errors, used := CheckParameters(parameters);
      ok := true;
      if |used| != |parameters| {
        ok := false;
        DifferenceNonEmpty(used, parameters.Keys);
      }
      if |errors| > 0 {
        parameters := parameters[ERROR := Str(Join("\n", errors))];
        ok := false;
      }
      ValidationPassesIff(old(parameters));
    }

    /** `getConfiguration`: the configuration of accepted parameters, or the exception
      * "Validation failed." after the messages have been stored under "error". */
    method GetConfiguration(p: Parameters) returns (r: Result<Yaml>)
      requires ArgShaped(p)
      modifies this
      ensures Accepted(p) ==> r == Ok(Configuration(p)) && parameters == p
      ensures !Accepted(p) ==> r == Err("Validation failed.") && parameters == p[ERROR := Str(Join("\n", ExpectedErrors(p)))]
    {
      parameters := p;
      var ok := Validate();
      if ok {
        r := Ok(Configuration(parameters));
      } else {
        r := Err("Validation failed.");
      }
    }
  }
}
