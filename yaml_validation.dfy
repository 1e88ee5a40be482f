/**
 * The parameter validation of the YAML job-file generator (script/generate_yaml_file.py).
 *
 * A parameter dictionary is checked against the rule of its (task, phase) pair:
 * required keys are claimed or reported missing, optional keys are claimed when
 * present, some phases constrain list lengths, and every key nobody claimed is
 * reported in one sorted, comma-joined message.
 *
 * The methods below are the source's loops; `ExpectedErrors` and `ExpectedUsed`
 * are the declarative reference they are proved against, and the lemmas state what
 * the reference promises.
 */
module YamlValidation {
  import opened Wrappers
  import opened JavaText

  // Tasks and phases
  const SVM := "svm"
  const QUIET := "quiet"
  const FEATURE := "feature"
  const LEARN := "learn"
  const EVALUATE := "evaluate"
  const CLASSIFY := "classify"

  // Parameter keys
  const TASK := "task"
  const PHASE := "phase"
  const INPUT_FILE := "input_file"
  const ID_FIELD := "id_field"
  const LABEL_FIELD := "label_field"
  const TEXT_FIELD := "text_field"
  const NUMBER_OF_THREADS := "number_of_threads"
  const TARGET_CLASS := "target_class"
  const MAX_FEATURE_SIZE := "max_feature_size"
  const MIN_FEATURE_WEIGHT := "min_feature_weight"
  const SAMPLE := "sample"
  const FEATURE_FILE := "feature_file"
  const SVM_OUTPUT_STEM := "svm_output_stem"
  const QUIET_MODEL := "quiet_model"
  const INDEX_DIR := "index_dir"
  const DATA_STORE := "data_store"
  const ERROR := "error"

  const TASK_ERROR := "Task unknown or not specified."
  const PHASE_ERROR := "Phase unknown or not specified."

  /** A parameter value as the command-line parser produces it. */
  datatype Value = Str(s: string) | Int(i: int) | Float(f: real) | StrList(items: seq<string>)

  type Parameters = map<string, Value>

  /** The keys the command line declares with nargs="+". */
  predicate IsListKey(k: string) { k == FEATURE_FILE || k == SVM_OUTPUT_STEM || k == QUIET_MODEL }

  /** Every list key that is present holds a non-empty list, as the command-line parser guarantees. */
  predicate ArgShaped(p: Parameters)
  {
    forall k :: k in p && IsListKey(k) ==> p[k].StrList? && |p[k].items| > 0
  }

  /** Python's len() on a value that has one. */
  function Len(v: Value): Option<nat>
  {
    match v
    case Str(s) => Some(|s|)
    case StrList(items) => Some(|items|)
    case _ => None
  }

  /** The constraint a phase puts on list lengths. */
  datatype Constraint =
    | NoConstraint
    | LengthIs(keys: seq<string>, n: nat)
    | EqualLengths(key1: string, key2: string)

  /** One entry of the (task, phase) rule table. */
  datatype Rule = Rule(required: seq<string>, optional: seq<string>, constraint: Constraint)

  datatype Task = Svm | Quiet
  datatype Phase = Feature | Learn | Evaluate | Classify

  /** `task in TASKS`, and which task it names. */
  function TaskOf(v: Option<Value>): Option<Task>
  {
    if v == Some(Str(SVM)) then Some(Svm) else if v == Some(Str(QUIET)) then Some(Quiet) else None
  }

  /** `phase in PHASES`, and which phase it names. */
  function PhaseOf(v: Option<Value>): Option<Phase>
  {
    if v == Some(Str(FEATURE)) then Some(Feature)
    else if v == Some(Str(LEARN)) then Some(Learn)
    else if v == Some(Str(EVALUATE)) then Some(Evaluate)
    else if v == Some(Str(CLASSIFY)) then Some(Classify)
    else None
  }

  function Get(p: Parameters, k: string): Option<Value>
  {
    if k in p then Some(p[k]) else None
  }

  /** The branches of `_validate`: what each (task, phase) requires, allows and constrains. */
  function RuleFor(t: Task, ph: Phase): Rule
  {
    match (t, ph)
    case (Quiet, Feature) =>
      Rule([INPUT_FILE, ID_FIELD, TEXT_FIELD, LABEL_FIELD, DATA_STORE],
           [TARGET_CLASS, MAX_FEATURE_SIZE, MIN_FEATURE_WEIGHT], NoConstraint)
    case (Quiet, Learn) =>
      Rule([INPUT_FILE, ID_FIELD, TEXT_FIELD, LABEL_FIELD, FEATURE_FILE, DATA_STORE, TARGET_CLASS],
           [NUMBER_OF_THREADS, INDEX_DIR, SAMPLE], NoConstraint)
    case (Quiet, Evaluate) =>
      Rule([INPUT_FILE, ID_FIELD, TEXT_FIELD, LABEL_FIELD, QUIET_MODEL, DATA_STORE],
           [TARGET_CLASS], LengthIs([QUIET_MODEL], 1))
    case (Quiet, Classify) =>
      Rule([INPUT_FILE, ID_FIELD, TEXT_FIELD, QUIET_MODEL, DATA_STORE],
           [NUMBER_OF_THREADS], NoConstraint)
    case (Svm, Feature) =>
      Rule([INPUT_FILE, ID_FIELD, TEXT_FIELD, LABEL_FIELD, DATA_STORE],
           [TARGET_CLASS, MAX_FEATURE_SIZE, MIN_FEATURE_WEIGHT], NoConstraint)
    case (Svm, Learn) =>
      Rule([INPUT_FILE, ID_FIELD, TEXT_FIELD, LABEL_FIELD, FEATURE_FILE, DATA_STORE],
           [TARGET_CLASS, NUMBER_OF_THREADS, SAMPLE], NoConstraint)
    case (Svm, Evaluate) =>
      Rule([INPUT_FILE, ID_FIELD, TEXT_FIELD, LABEL_FIELD, FEATURE_FILE, SVM_OUTPUT_STEM, DATA_STORE],
           [TARGET_CLASS], LengthIs([FEATURE_FILE, SVM_OUTPUT_STEM], 1))
    case (Svm, Classify) =>
      Rule([INPUT_FILE, ID_FIELD, TEXT_FIELD, FEATURE_FILE, SVM_OUTPUT_STEM, DATA_STORE],
           [NUMBER_OF_THREADS], EqualLengths(FEATURE_FILE, SVM_OUTPUT_STEM))
  }

  /** The rule that applies to p, if both its task and its phase are known. */
  function ParamRule(p: Parameters): Option<Rule>
  {
    var t, ph := TaskOf(Get(p, TASK)), PhaseOf(Get(p, PHASE));
    if t.Some? && ph.Some? then Some(RuleFor(t.value, ph.value)) else None
  }

  // ---------------------------------------------------------------------------
  // The reference: which errors and which claimed keys validation must produce

  function MissingMessage(k: string): string { k + " not specified." }

  function LengthMessage(k: string, n: nat): string { "Length of " + k + " must be " + NatToString(n) + "." }

  function LengthsMessage(k1: string, k2: string): string { "Lengths of " + k1 + " and " + k2 + " are not equal." }

  function UnknownMessage(keys: seq<string>): string
  {
    "Don't know what to do with option(s) [" + Join(",", keys) + "]"
  }

  /** The "not specified" messages for the absent keys of ks, in the order of ks. */
  function MissingErrors(p: Parameters, ks: seq<string>): seq<string>
  {
    if ks == [] then []
    else MissingErrors(p, ks[..|ks| - 1]) + (if ks[|ks| - 1] in p then [] else [MissingMessage(ks[|ks| - 1])])
  }

  /** The keys of ks that are present in p. */
  function Present(p: Parameters, ks: seq<string>): set<string>
  {
    set k | k in ks && k in p
  }

  predicate HasLength(p: Parameters, k: string, n: nat)
  {
    k in p && Len(p[k]) == Some(n)
  }

  predicate SameLengths(p: Parameters, k1: string, k2: string)
  {
    k1 in p && k2 in p && Len(p[k1]) == Len(p[k2])
  }

  function LengthErrors(p: Parameters, ks: seq<string>, n: nat): seq<string>
  {
    if ks == [] then []
    else LengthErrors(p, ks[..|ks| - 1], n) + (if HasLength(p, ks[|ks| - 1], n) then [] else [LengthMessage(ks[|ks| - 1], n)])
  }

  function ConstraintErrors(p: Parameters, c: Constraint): seq<string>
  {
    match c
    case NoConstraint => []
    case LengthIs(ks, n) => LengthErrors(p, ks, n)
    case EqualLengths(k1, k2) => if SameLengths(p, k1, k2) then [] else [LengthsMessage(k1, k2)]
  }

  predicate KnownTask(p: Parameters) { TaskOf(Get(p, TASK)).Some? }

  predicate KnownPhase(p: Parameters) { PhaseOf(Get(p, PHASE)).Some? }

  /** The keys the rule of p claims. */
  function RuleUsed(p: Parameters): set<string>
  {
    match ParamRule(p)
    case None => {}
    case Some(r) => Present(p, r.required) + Present(p, r.optional)
  }

  /** The keys `_validate` claims. */
  function ExpectedUsed(p: Parameters): (u: set<string>)
    ensures u <= p.Keys
  {
    HeadUsed(p) + RuleUsed(p)
  }

  /** A string is the smallest element of a set. */
  predicate IsLeast(m: string, s: set<string>)
  {
    m in s && forall x :: x in s ==> LexLe(m, x)
  }

  lemma {:induction false} LeastExists(s: set<string>)
    requires s != {}
    ensures exists m :: IsLeast(m, s)
    decreases |s|
  {
    var x :| x in s;
    LexLeReflexive(x);
    if s == {x} {
      assert IsLeast(x, s);
    } else {
      LeastExists(s - {x});
      var m :| IsLeast(m, s - {x});
      LexLeTotal(m, x);
      if LexLe(m, x) {
        assert IsLeast(m, s);
      } else {
        forall y | y in s ensures LexLe(x, y) {
          if y != x { LexLeTransitive(x, m, y); }
        }
        assert IsLeast(x, s);
      }
    }
  }

  lemma LeastUnique(m1: string, m2: string, s: set<string>)
    requires IsLeast(m1, s) && IsLeast(m2, s)
    ensures m1 == m2
  {
    LexLeAntisymmetric(m1, m2);
  }

  /** Python's sorted() of a set of strings. */
  ghost function SortedOf(s: set<string>): seq<string>
    decreases |s|
  {
    if s == {} then []
    else
      LeastExists(s);
      var m :| IsLeast(m, s);
      [m] + SortedOf(s - {m})
  }

  lemma SortedOfUnfold(s: set<string>, m: string)
    requires IsLeast(m, s)
    ensures SortedOf(s) == [m] + SortedOf(s - {m})
  {
    var c := SortedOf(s)[0];
    assert IsLeast(c, s) && SortedOf(s) == [c] + SortedOf(s - {c});
    LeastUnique(m, c, s);
  }

  predicate Ascending(r: seq<string>)
  {
    forall i, j :: 0 <= i < j < |r| ==> LexLe(r[i], r[j]) && r[i] != r[j]
  }

  /** sorted() lists every element of the set once, in ascending order. */
  lemma {:induction false} SortedOfSpec(s: set<string>)
    ensures Ascending(SortedOf(s))
    ensures forall x :: x in SortedOf(s) <==> x in s
    ensures |SortedOf(s)| == |s|
    decreases |s|
  {
    if s != {} {
      LeastExists(s);
      var m :| IsLeast(m, s);
      SortedOfUnfold(s, m);
      SortedOfSpec(s - {m});
      var r := SortedOf(s);
      forall i, j | 0 <= i < j < |r| ensures LexLe(r[i], r[j]) && r[i] != r[j] {
        if i == 0 {
          assert r[j] in SortedOf(s - {m});
        } else {
          assert r[i] == SortedOf(s - {m})[i - 1] && r[j] == SortedOf(s - {m})[j - 1];
        }
      }
    }
  }

  ghost function UnknownErrors(p: Parameters, used: set<string>): seq<string>
  {
    if p.Keys - used == {} then [] else [UnknownMessage(SortedOf(p.Keys - used))]
  }

  /** The messages of the rule of p: its missing keys, then its length constraint. */
  function RuleErrors(p: Parameters): seq<string>
  {
    match ParamRule(p)
    case None => []
    case Some(r) => MissingErrors(p, r.required) + ConstraintErrors(p, r.constraint)
  }

  function HeadErrors(p: Parameters): seq<string>
  {
    (if KnownTask(p) then [] else [TASK_ERROR]) + (if KnownPhase(p) then [] else [PHASE_ERROR])
  }

  /** Every message `_validate` produces, in the order it produces them. */
  ghost function ExpectedErrors(p: Parameters): seq<string>
  {
    HeadErrors(p) + RuleErrors(p) + UnknownErrors(p, ExpectedUsed(p))
  }

  predicate ConstraintHolds(p: Parameters, c: Constraint)
  {
    match c
    case NoConstraint => true
    case LengthIs(ks, n) => forall k :: k in ks ==> HasLength(p, k, n)
    case EqualLengths(k1, k2) => SameLengths(p, k1, k2)
  }

  /** What an accepted parameter set looks like, stated without the error list. */
  predicate Accepted(p: Parameters)
  {
    ParamRule(p).Some?
    && var r := ParamRule(p).value;
       (forall k :: k in r.required ==> k in p)
       && ConstraintHolds(p, r.constraint)
       && (forall k :: k in p ==> k == TASK || k == PHASE || k in r.required || k in r.optional)
  }

  // ---------------------------------------------------------------------------
  // Properties of the reference

  /** One "k not specified." message per absent key, and nothing else. */
  lemma {:induction false} MissingErrorsSpec(p: Parameters, ks: seq<string>)
    ensures forall k :: k in ks && k !in p ==> MissingMessage(k) in MissingErrors(p, ks)
    ensures forall e :: e in MissingErrors(p, ks) ==> exists k :: k in ks && k !in p && e == MissingMessage(k)
    ensures MissingErrors(p, ks) == [] <==> forall k :: k in ks ==> k in p
  {
    if ks != [] {
      var init, last := ks[..|ks| - 1], ks[|ks| - 1];
      MissingErrorsSpec(p, init);
      assert ks == init + [last];
      var m := MissingErrors(p, ks);
      assert m == MissingErrors(p, init) + (if last in p then [] else [MissingMessage(last)]);
      forall k | k in ks && k !in p ensures MissingMessage(k) in m {
        if k != last { assert k in init; }
      }
      forall e | e in m ensures exists k :: k in ks && k !in p && e == MissingMessage(k) {
        if e in MissingErrors(p, init) {
          var k :| k in init && k !in p && e == MissingMessage(k);
          assert k in ks;
        } else {
          assert e == MissingMessage(last) && last in ks;
        }
      }
      if m != [] {
        var e := m[0];
        assert e in m;
      }
    }
  }

  lemma {:induction false} LengthErrorsSpec(p: Parameters, ks: seq<string>, n: nat)
    ensures LengthErrors(p, ks, n) == [] <==> forall k :: k in ks ==> HasLength(p, k, n)
    ensures forall e :: e in LengthErrors(p, ks, n) ==> exists k :: k in ks && e == LengthMessage(k, n)
  {
    if ks != [] {
      var init := ks[..|ks| - 1];
      LengthErrorsSpec(p, init, n);
      assert ks == init + [ks[|ks| - 1]];
      assert forall k :: k in ks <==> k in init || k == ks[|ks| - 1];
    }
  }

  lemma RuleErrorsEmpty(p: Parameters, r: Rule)
    requires ParamRule(p) == Some(r)
    ensures RuleErrors(p) == [] <==> (forall k :: k in r.required ==> k in p) && ConstraintHolds(p, r.constraint)
  {
    MissingErrorsSpec(p, r.required);
    match r.constraint
    case NoConstraint =>
    case LengthIs(ks, n) => LengthErrorsSpec(p, ks, n);
    case EqualLengths(_, _) =>
  }

  /** Validation produces no message exactly when the parameters are accepted. */
  lemma ValidationPassesIff(p: Parameters)
    ensures ExpectedErrors(p) == [] <==> Accepted(p)
  {
    var used := ExpectedUsed(p);
    assert UnknownErrors(p, used) == [] <==> p.Keys <= used;
    if ParamRule(p).Some? {
      var r := ParamRule(p).value;
      RuleErrorsEmpty(p, r);
      assert KnownTask(p) && KnownPhase(p);
      assert p.Keys <= used <==> forall k :: k in p ==> k == TASK || k == PHASE || k in r.required || k in r.optional;
    }
  }

  predicate StartsLower(k: string) { |k| > 0 && 'a' <= k[0] <= 'z' }

  /** What the lemmas below need to know about a key of the rule table. */
  predicate TableKey(k: string) { StartsLower(k) && |k| > 5 }

  lemma TableKeys()
    ensures TableKey(INPUT_FILE) && TableKey(ID_FIELD) && TableKey(TEXT_FIELD) && TableKey(LABEL_FIELD)
    ensures TableKey(DATA_STORE) && TableKey(FEATURE_FILE) && TableKey(TARGET_CLASS) && TableKey(QUIET_MODEL)
    ensures TableKey(SVM_OUTPUT_STEM) && TableKey(MAX_FEATURE_SIZE) && TableKey(MIN_FEATURE_WEIGHT)
    ensures TableKey(NUMBER_OF_THREADS) && TableKey(INDEX_DIR) && TableKey(SAMPLE)
  {
  }

  /** Every key of the rule table begins with a lower-case letter and is longer than "phase";
    * the keys a length constraint names are list keys. */
  lemma RuleKeys(t: Task, ph: Phase)
    ensures forall k :: k in RuleFor(t, ph).required ==> TableKey(k)
    ensures forall k :: k in RuleFor(t, ph).optional ==> TableKey(k)
    ensures forall k :: k in ConstraintKeys(RuleFor(t, ph).constraint) ==> IsListKey(k)
  {
    TableKeys();
    match (t, ph)
    case (Quiet, Feature) =>
    case (Quiet, Learn) =>
    case (Quiet, Evaluate) =>
    case (Quiet, Classify) =>
    case (Svm, Feature) =>
    case (Svm, Learn) =>
    case (Svm, Evaluate) =>
    case (Svm, Classify) =>
  }

  lemma {:induction false} MissingErrorsStartLower(p: Parameters, ks: seq<string>)
    requires forall k :: k in ks ==> StartsLower(k)
    ensures forall e :: e in MissingErrors(p, ks) ==> StartsLower(e)
  {
    if ks != [] {
      MissingErrorsStartLower(p, ks[..|ks| - 1]);
      assert ks[|ks| - 1] in ks;
    }
  }

  lemma {:induction false} LengthErrorsStartWithL(p: Parameters, ks: seq<string>, n: nat)
    ensures forall e :: e in LengthErrors(p, ks, n) ==> |e| > 0 && e[0] == 'L'
  {
    if ks != [] {
      LengthErrorsStartWithL(p, ks[..|ks| - 1], n);
    }
  }

  /** None of the messages after the task and phase checks begins with 'T' or 'P'. */
  lemma LaterMessagesStartOtherwise(p: Parameters)
    ensures forall e :: e in RuleErrors(p) + UnknownErrors(p, ExpectedUsed(p)) ==> |e| > 0 && e[0] != 'T' && e[0] != 'P'
  {
    if ParamRule(p).Some? {
      var t, ph := TaskOf(Get(p, TASK)).value, PhaseOf(Get(p, PHASE)).value;
      var r := RuleFor(t, ph);
      RuleKeys(t, ph);
      MissingErrorsStartLower(p, r.required);
      match r.constraint
      case NoConstraint =>
      case LengthIs(ks, n) => LengthErrorsStartWithL(p, ks, n);
      case EqualLengths(_, _) =>
    }
  }

  lemma RuleNeverClaimsTaskOrPhase(p: Parameters)
    ensures TASK !in RuleUsed(p) && PHASE !in RuleUsed(p)
  {
    if ParamRule(p).Some? {
      RuleKeys(TaskOf(Get(p, TASK)).value, PhaseOf(Get(p, PHASE)).value);
    }
  }

  /** The task and phase messages appear only at the head of the list. */
  lemma HeadMessagesOnlyAtHead(p: Parameters)
    ensures TASK_ERROR !in RuleErrors(p) + UnknownErrors(p, ExpectedUsed(p))
    ensures PHASE_ERROR !in RuleErrors(p) + UnknownErrors(p, ExpectedUsed(p))
    ensures TASK_ERROR != PHASE_ERROR
  {
    LaterMessagesStartOtherwise(p);
    assert TASK_ERROR[0] == 'T' && PHASE_ERROR[0] == 'P';
  }

  /** Where the two head messages land in a list that starts with the optional head pair. */
  lemma HeadPlacement(a: bool, b: bool, x: string, y: string, r: seq<string>, u: seq<string>)
    requires x != y && x !in r + u && y !in r + u
    ensures var s := (if a then [] else [x]) + (if b then [] else [y]) + r + u;
      && (!a ==> s[0] == x) && (a ==> x !in s)
      && (!b ==> s[if a then 0 else 1] == y) && (b ==> y !in s)
  {
    var h := (if a then [] else [x]) + (if b then [] else [y]);
    assert h + r + u == h + (r + u);
    assert forall z :: z in h + (r + u) <==> z in h || z in r + u;
  }

  /** A missing or unknown task is reported first and leaves "task" unclaimed; a known
    * task is claimed and never reported. */
  lemma TaskReported(p: Parameters)
    ensures !KnownTask(p) ==> ExpectedErrors(p)[0] == TASK_ERROR && TASK !in ExpectedUsed(p)
    ensures KnownTask(p) ==> TASK_ERROR !in ExpectedErrors(p) && TASK in ExpectedUsed(p)
  {
    RuleNeverClaimsTaskOrPhase(p);
    HeadMessagesOnlyAtHead(p);
    HeadPlacement(KnownTask(p), KnownPhase(p), TASK_ERROR, PHASE_ERROR, RuleErrors(p), UnknownErrors(p, ExpectedUsed(p)));
  }

  /** The phase is checked the same way, right after the task. */
  lemma PhaseReported(p: Parameters)
    ensures !KnownPhase(p) ==> ExpectedErrors(p)[if KnownTask(p) then 0 else 1] == PHASE_ERROR && PHASE !in ExpectedUsed(p)
    ensures KnownPhase(p) ==> PHASE_ERROR !in ExpectedErrors(p) && PHASE in ExpectedUsed(p)
  {
    RuleNeverClaimsTaskOrPhase(p);
    HeadMessagesOnlyAtHead(p);
    HeadPlacement(KnownTask(p), KnownPhase(p), TASK_ERROR, PHASE_ERROR, RuleErrors(p), UnknownErrors(p, ExpectedUsed(p)));
  }

  /** Optional keys are claimed exactly when present and never cause a message of their own. */
  lemma OptionalKeysClaimed(p: Parameters, k: string)
    requires ParamRule(p).Some? && k in ParamRule(p).value.optional
    ensures k in ExpectedUsed(p) <==> k in p
  {
  }

  /** Every key nobody claimed is listed, sorted, in one final message. */
  lemma UnknownKeysReported(p: Parameters)
    ensures p.Keys <= ExpectedUsed(p) ==> UnknownErrors(p, ExpectedUsed(p)) == []
    ensures !(p.Keys <= ExpectedUsed(p)) ==>
      exists ks :: UnknownErrors(p, ExpectedUsed(p)) == [UnknownMessage(ks)]
        && Ascending(ks) && (forall k :: k in ks <==> k in p && k !in ExpectedUsed(p))
  {
    SortedOfSpec(p.Keys - ExpectedUsed(p));
  }

  // ---------------------------------------------------------------------------
  // The source's helpers, as loops over their key lists

  /** `_validate_presence_of`: claims each present key and reports each absent one. */
  method ValidatePresenceOf(p: Parameters, keys: seq<string>, errors: seq<string>, used: set<string>)
    returns (ok: bool, errors': seq<string>, used': set<string>)
    ensures errors' == errors + MissingErrors(p, keys)
    ensures used' == used + Present(p, keys)
    ensures ok <==> forall k :: k in keys ==> k in p
  {
    ok, errors', used' := true, errors, used;
    var i := 0;
    while i < |keys|
      invariant 0 <= i <= |keys|
      invariant errors' == errors + MissingErrors(p, keys[..i])
      invariant used' == used + Present(p, keys[..i])
      invariant ok <==> forall k :: k in keys[..i] ==> k in p
    {
      var key := keys[i];
      assert keys[..i + 1] == keys[..i] + [key];
      assert keys[..i + 1][..i] == keys[..i];
      if key in p {
        used' := used' + {key};
      } else {
        errors' := errors' + [MissingMessage(key)];
        ok := false;
      }
      i := i + 1;
    }
    assert keys[..i] == keys;
  }

  /** `_validate_optional_params`: claims each present key. */
  method ValidateOptionalParams(p: Parameters, keys: seq<string>, used: set<string>) returns (used': set<string>)
    ensures used' == used + Present(p, keys)
  {
    used' := used;
    for i := 0 to |keys|
      invariant used' == used + Present(p, keys[..i])
    {
      assert keys[..i + 1] == keys[..i] + [keys[i]];
      if keys[i] in p {
        used' := used' + {keys[i]};
      }
    }
    assert keys[..|keys|] == keys;
  }

  /** `_validate_length_equals`. */
  method ValidateLengthEquals(p: Parameters, key: string, n: nat, errors: seq<string>)
    returns (ok: bool, errors': seq<string>)
    requires ArgShaped(p) && IsListKey(key)
    ensures ok == HasLength(p, key, n)
    ensures errors' == errors + (if ok then [] else [LengthMessage(key, n)])
  {
    var theList := Get(p, key);
    if theList.None? || Len(theList.value) != Some(n) {
      return false, errors + [LengthMessage(key, n)];
    }
    return true, errors;
  }

  /** `_validate_list_lengths_equal`. */
  method ValidateListLengthsEqual(p: Parameters, key1: string, key2: string, errors: seq<string>)
    returns (ok: bool, errors': seq<string>)
    requires ArgShaped(p) && IsListKey(key1) && IsListKey(key2)
    ensures ok == SameLengths(p, key1, key2)
    ensures errors' == errors + (if ok then [] else [LengthsMessage(key1, key2)])
  {
    var list1 := Get(p, key1);
    var list2 := Get(p, key2);
    if list1.None? || list2.None? || Len(list1.value) != Len(list2.value) {
      return false, errors + [LengthsMessage(key1, key2)];
    }
    return true, errors;
  }

  /** sorted() of the unclaimed keys, taking the least remaining key each round. */
  method SortedKeys(s: set<string>) returns (r: seq<string>)
    ensures r == SortedOf(s)
  {
    r := [];
    var rest := s;
    while rest != {}
      invariant r + SortedOf(rest) == SortedOf(s)
      decreases |rest|
    {
      LeastExists(rest);
      var m :| IsLeast(m, rest);
      SortedOfUnfold(rest, m);
      r, rest := r + [m], rest - {m};
    }
  }

  lemma {:induction false} SubsetCard(a: set<string>, b: set<string>)
    requires a <= b
    ensures |a| <= |b|
    ensures a != b ==> |a| < |b|
    decreases |a|
  {
    if a == {} {
      if b != {} {
        var y :| y in b;
        assert |b| > 0;
      }
    } else {
      var x :| x in a;
      SubsetCard(a - {x}, b - {x});
      if a != b {
        var z :| z in b && z !in a;
        assert z in b - {x} && z !in a - {x};
      }
    }
  }

  /** The rule part of `_validate`: presence, optional keys, then the length constraint. */
  method CheckRule(p: Parameters, r: Rule, errors: seq<string>, used: set<string>)
    returns (errors': seq<string>, used': set<string>)
    requires ArgShaped(p)
    requires forall k :: k in ConstraintKeys(r.constraint) ==> IsListKey(k)
    ensures errors' == errors + MissingErrors(p, r.required) + ConstraintErrors(p, r.constraint)
    ensures used' == used + Present(p, r.required) + Present(p, r.optional)
  {
    var present;
    present, errors', used' := ValidatePresenceOf(p, r.required, errors, used);
    used' := ValidateOptionalParams(p, r.optional, used');
    ghost var before := errors';
    match r.constraint
    case NoConstraint =>
    case LengthIs(ks, n) =>
      for i := 0 to |ks|
        invariant errors' == before + LengthErrors(p, ks[..i], n)
      {
        assert ks[..i + 1][..i] == ks[..i];
        var sized;
        sized, errors' := ValidateLengthEquals(p, ks[i], n, errors');
      }
      assert ks[..|ks|] == ks;
    case EqualLengths(k1, k2) =>
      var equal;
      equal, errors' := ValidateListLengthsEqual(p, k1, k2, errors');
  }

  function ConstraintKeys(c: Constraint): seq<string>
  {
    match c
    case NoConstraint => []
    case LengthIs(ks, _) => ks
    case EqualLengths(k1, k2) => [k1, k2]
  }

  function HeadUsed(p: Parameters): set<string>
  {
    (if KnownTask(p) then {TASK} else {}) + (if KnownPhase(p) then {PHASE} else {})
  }

  /** The first two checks of `_validate`: the task, then the phase. */
  method CheckTaskAndPhase(p: Parameters)
    returns (task: Option<Task>, phase: Option<Phase>, errors: seq<string>, used: set<string>)
    ensures task == TaskOf(Get(p, TASK)) && phase == PhaseOf(Get(p, PHASE))
    ensures errors == HeadErrors(p) && used == HeadUsed(p)
  {
    errors, used := [], {};
    task := TaskOf(Get(p, TASK));
    if task.None? {
      errors := errors + [TASK_ERROR];
    } else {
      used := used + {TASK};
    }
    phase := PhaseOf(Get(p, PHASE));
    if phase.None? {
      errors := errors + [PHASE_ERROR];
    } else {
      used := used + {PHASE};
    }
  }

  lemma DifferenceNonEmpty(a: set<string>, b: set<string>)
    requires a <= b && a != b
    ensures b - a != {}
  {
    var x :| x in b && x !in a;
    assert x in b - a;
  }

  /** The last check of `_validate`: the keys nobody claimed, in one message. */
  method CheckUnknownKeys(p: Parameters, errors: seq<string>, used: set<string>) returns (errors': seq<string>)
    requires used <= p.Keys
    ensures errors' == errors + UnknownErrors(p, used)
  {
    errors' := errors;
    if |used| != |p.Keys| {
      DifferenceNonEmpty(used, p.Keys);
      var unknown := SortedKeys(p.Keys - used);
      errors' := errors' + [UnknownMessage(unknown)];
    } else {
      SubsetCard(used, p.Keys);
      assert p.Keys - used == {};
    }
  }

  /** `_validate` without its final write of the "error" key: the messages and the claimed keys. */
  method CheckParameters(p: Parameters) returns (errors: seq<string>, used: set<string>)
    requires ArgShaped(p)
    ensures errors == ExpectedErrors(p)
    ensures used == ExpectedUsed(p)
  {
    var task, phase;
    task, phase, errors, used := CheckTaskAndPhase(p);
    if task.Some? && phase.Some? {
      var r := RuleFor(task.value, phase.value);
      RuleKeys(task.value, phase.value);
      assert ParamRule(p) == Some(r);
      ghost var head := errors;
      errors, used := CheckRule(p, r, errors, used);
      assert used == HeadUsed(p) + (Present(p, r.required) + Present(p, r.optional));
      assert RuleErrors(p) == MissingErrors(p, r.required) + ConstraintErrors(p, r.constraint);
      assert errors == head + RuleErrors(p);
    } else {
      assert ParamRule(p) == None;
      assert errors == HeadErrors(p) + RuleErrors(p);
    }
    assert used == ExpectedUsed(p);
    errors := CheckUnknownKeys(p, errors, used);
  }

  /** The length checks of the evaluate and classify phases, as an accepted parameter set meets them:
    * one quiet model, one svm feature file and one stem, equally many svm feature files and stems. */
  lemma LengthConstraintsOfAccepted(p: Parameters)
    requires Accepted(p) && ArgShaped(p)
    ensures TaskOf(Get(p, TASK)) == Some(Quiet) && PhaseOf(Get(p, PHASE)) == Some(Evaluate) ==>
      |p[QUIET_MODEL].items| == 1
    ensures TaskOf(Get(p, TASK)) == Some(Svm) && PhaseOf(Get(p, PHASE)) == Some(Evaluate) ==>
      |p[FEATURE_FILE].items| == 1 && |p[SVM_OUTPUT_STEM].items| == 1
    ensures TaskOf(Get(p, TASK)) == Some(Svm) && PhaseOf(Get(p, PHASE)) == Some(Classify) ==>
      |p[FEATURE_FILE].items| == |p[SVM_OUTPUT_STEM].items|
  {
    var t, ph := TaskOf(Get(p, TASK)).value, PhaseOf(Get(p, PHASE)).value;
    var c := RuleFor(t, ph).constraint;
    assert ConstraintHolds(p, c);
    if t == Quiet && ph == Evaluate {
      assert c == LengthIs([QUIET_MODEL], 1);
      assert QUIET_MODEL in c.keys;
      assert HasLength(p, QUIET_MODEL, 1);
    }
    if t == Svm && ph == Evaluate {
      assert c == LengthIs([FEATURE_FILE, SVM_OUTPUT_STEM], 1);
      assert FEATURE_FILE in c.keys && SVM_OUTPUT_STEM in c.keys;
      assert HasLength(p, FEATURE_FILE, 1) && HasLength(p, SVM_OUTPUT_STEM, 1);
    }
  }
}
