/**
 * JobFlowSpecsDefinition: the definition file that says which labels a job-flow
 * specification may use and what value each label takes.
 *
 * The definition is a YAML map from labels to spec maps. `validate` walks it from the
 * label "top", following list types, required labels and parameters. It adds every
 * label it visits to a set of used keys and throws at the first malformed spec.
 * `addSpec` then turns every label's spec into a `SpecItem`, and the getters read those
 * items back.
 *
 * A thrown exception is `Err` with its message. The shared `usedKeys` set is threaded
 * through the calls: each call takes the set as it stands and returns it as the call
 * left it. Java's recursion can run forever on a cyclic definition, so every call
 * carries `fuel`, the depth of nested `validate` calls the Java stack allows, and an
 * exhausted stack is the error `StackOverflow`.
 */
module JobFlowDefinitions {
  import opened Wrappers

  /** A value the YAML loader produces. */
  datatype Yaml =
    | YNull
    | YBool(b: bool)
    | YInt(i: int)
    | YDouble(d: real)
    | YStr(s: string)
    | YList(items: seq<Yaml>)
    | YMap(m: map<string, Yaml>)

  const TOP := "top"
  const VALUE_TYPE := "value_type"
  const REQUIRED := "required"
  const BOOLEAN := "boolean"
  const STRING := "string"
  const INTEGER := "integer"
  const DOUBLE := "double"
  const STRING_OR_INTEGER := "string_or_integer"
  const MAP := "map"
  const LIST := "list"
  const LIST_TYPE := "list_type"
  const PARAMETERS := "parameters"

  const ValueTypes: set<string> := {BOOLEAN, STRING, INTEGER, DOUBLE, STRING_OR_INTEGER, MAP, LIST}

  const ClassCast := "ClassCastException"
  const NullPointer := "NullPointerException"
  const StackOverflow := "StackOverflowError"

  function NotFound(key: string): string
  {
    "Key '" + key + "' not found in definition file."
  }

  /** What the definition says about one label. The required and parameter sets hold the
    * list items as loaded: the unchecked cast to a list of strings lets any item in. */
  datatype SpecItem = SpecItem(
    valueType: string,
    listType: Option<string>,
    required: set<Yaml>,
    parameters: set<Yaml>)

  /*
   * Validation, as functions of the definition, the label, the used keys so far and
   * the remaining stack depth. `Ok(u)` carries the used keys afterwards.
   */

  /** `validate(definition, key, usedKeys)`. */
  function CheckKey(def: map<string, Yaml>, key: string, used: set<string>, fuel: nat): Result<set<string>>
    decreases fuel, 0, 0
  {
    if key !in def then Err(NotFound(key))
    else if fuel == 0 then Err(StackOverflow)
    else
      match def[key]
      case YMap(val) => CheckSpec(def, key, val, used + {key}, fuel - 1)
      case YNull => Err(NullPointer)
      case _ => Err(ClassCast)
  }

  /** The checks on the spec map of a label, after the label is marked as used: the
    * value type first, then the labels it refers to. */
  function CheckSpec(def: map<string, Yaml>, key: string, val: map<string, Yaml>, used: set<string>, fuel: nat): Result<set<string>>
    decreases fuel, 3, 0
  {
    if VALUE_TYPE !in val then Err("value_type not provided for " + key)
    else if !val[VALUE_TYPE].YStr? then Err("value of value_type must be atomic in " + key)
    else if val[VALUE_TYPE].s !in ValueTypes then
      Err("Invalid value_type: " + val[VALUE_TYPE].s + " in " + key)
    else CheckLinks(def, key, val, val[VALUE_TYPE].s, used, fuel)
  }

  /** The list type of a list, then the required labels, then the parameters. */
  function CheckLinks(def: map<string, Yaml>, key: string, val: map<string, Yaml>, vt: string, used: set<string>, fuel: nat): Result<set<string>>
    decreases fuel, 2, 0
  {
    var r1 := if vt == LIST then CheckListType(def, key, val, used, fuel) else Ok(used);
    if r1.Err? then r1
    else
      var r2 :=
        if REQUIRED !in val then Ok(r1.value)
        else if vt != MAP then Err("Required parameter valid for map value_types only. In " + key)
        else
          match val[REQUIRED]
          case YList(items) => CheckRequired(def, items, r1.value, fuel)
          case YNull => Err(NullPointer)
          case _ => Err(ClassCast);
      if r2.Err? then r2
      else if PARAMETERS !in val then r2
      else if !val[PARAMETERS].YList? then Err("Parameters requires a list of labels. In " + key)
      else CheckParameters(def, val[PARAMETERS].items, r2.value, fuel)
  }

  /** The list-type checks: a string naming a label, which is validated, or "string". */
  function CheckListType(def: map<string, Yaml>, key: string, val: map<string, Yaml>, used: set<string>, fuel: nat): Result<set<string>>
    decreases fuel, 1, 0
  {
    if LIST_TYPE !in val then Err("List type not specified in " + key)
    else if !val[LIST_TYPE].YStr? then Err("List type must be a string in " + key)
    else if val[LIST_TYPE].s in def then CheckKey(def, val[LIST_TYPE].s, used, fuel)
    else if val[LIST_TYPE].s != STRING then
      Err("List type must either be an existing label or 'string' in " + key)
    else Ok(used)
  }

  /** A list item read as a label: a string, or null, which no map holds as a key. Any
    * other item fails the cast to String. */
  function ItemLabel(item: Yaml): Result<string>
  {
    match item
    case YStr(s) => Ok(s)
    case YNull => Err(NotFound("null"))
    case _ => Err(ClassCast)
  }

  /** The loop over the required labels: each is validated in turn. */
  function CheckRequired(def: map<string, Yaml>, items: seq<Yaml>, used: set<string>, fuel: nat): Result<set<string>>
    decreases fuel, 1, |items|
  {
    if items == [] then Ok(used)
    else
      var name := ItemLabel(items[0]);
      if name.Err? then Err(name.error)
      else
        var r := CheckKey(def, name.value, used, fuel);
        if r.Err? then r else CheckRequired(def, items[1..], r.value, fuel)
  }

  /** The loop over the parameter labels: each one not used yet is validated. */
  function CheckParameters(def: map<string, Yaml>, items: seq<Yaml>, used: set<string>, fuel: nat): Result<set<string>>
    decreases fuel, 1, |items|
  {
    if items == [] then Ok(used)
    else
      var name := ItemLabel(items[0]);
      if name.Err? then Err(name.error)
      else if name.value in used then CheckParameters(def, items[1..], used, fuel)
      else
        var r := CheckKey(def, name.value, used, fuel);
        if r.Err? then r else CheckParameters(def, items[1..], r.value, fuel)
  }

  /*
   * What a successful validation guarantees, stated without the walk.
   */

  predicate AllStrings(items: seq<Yaml>)
  {
    forall i :: 0 <= i < |items| ==> items[i].YStr?
  }

  function Labels(items: seq<Yaml>): set<string>
  {
    set i | 0 <= i < |items| && items[i].YStr? :: items[i].s
  }

  /** A spec map that passes every check of its own label. */
  predicate SpecOk(def: map<string, Yaml>, val: map<string, Yaml>)
  {
    VALUE_TYPE in val && val[VALUE_TYPE].YStr? && val[VALUE_TYPE].s in ValueTypes &&
    (val[VALUE_TYPE].s == LIST ==>
      LIST_TYPE in val && val[LIST_TYPE].YStr? &&
      (val[LIST_TYPE].s in def || val[LIST_TYPE].s == STRING)) &&
    (REQUIRED in val ==>
      val[VALUE_TYPE].s == MAP && val[REQUIRED].YList? && AllStrings(val[REQUIRED].items)) &&
    (PARAMETERS in val ==> val[PARAMETERS].YList? && AllStrings(val[PARAMETERS].items))
  }

  /** The labels a spec map refers to: its list type when that is a label, its required
    * labels and its parameters. */
  function Refs(def: map<string, Yaml>, val: map<string, Yaml>): set<string>
    requires SpecOk(def, val)
  {
    (if val[VALUE_TYPE].s == LIST && val[LIST_TYPE].s in def then {val[LIST_TYPE].s} else {}) +
    (if REQUIRED in val then Labels(val[REQUIRED].items) else {}) +
    (if PARAMETERS in val then Labels(val[PARAMETERS].items) else {})
  }

  /** Label k is defined by a well-formed spec map whose references all lie in u. */
  predicate ValidIn(def: map<string, Yaml>, k: string, u: set<string>)
  {
    k in def && def[k].YMap? && SpecOk(def, def[k].m) && Refs(def, def[k].m) <= u
  }

  /** A successful `validate` of a label: the label is used, every label it newly used is
    * defined, well formed and refers only to used labels, and no used key was dropped. */
  lemma CheckKeySound(def: map<string, Yaml>, key: string, used: set<string>, fuel: nat)
    requires CheckKey(def, key, used, fuel).Ok?
    ensures var u := CheckKey(def, key, used, fuel).value;
      used <= u <= used + def.Keys && key in u && ValidIn(def, key, u) &&
      forall k :: k in u - used ==> ValidIn(def, k, u)
    decreases fuel, 0, 0
  {
    var val := def[key].m;
    CheckSpecSound(def, key, val, used + {key}, fuel - 1);
  }

  lemma CheckSpecSound(def: map<string, Yaml>, key: string, val: map<string, Yaml>, used: set<string>, fuel: nat)
    requires CheckSpec(def, key, val, used, fuel).Ok?
    ensures var u := CheckSpec(def, key, val, used, fuel).value;
      used <= u <= used + def.Keys && SpecOk(def, val) && Refs(def, val) <= u &&
      forall k :: k in u - used ==> ValidIn(def, k, u)
    decreases fuel, 3, 0
  {
    CheckLinksSound(def, key, val, val[VALUE_TYPE].s, used, fuel);
  }

  lemma CheckLinksSound(def: map<string, Yaml>, key: string, val: map<string, Yaml>, vt: string, used: set<string>, fuel: nat)
    requires VALUE_TYPE in val && val[VALUE_TYPE] == YStr(vt) && vt in ValueTypes
    requires CheckLinks(def, key, val, vt, used, fuel).Ok?
    ensures var u := CheckLinks(def, key, val, vt, used, fuel).value;
      used <= u <= used + def.Keys && SpecOk(def, val) && Refs(def, val) <= u &&
      forall k :: k in u - used ==> ValidIn(def, k, u)
    decreases fuel, 2, 0
  {
    var r1 := if vt == LIST then CheckListType(def, key, val, used, fuel) else Ok(used);
    if vt == LIST {
      CheckListTypeSound(def, key, val, used, fuel);
    }
    var u1 := r1.value;
    var r2 :=
      if REQUIRED !in val then Ok(u1)
      else CheckRequired(def, val[REQUIRED].items, u1, fuel);
    if REQUIRED in val {
      CheckRequiredSound(def, val[REQUIRED].items, u1, fuel);
    }
    var u2 := r2.value;
    if PARAMETERS in val {
      CheckParametersSound(def, val[PARAMETERS].items, u2, fuel);
    }
    var u := CheckLinks(def, key, val, vt, used, fuel).value;
    assert used <= u1 <= u2 <= u;
    forall k | k in u - used
      ensures ValidIn(def, k, u)
    {
      if k in u1 - used {
        assert ValidIn(def, k, u1);
      } else if k in u2 - u1 {
        assert ValidIn(def, k, u2);
      }
    }
  }

  lemma CheckListTypeSound(def: map<string, Yaml>, key: string, val: map<string, Yaml>, used: set<string>, fuel: nat)
    requires CheckListType(def, key, val, used, fuel).Ok?
    ensures var u := CheckListType(def, key, val, used, fuel).value;
      used <= u <= used + def.Keys &&
      LIST_TYPE in val && val[LIST_TYPE].YStr? &&
      (val[LIST_TYPE].s in def || val[LIST_TYPE].s == STRING) &&
      (val[LIST_TYPE].s in def ==> val[LIST_TYPE].s in u) &&
      forall k :: k in u - used ==> ValidIn(def, k, u)
    decreases fuel, 1, 0
  {
    if val[LIST_TYPE].s in def {
      CheckKeySound(def, val[LIST_TYPE].s, used, fuel);
    }
  }

  lemma CheckRequiredSound(def: map<string, Yaml>, items: seq<Yaml>, used: set<string>, fuel: nat)
    requires CheckRequired(def, items, used, fuel).Ok?
    ensures var u := CheckRequired(def, items, used, fuel).value;
      used <= u <= used + def.Keys && AllStrings(items) && Labels(items) <= u &&
      forall k :: k in u - used ==> ValidIn(def, k, u)
    decreases fuel, 1, |items|
  {
    if items != [] {
      var name := items[0].s;
      CheckKeySound(def, name, used, fuel);
      var u1 := CheckKey(def, name, used, fuel).value;
      CheckRequiredSound(def, items[1..], u1, fuel);
      LabelsCons(items);
      AllStringsCons(items);
      var u := CheckRequired(def, items, used, fuel).value;
      forall k | k in u - used
        ensures ValidIn(def, k, u)
      {
        if k in u1 - used {
          assert ValidIn(def, k, u1);
        }
      }
    }
  }

  lemma CheckParametersSound(def: map<string, Yaml>, items: seq<Yaml>, used: set<string>, fuel: nat)
    requires CheckParameters(def, items, used, fuel).Ok?
    ensures var u := CheckParameters(def, items, used, fuel).value;
      used <= u <= used + def.Keys && AllStrings(items) && Labels(items) <= u &&
      forall k :: k in u - used ==> ValidIn(def, k, u)
    decreases fuel, 1, |items|
  {
    if items != [] {
      var name := items[0].s;
      LabelsCons(items);
      AllStringsCons(items);
      if name in used {
        CheckParametersSound(def, items[1..], used, fuel);
      } else {
        CheckKeySound(def, name, used, fuel);
        var u1 := CheckKey(def, name, used, fuel).value;
        CheckParametersSound(def, items[1..], u1, fuel);
        var u := CheckParameters(def, items, used, fuel).value;
        forall k | k in u - used
          ensures ValidIn(def, k, u)
        {
          if k in u1 - used {
            assert ValidIn(def, k, u1);
          }
        }
      }
    }
  }

  lemma LabelsCons(items: seq<Yaml>)
    requires items != [] && items[0].YStr?
    ensures Labels(items) == {items[0].s} + Labels(items[1..])
  {
    var tail := items[1..];
    forall l | l in Labels(items)
      ensures l in {items[0].s} + Labels(tail)
    {
      var i :| 0 <= i < |items| && items[i].YStr? && items[i].s == l;
      if i > 0 {
        assert tail[i - 1] == items[i];
      }
    }
    forall l | l in Labels(tail)
      ensures l in Labels(items)
    {
      var i :| 0 <= i < |tail| && tail[i].YStr? && tail[i].s == l;
      assert items[i + 1] == tail[i];
    }
  }

  lemma AllStringsCons(items: seq<Yaml>)
    requires items != [] && items[0].YStr? && AllStrings(items[1..])
    ensures AllStrings(items)
  {
    forall i | 0 < i < |items|
      ensures items[i].YStr?
    {
      assert items[i] == items[1..][i - 1];
    }
  }

  /** A label whose own spec map is malformed cannot be validated, whatever the stack
    * depth and the used keys. */
  lemma MalformedRejected(def: map<string, Yaml>, key: string, used: set<string>, fuel: nat)
    requires key in def && !(def[key].YMap? && SpecOk(def, def[key].m))
    ensures CheckKey(def, key, used, fuel).Err?
  {
    if CheckKey(def, key, used, fuel).Ok? {
      CheckKeySound(def, key, used, fuel);
    }
  }

  /** A validation from "top" that succeeds uses only defined labels, and the used set is
    * closed: every used label is well formed and refers only to used labels. */
  lemma ValidatedClosed(def: map<string, Yaml>, fuel: nat)
    requires CheckKey(def, TOP, {}, fuel).Ok?
    ensures var u := CheckKey(def, TOP, {}, fuel).value;
      TOP in u && u <= def.Keys && forall k :: k in u ==> ValidIn(def, k, u)
  {
    CheckKeySound(def, TOP, {}, fuel);
  }

  /*
   * The converse: what makes a validation succeed.
   */

  /** Every label is defined by a well-formed spec map whose references are defined
    * labels of smaller rank: the definition has no cycle through list types, required
    * labels or parameters. */
  predicate Ranked(def: map<string, Yaml>, rank: map<string, nat>)
  {
    forall k :: k in def ==>
      k in rank && def[k].YMap? && SpecOk(def, def[k].m) &&
      forall r :: r in Refs(def, def[k].m) ==> r in def && r in rank && rank[r] < rank[k]
  }

  /** References of a spec map that all lie within the remaining stack depth. */
  predicate RefsBelow(def: map<string, Yaml>, rank: map<string, nat>, val: map<string, Yaml>, fuel: nat)
    requires SpecOk(def, val)
  {
    forall r :: r in Refs(def, val) ==> r in def && r in rank && rank[r] < fuel
  }

  /** Labels of a list that are all defined and lie within the remaining stack depth. */
  predicate ItemsBelow(def: map<string, Yaml>, rank: map<string, nat>, items: seq<Yaml>, fuel: nat)
  {
    AllStrings(items) &&
    forall i :: 0 <= i < |items| ==> items[i].s in def && items[i].s in rank && rank[items[i].s] < fuel
  }

  /** A well-formed, acyclic definition validates from any label whose rank the stack
    * depth exceeds, whatever keys were used before. */
  lemma CheckKeyComplete(def: map<string, Yaml>, rank: map<string, nat>, key: string, used: set<string>, fuel: nat)
    requires Ranked(def, rank) && key in def && fuel > rank[key]
    ensures CheckKey(def, key, used, fuel).Ok?
    decreases fuel, 0, 0
  {
    var val := def[key].m;
    assert RefsBelow(def, rank, val, fuel - 1);
    CheckSpecComplete(def, rank, key, val, used + {key}, fuel - 1);
  }

  lemma CheckSpecComplete(def: map<string, Yaml>, rank: map<string, nat>, key: string, val: map<string, Yaml>, used: set<string>, fuel: nat)
    requires Ranked(def, rank) && SpecOk(def, val) && RefsBelow(def, rank, val, fuel)
    ensures CheckSpec(def, key, val, used, fuel).Ok?
    decreases fuel, 3, 0
  {
    CheckLinksComplete(def, rank, key, val, val[VALUE_TYPE].s, used, fuel);
  }

  lemma CheckLinksComplete(def: map<string, Yaml>, rank: map<string, nat>, key: string, val: map<string, Yaml>, vt: string, used: set<string>, fuel: nat)
    requires Ranked(def, rank) && SpecOk(def, val) && RefsBelow(def, rank, val, fuel)
    requires vt == val[VALUE_TYPE].s
    ensures CheckLinks(def, key, val, vt, used, fuel).Ok?
    decreases fuel, 2, 0
  {
    var r1 := if vt == LIST then CheckListType(def, key, val, used, fuel) else Ok(used);
    if vt == LIST {
      CheckListTypeComplete(def, rank, key, val, used, fuel);
    }
    var r2 := if REQUIRED !in val then Ok(r1.value) else CheckRequired(def, val[REQUIRED].items, r1.value, fuel);
    if REQUIRED in val {
      ItemsBelowOfRefs(def, rank, val, val[REQUIRED].items, fuel);
      CheckRequiredComplete(def, rank, val[REQUIRED].items, r1.value, fuel);
    }
    if PARAMETERS in val {
      ItemsBelowOfRefs(def, rank, val, val[PARAMETERS].items, fuel);
      CheckParametersComplete(def, rank, val[PARAMETERS].items, r2.value, fuel);
    }
  }

  lemma CheckListTypeComplete(def: map<string, Yaml>, rank: map<string, nat>, key: string, val: map<string, Yaml>, used: set<string>, fuel: nat)
    requires Ranked(def, rank) && SpecOk(def, val) && RefsBelow(def, rank, val, fuel)
    requires val[VALUE_TYPE].s == LIST
    ensures CheckListType(def, key, val, used, fuel).Ok?
    decreases fuel, 1, 0
  {
    var lt := val[LIST_TYPE].s;
    if lt in def {
      assert lt in Refs(def, val);
      CheckKeyComplete(def, rank, lt, used, fuel);
    }
  }

  /** The labels of a required or parameters list lie below the stack depth when the
    * spec map's references do. */
  lemma ItemsBelowOfRefs(def: map<string, Yaml>, rank: map<string, nat>, val: map<string, Yaml>, items: seq<Yaml>, fuel: nat)
    requires SpecOk(def, val) && RefsBelow(def, rank, val, fuel)
    requires (REQUIRED in val && items == val[REQUIRED].items) ||
             (PARAMETERS in val && items == val[PARAMETERS].items)
    ensures ItemsBelow(def, rank, items, fuel)
  {
    forall i | 0 <= i < |items|
      ensures items[i].s in def && items[i].s in rank && rank[items[i].s] < fuel
    {
      assert items[i].s in Labels(items);
      assert items[i].s in Refs(def, val);
    }
  }

  lemma {:induction false} CheckRequiredComplete(def: map<string, Yaml>, rank: map<string, nat>, items: seq<Yaml>, used: set<string>, fuel: nat)
    requires Ranked(def, rank) && ItemsBelow(def, rank, items, fuel)
    ensures CheckRequired(def, items, used, fuel).Ok?
    decreases fuel, 1, |items|
  {
    if items != [] {
      CheckKeyComplete(def, rank, items[0].s, used, fuel);
      var r := CheckKey(def, items[0].s, used, fuel);
      assert ItemsBelow(def, rank, items[1..], fuel) by {
        forall i | 0 <= i < |items[1..]|
          ensures items[1..][i] == items[i + 1]
        {
        }
      }
      CheckRequiredComplete(def, rank, items[1..], r.value, fuel);
    }
  }

  lemma {:induction false} CheckParametersComplete(def: map<string, Yaml>, rank: map<string, nat>, items: seq<Yaml>, used: set<string>, fuel: nat)
    requires Ranked(def, rank) && ItemsBelow(def, rank, items, fuel)
    ensures CheckParameters(def, items, used, fuel).Ok?
    decreases fuel, 1, |items|
  {
    if items != [] {
      assert ItemsBelow(def, rank, items[1..], fuel) by {
        forall i | 0 <= i < |items[1..]|
          ensures items[1..][i] == items[i + 1]
        {
        }
      }
      if items[0].s in used {
        CheckParametersComplete(def, rank, items[1..], used, fuel);
      } else {
        CheckKeyComplete(def, rank, items[0].s, used, fuel);
        var r := CheckKey(def, items[0].s, used, fuel);
        CheckParametersComplete(def, rank, items[1..], r.value, fuel);
      }
    }
  }

  /** Validation from "top" succeeds on every well-formed acyclic definition that defines
    * "top", given a stack deeper than its rank. */
  lemma RankedValidates(def: map<string, Yaml>, rank: map<string, nat>, fuel: nat)
    requires Ranked(def, rank) && TOP in def && fuel > rank[TOP]
    ensures CheckKey(def, TOP, {}, fuel).Ok?
  {
    CheckKeyComplete(def, rank, TOP, {}, fuel);
  }

  /** A label that lists itself as required is rejected at every stack depth: the walk
    * re-enters it until the stack is exhausted. */
  lemma {:induction false} SelfRequiredOverflows(def: map<string, Yaml>, key: string, used: set<string>, fuel: nat)
    requires key in def && def[key].YMap?
    requires var val := def[key].m;
      VALUE_TYPE in val && val[VALUE_TYPE] == YStr(MAP) && LIST_TYPE !in val &&
      REQUIRED in val && val[REQUIRED] == YList([YStr(key)])
    ensures CheckKey(def, key, used, fuel).Err?
    decreases fuel
  {
    if fuel > 0 {
      var val := def[key].m;
      SelfRequiredOverflows(def, key, used + {key}, fuel - 1);
      assert CheckRequired(def, [YStr(key)], used + {key}, fuel - 1).Err?;
      assert CheckLinks(def, key, val, MAP, used + {key}, fuel - 1).Err?;
    }
  }

  /*
   * The "unused keys" warning.
   */

  /** The warning set as written: `CollectionUtil.intersect(definition.keySet(), usedKeys)`. */
  function UnusedKeys(def: map<string, Yaml>, used: set<string>): set<string>
  {
    def.Keys * used
  }

  /** The warning set as evidently intended: the labels validation never reached. */
  function UnusedKeysCorrected(def: map<string, Yaml>, used: set<string>): set<string>
  {
    def.Keys - used
  }

  /** As written, after a successful validation the warning names exactly the labels
    * that WERE used, so it always fires (it contains "top") and never names an unused one. */
  lemma UnusedKeysAreUsed(def: map<string, Yaml>, fuel: nat)
    requires CheckKey(def, TOP, {}, fuel).Ok?
    ensures var u := CheckKey(def, TOP, {}, fuel).value;
      UnusedKeys(def, u) == u && TOP in UnusedKeys(def, u) &&
      forall k :: k in def && k !in u ==> k !in UnusedKeys(def, u)
  {
    CheckKeySound(def, TOP, {}, fuel);
  }

  /** The corrected warning splits the definition's labels with the used ones: each label
    * is either used or reported, never both. */
  lemma UnusedKeysCorrectedSplits(def: map<string, Yaml>, fuel: nat)
    requires CheckKey(def, TOP, {}, fuel).Ok?
    ensures var u := CheckKey(def, TOP, {}, fuel).value;
      UnusedKeysCorrected(def, u) + u == def.Keys &&
      UnusedKeysCorrected(def, u) * u == {} &&
      TOP !in UnusedKeysCorrected(def, u)
  {
    CheckKeySound(def, TOP, {}, fuel);
  }

  /** A definition with a label nothing refers to. */
  function ExtraLabelDefinition(): map<string, Yaml>
  {
    map[TOP := YMap(map[VALUE_TYPE := YStr(STRING)]),
        "extra" := YMap(map[VALUE_TYPE := YStr(BOOLEAN)])]
  }

  /** On that definition the warning as written names "top", which is used, and misses
    * "extra"; the corrected warning names exactly "extra". */
  lemma UnusedKeysExample()
    ensures CheckKey(ExtraLabelDefinition(), TOP, {}, 1) == Ok({TOP})
    ensures UnusedKeys(ExtraLabelDefinition(), {TOP}) == {TOP}
    ensures UnusedKeysCorrected(ExtraLabelDefinition(), {TOP}) == {"extra"}
  {
    var def := ExtraLabelDefinition();
    assert def.Keys == {TOP, "extra"};
    assert def[TOP].m[VALUE_TYPE].s in ValueTypes;
    assert {} + {TOP} == {TOP};
  }

  /*
   * `addSpec`: every label's spec map as a SpecItem.
   */

  /** An optional string entry: absent or null is `None`, anything but a string fails
    * the cast. */
  function OptString(spec: map<string, Yaml>, k: string): Result<Option<string>>
  {
    if k !in spec || spec[k].YNull? then Ok(None)
    else if spec[k].YStr? then Ok(Some(spec[k].s))
    else Err(ClassCast)
  }

  /** The items of a list, as a set. */
  function Elements(items: seq<Yaml>): set<Yaml>
  {
    set i | 0 <= i < |items| :: items[i]
  }

  /** A list of labels as a set: absent or null is the empty set; a list gives the set of
    * its items, whatever they are, and anything else fails the cast to a list. */
  function LabelSet(spec: map<string, Yaml>, k: string): Result<set<Yaml>>
  {
    if k !in spec || spec[k].YNull? then Ok({})
    else if spec[k].YList? then Ok(Elements(spec[k].items))
    else Err(ClassCast)
  }

  /** The items of a list of strings are exactly its labels. */
  lemma ElementsOfStrings(items: seq<Yaml>)
    requires AllStrings(items)
    ensures forall y: Yaml :: y in Elements(items) <==> y.YStr? && y.s in Labels(items)
  {
    forall y: Yaml | y.YStr? && y.s in Labels(items)
      ensures y in Elements(items)
    {
      var i :| 0 <= i < |items| && items[i].YStr? && items[i].s == y.s;
      assert items[i] == y;
    }
  }

  /** The SpecItem `addSpec` builds from one label's spec. */
  function MakeSpecItem(v: Yaml): Result<SpecItem>
  {
    match v
    case YMap(spec) =>
      if VALUE_TYPE !in spec || spec[VALUE_TYPE].YNull? then Err(NullPointer)
      else if !spec[VALUE_TYPE].YStr? then Err(ClassCast)
      else
        var vt := spec[VALUE_TYPE].s;
        var lt := if vt == LIST then OptString(spec, LIST_TYPE) else Ok(None);
        var req := LabelSet(spec, REQUIRED);
        var par := LabelSet(spec, PARAMETERS);
        if lt.Err? then Err(lt.error)
        else if req.Err? then Err(req.error)
        else if par.Err? then Err(par.error)
        else Ok(SpecItem(vt, lt.value, req.value, par.value))
    case YNull => Err(NullPointer)
    case _ => Err(ClassCast)
  }

  /** A validated label's SpecItem records its spec: the value type, the list type of a
    * list, and as required labels and parameters exactly the labels its lists name (none
    * for an absent entry). */
  lemma SpecItemOfValid(def: map<string, Yaml>, k: string, u: set<string>)
    requires ValidIn(def, k, u)
    ensures var val := def[k].m;
      MakeSpecItem(def[k]).Ok? &&
      MakeSpecItem(def[k]).value.valueType == val[VALUE_TYPE].s &&
      MakeSpecItem(def[k]).value.listType ==
        (if val[VALUE_TYPE].s == LIST then Some(val[LIST_TYPE].s) else None)
    ensures var val := def[k].m; var item := MakeSpecItem(def[k]).value;
      forall y :: y in item.required <==>
        REQUIRED in val && y.YStr? && y.s in Labels(val[REQUIRED].items)
    ensures var val := def[k].m; var item := MakeSpecItem(def[k]).value;
      forall y :: y in item.parameters <==>
        PARAMETERS in val && y.YStr? && y.s in Labels(val[PARAMETERS].items)
  {
    var val := def[k].m;
    if REQUIRED in val {
      ElementsOfStrings(val[REQUIRED].items);
    }
    if PARAMETERS in val {
      ElementsOfStrings(val[PARAMETERS].items);
    }
  }

  /** A label no walk from "top" reaches is stored even when its lists hold items other
    * than labels: a required list holding a number converts, and the number is kept. */
  lemma UncheckedItemsKept()
    ensures var spec := map[VALUE_TYPE := YStr(MAP), REQUIRED := YList([YInt(7)])];
      MakeSpecItem(YMap(spec)) == Ok(SpecItem(MAP, None, {YInt(7)}, {}))
  {
    var spec := map[VALUE_TYPE := YStr(MAP), REQUIRED := YList([YInt(7)])];
    assert Elements([YInt(7)]) == {YInt(7)} by {
      assert [YInt(7)][0] == YInt(7);
    }
    assert PARAMETERS !in spec;
  }

  /** Absent required and parameter entries become empty sets, and only a list has a list
    * type. */
  lemma SpecItemDefaults(spec: map<string, Yaml>)
    requires MakeSpecItem(YMap(spec)).Ok?
    ensures var item := MakeSpecItem(YMap(spec)).value;
      item.valueType == spec[VALUE_TYPE].s &&
      (REQUIRED !in spec ==> item.required == {}) &&
      (PARAMETERS !in spec ==> item.parameters == {}) &&
      (item.valueType != LIST ==> item.listType == None)
  {
  }

  /** Every label's spec converts. */
  predicate AllSpecsConvert(def: map<string, Yaml>)
  {
    forall k :: k in def ==> MakeSpecItem(def[k]).Ok?
  }

  /** The SpecItems of the labels in ks, all of which convert. */
  function Converted(def: map<string, Yaml>, ks: set<string>): map<string, SpecItem>
    requires forall k :: k in ks ==> k in def && MakeSpecItem(def[k]).Ok?
  {
    map k | k in ks :: MakeSpecItem(def[k]).value
  }

  /** The specs `addSpec` stores when every label converts. */
  function SpecsOf(def: map<string, Yaml>): map<string, SpecItem>
    requires AllSpecsConvert(def)
  {
    Converted(def, def.Keys)
  }

  /** Storing one more label's SpecItem. */
  lemma ConvertedStep(base: map<string, SpecItem>, def: map<string, Yaml>, done: set<string>, k: string)
    requires forall j :: j in done ==> j in def && MakeSpecItem(def[j]).Ok?
    requires k in def && MakeSpecItem(def[k]).Ok?
    ensures forall j :: j in done + {k} ==> MakeSpecItem(def[j]).Ok?
    ensures (base + Converted(def, done))[k := MakeSpecItem(def[k]).value] ==
      base + Converted(def, done + {k})
  {
  }

  function UndefinedKey(key: string): string
  {
    "Key " + key + " undefined."
  }

  class JobFlowSpecsDefinition {
    var specs: map<string, SpecItem>

    constructor()
      ensures specs == map[]
    {
      specs := map[];
    }

    /** `initialize(InputStream)` on the loaded definition: the specs are reset, the
      * definition is validated from "top", the unused-keys warning set is computed as
      * written, and every label's spec is stored. */
    method Initialize(definition: map<string, Yaml>, fuel: nat) returns (r: Result<()>, unusedKeys: set<string>)
      modifies this
      ensures CheckKey(definition, TOP, {}, fuel).Err? ==>
        r == Err(CheckKey(definition, TOP, {}, fuel).error) && specs == map[]
      ensures r.Ok? <==> CheckKey(definition, TOP, {}, fuel).Ok? && AllSpecsConvert(definition)
      ensures r.Ok? ==>
        specs == SpecsOf(definition) &&
        unusedKeys == UnusedKeys(definition, CheckKey(definition, TOP, {}, fuel).value)
    {
      specs := map[];
      unusedKeys := {};
      var checked := Validate(definition, TOP, {}, fuel);
      if checked.Err? {
        return Err(checked.error), unusedKeys;
      }
      unusedKeys := definition.Keys * checked.value;
      r := AddSpec(definition);
    }

    /** `addSpec(definition, specs)`: each label, in the map's order, is converted and
      * stored; the first label that does not convert stops the loop. */
    method AddSpec(definition: map<string, Yaml>) returns (r: Result<()>)
      modifies this
      ensures r.Ok? <==> AllSpecsConvert(definition)
      ensures r.Ok? ==> specs == old(specs) + SpecsOf(definition)
      ensures specs.Keys <= old(specs).Keys + definition.Keys
    {
      ghost var before := specs;
      ghost var done: set<string> := {};
      var rest := definition.Keys;
      while rest != {}
        invariant done !! rest && done + rest == definition.Keys
        invariant forall j :: j in done ==> MakeSpecItem(definition[j]).Ok?
        invariant specs == before + Converted(definition, done)
        decreases |rest|
      {
        // the next key in the map's iteration order
        var k :| k in rest;
        var item := MakeSpecItem(definition[k]);
        if item.Err? {
          return Err(item.error);
        }
        ConvertedStep(before, definition, done, k);
        specs := specs[k := item.value];
        done := done + {k};
        rest := rest - {k};
      }
      assert done == definition.Keys;
      r := Ok(());
    }

    /** `getValueType(key)`: throws for an undefined key. */
    function GetValueType(key: string): (r: Result<string>)
      reads this
      ensures r.Ok? <==> key in specs
      ensures r.Ok? ==> r.value == specs[key].valueType
      ensures r.Err? ==> r.error == UndefinedKey(key)
    {
      if key in specs then Ok(specs[key].valueType) else Err(UndefinedKey(key))
    }

    /** `getListType(key)`: `None` is Java's null list type. */
    function GetListType(key: string): (r: Result<Option<string>>)
      reads this
      ensures r.Ok? <==> key in specs
      ensures r.Ok? ==> r.value == specs[key].listType
      ensures r.Err? ==> r.error == UndefinedKey(key)
    {
      if key in specs then Ok(specs[key].listType) else Err(UndefinedKey(key))
    }

    /** `getRequired(key)`. */
    function GetRequired(key: string): (r: Result<set<Yaml>>)
      reads this
      ensures r.Ok? <==> key in specs
      ensures r.Ok? ==> r.value == specs[key].required
      ensures r.Err? ==> r.error == UndefinedKey(key)
    {
      if key in specs then Ok(specs[key].required) else Err(UndefinedKey(key))
    }

    /** `getParameters(key)`. */
    function GetParameters(key: string): (r: Result<set<Yaml>>)
      reads this
      ensures r.Ok? <==> key in specs
      ensures r.Ok? ==> r.value == specs[key].parameters
      ensures r.Err? ==> r.error == UndefinedKey(key)
    {
      if key in specs then Ok(specs[key].parameters) else Err(UndefinedKey(key))
    }
  }

  /*
   * The source's recursion and loops, proved against the functions above.
   */

  /** `validate(definition, key, usedKeys)`. */
  method Validate(def: map<string, Yaml>, key: string, used: set<string>, fuel: nat) returns (r: Result<set<string>>)
    ensures r == CheckKey(def, key, used, fuel)
    decreases fuel, 0, 0
  {
    if key !in def {
      return Err(NotFound(key));
    }
    if fuel == 0 {
      return Err(StackOverflow);
    }
    var usedKeys := used + {key};
    match def[key] {
      case YMap(val) =>
        r := ValidateSpec(def, key, val, usedKeys, fuel - 1);
      case YNull =>
        r := Err(NullPointer);
      case _ =>
        r := Err(ClassCast);
    }
  }

  method ValidateSpec(def: map<string, Yaml>, key: string, val: map<string, Yaml>, used: set<string>, fuel: nat)
    returns (r: Result<set<string>>)
    ensures r == CheckSpec(def, key, val, used, fuel)
    decreases fuel, 3, 0
  {
    if VALUE_TYPE !in val {
      return Err("value_type not provided for " + key);
    }
    if !val[VALUE_TYPE].YStr? {
      return Err("value of value_type must be atomic in " + key);
    }
    var valueType := val[VALUE_TYPE].s;
    if valueType !in ValueTypes {
      return Err("Invalid value_type: " + valueType + " in " + key);
    }
    r := ValidateLinks(def, key, val, valueType, used, fuel);
  }

  method ValidateLinks(def: map<string, Yaml>, key: string, val: map<string, Yaml>, valueType: string, used: set<string>, fuel: nat)
    returns (r: Result<set<string>>)
    ensures r == CheckLinks(def, key, val, valueType, used, fuel)
    decreases fuel, 2, 0
  {
    var usedKeys := used;
    if valueType == LIST {
      r := ValidateListType(def, key, val, usedKeys, fuel);
      if r.Err? {
        return;
      }
      usedKeys := r.value;
    }
    if REQUIRED in val {
      if valueType != MAP {
        return Err("Required parameter valid for map value_types only. In " + key);
      }
      match val[REQUIRED] {
        case YList(items) =>
          r := ValidateRequired(def, items, usedKeys, fuel);
        case YNull =>
          r := Err(NullPointer);
        case _ =>
          r := Err(ClassCast);
      }
      if r.Err? {
        return;
      }
      usedKeys := r.value;
    }
    if PARAMETERS in val {
      if !val[PARAMETERS].YList? {
        return Err("Parameters requires a list of labels. In " + key);
      }
      r := ValidateParameters(def, val[PARAMETERS].items, usedKeys, fuel);
      return;
    }
    r := Ok(usedKeys);
  }

  method ValidateListType(def: map<string, Yaml>, key: string, val: map<string, Yaml>, used: set<string>, fuel: nat)
    returns (r: Result<set<string>>)
    ensures r == CheckListType(def, key, val, used, fuel)
    decreases fuel, 1, 0
  {
    if LIST_TYPE !in val {
      return Err("List type not specified in " + key);
    }
    if !val[LIST_TYPE].YStr? {
      return Err("List type must be a string in " + key);
    }
    var listType := val[LIST_TYPE].s;
    if listType in def {
      r := Validate(def, listType, used, fuel);
    } else if listType != STRING {
      r := Err("List type must either be an existing label or 'string' in " + key);
    } else {
      r := Ok(used);
    }
  }

  method ValidateRequired(def: map<string, Yaml>, items: seq<Yaml>, used: set<string>, fuel: nat)
    returns (r: Result<set<string>>)
    ensures r == CheckRequired(def, items, used, fuel)
    decreases fuel, 1, |items|
  {
    var usedKeys := used;
    var i := 0;
    while i < |items|
      invariant 0 <= i <= |items|
      invariant CheckRequired(def, items, used, fuel) == CheckRequired(def, items[i..], usedKeys, fuel)
    {
      assert items[i..][0] == items[i] && items[i..][1..] == items[i + 1..];
      var name := ItemLabel(items[i]);
      if name.Err? {
        return Err(name.error);
      }
      var v := Validate(def, name.value, usedKeys, fuel);
      if v.Err? {
        return v;
      }
      usedKeys := v.value;
      i := i + 1;
    }
    r := Ok(usedKeys);
  }

  method ValidateParameters(def: map<string, Yaml>, items: seq<Yaml>, used: set<string>, fuel: nat)
    returns (r: Result<set<string>>)
    ensures r == CheckParameters(def, items, used, fuel)
    decreases fuel, 1, |items|
  {
    var usedKeys := used;
    var i := 0;
    while i < |items|
      invariant 0 <= i <= |items|
      invariant CheckParameters(def, items, used, fuel) == CheckParameters(def, items[i..], usedKeys, fuel)
    {
      assert items[i..][0] == items[i] && items[i..][1..] == items[i + 1..];
      var name := ItemLabel(items[i]);
      if name.Err? {
        return Err(name.error);
      }
      if name.value !in usedKeys {
        var v := Validate(def, name.value, usedKeys, fuel);
        if v.Err? {
          return v;
        }
        usedKeys := v.value;
      }
      i := i + 1;
    }
    r := Ok(usedKeys);
  }
}
