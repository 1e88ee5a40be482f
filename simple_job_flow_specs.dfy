/**
 * SimpleJobFlowSpecs.validate: checks a job-flow specification against the definition.
 *
 * The specification is a YAML tree. Each value is checked against the label it sits
 * under. A value of the wrong type adds a message to an error list. A map also reports
 * its missing required keys and its parameters that are not allowed, and then checks
 * each of its entries. A list whose list type is a label checks each of its items.
 * Messages only ever accumulate. A runtime exception (an undefined label, a failed cast,
 * a null value) ends the walk and is `Err` with its message.
 *
 * The error list is threaded through the calls: each call takes the list so far and
 * returns it extended. `Conforms` is the declarative reference: it says when a tree
 * draws no message and no exception.
 */
module JobFlowSpecsValidation {
  import opened Wrappers
  import opened JavaText
  import opened JobFlowDefinitions
  import JavaCollections

  /** The value types whose check is a single instanceof test. */
  predicate IsScalarType(vt: string)
  {
    vt == BOOLEAN || vt == INTEGER || vt == DOUBLE || vt == STRING || vt == STRING_OR_INTEGER
  }

  /** A YAML integer the loader returns as a java.lang.Integer: one in the 32-bit range.
    * A wider integer comes back as a Long or a BigInteger, and `instanceof Integer`
    * fails on it. */
  predicate IsJavaInteger(v: Yaml)
  {
    v.YInt? && -0x8000_0000 <= v.i <= 0x7FFF_FFFF
  }

  /** The scalar value v has the type vt asks for. */
  predicate ScalarFits(vt: string, v: Yaml)
    requires IsScalarType(vt)
  {
    if vt == BOOLEAN then v.YBool?
    else if vt == INTEGER then IsJavaInteger(v)
    else if vt == DOUBLE then v.YDouble?
    else if vt == STRING then v.YStr?
    else v.YStr? || IsJavaInteger(v)
  }

  /** An integer passes the integer checks exactly when it fits in 32 bits: 2^31 is
    * reported as not an integer, and 2^31 - 1 is not. */
  lemma IntegerWidth(specs: map<string, SpecItem>, key: string, i: int)
    requires key in specs && (specs[key].valueType == INTEGER || specs[key].valueType == STRING_OR_INTEGER)
    ensures Conforms(specs, YInt(i), key) <==> -0x8000_0000 <= i <= 0x7FFF_FFFF
    ensures !Conforms(specs, YInt(0x8000_0000), key) && Conforms(specs, YInt(0x7FFF_FFFF), key)
  {
  }

  /** The message for a scalar of the wrong type. */
  function TypeMessage(key: string, vt: string): string
    requires IsScalarType(vt)
  {
    "Value of " + key +
    (if vt == BOOLEAN then " must be a boolean."
     else if vt == INTEGER then " must be an integer."
     else if vt == DOUBLE then " must be a double."
     else if vt == STRING then " must be a string."
     else " must be either a string or an integer.")
  }

  function RequiredMissing(r: string, key: string): string
  {
    "Required key " + r + " is missing in " + key
  }

  function InvalidParameter(p: string, key: string): string
  {
    p + " not a valid parameter for " + key
  }

  /** The value v under label key draws no message and no exception. */
  predicate Conforms(specs: map<string, SpecItem>, v: Yaml, key: string)
    decreases v, 1
  {
    key in specs &&
    var item := specs[key];
    var vt := item.valueType;
    if IsScalarType(vt) then ScalarFits(vt, v)
    else if vt == LIST then
      v.YList? && item.listType.Some? &&
      (item.listType.value == STRING || forall i :: 0 <= i < |v.items| ==> ItemConforms(specs, v.items[i]))
    else if vt == MAP then
      v.YMap? && (forall y :: y in item.required ==> y.YStr? && y.s in v.m) &&
      (PARAMETERS in v.m ==> v.m[PARAMETERS].YMap? && v.m[PARAMETERS].m.Keys <= Names(item.parameters)) &&
      EntriesConform(specs, v)
    else false
  }

  /** An item of a list of labelled values: a label standing for itself, or a map whose
    * every entry conforms. */
  predicate ItemConforms(specs: map<string, SpecItem>, x: Yaml)
    decreases x, 2
  {
    (x.YStr? && Conforms(specs, x, x.s)) || (x.YMap? && EntriesConform(specs, x))
  }

  /** Every entry of the map v conforms under its own key. */
  predicate EntriesConform(specs: map<string, SpecItem>, v: Yaml)
    requires v.YMap?
    decreases v, 0
  {
    forall k :: k in v.m ==> Conforms(specs, v.m[k], k)
  }

  /** The labels among a set of list items: its strings. */
  function Names(items: set<Yaml>): set<string>
  {
    set y | y in items && y.YStr? :: y.s
  }

  /** A list item the loop variable `String r` cannot hold: neither a string nor null. */
  predicate NotAString(y: Yaml)
  {
    !y.YStr? && !y.YNull?
  }

  /** Every missing required key, a null required key, and every parameter not allowed
    * is reported. */
  predicate MapErrorsReported(item: SpecItem, m: map<string, Yaml>, key: string, errs: seq<string>)
  {
    (forall q :: q in Names(item.required) && q !in m ==> RequiredMissing(q, key) in errs) &&
    (YNull in item.required ==> RequiredMissing("null", key) in errs) &&
    (PARAMETERS in m && m[PARAMETERS].YMap? ==>
      forall p :: p in m[PARAMETERS].m && p !in Names(item.parameters) ==> InvalidParameter(p, key) in errs)
  }

  /** `validate(specsDefinition, specs, key, errors)`. The source's null check on the
    * value type cannot fire: `getValueType` throws first for an undefined label. */
  method Validate(definition: JobFlowSpecsDefinition, specs: Yaml, key: string, errors: seq<string>)
    returns (r: Result<seq<string>>)
    ensures r.Ok? ==> errors <= r.value
    ensures r.Ok? ==> (r.value == errors <==> Conforms(definition.specs, specs, key))
    ensures r.Err? ==> !Conforms(definition.specs, specs, key)
    ensures key !in definition.specs ==> r == Err(UndefinedKey(key))
    ensures key in definition.specs && IsScalarType(definition.specs[key].valueType) ==>
      var vt := definition.specs[key].valueType;
      r == Ok(if ScalarFits(vt, specs) then errors else errors + [TypeMessage(key, vt)])
    ensures key in definition.specs && definition.specs[key].valueType == MAP && specs.YMap? && r.Ok? ==>
      MapErrorsReported(definition.specs[key], specs.m, key, r.value)
    decreases specs, 4
  {
    var valueType := definition.GetValueType(key);
    if valueType.Err? {
      return Err(valueType.error);
    }
    var vt := valueType.value;
    if IsScalarType(vt) {
      if ScalarFits(vt, specs) {
        r := Ok(errors);
      } else {
        r := Ok(errors + [TypeMessage(key, vt)]);
      }
    } else if vt == LIST {
      r := ValidateList(definition, specs, key, errors);
    } else if vt == MAP {
      if !specs.YMap? {
        r := Ok(errors + ["Value of " + key + " must be a map."]);
      } else {
        r := ValidateMap(definition, specs, key, errors);
      }
    } else {
      r := Ok(errors + ["Value type " + vt + " not recognized."]);
    }
  }

  /** The list branch: a value that is not a list is reported and then, unless the list
    * type is "string", fails the cast; a null list type fails the comparison. */
  method ValidateList(definition: JobFlowSpecsDefinition, specs: Yaml, key: string, errors: seq<string>)
    returns (r: Result<seq<string>>)
    requires key in definition.specs && definition.specs[key].valueType == LIST
    ensures r.Ok? ==> errors <= r.value
    ensures r.Ok? ==> (r.value == errors <==> Conforms(definition.specs, specs, key))
    ensures r.Err? ==> !Conforms(definition.specs, specs, key)
    decreases specs, 3
  {
    var acc := errors;
    if !specs.YList? {
      acc := acc + ["Value of " + key + " must be a list."];
    }
    var listType := definition.GetListType(key).value;
    if listType.None? {
      return Err(NullPointer);
    }
    if listType.value == STRING {
      return Ok(acc);
    }
    match specs {
      case YList(_) =>
        r := ValidateItems(definition, specs, key, acc);
      case YNull =>
        r := Err(NullPointer);
      case _ =>
        r := Err(ClassCast);
    }
  }

  /** The items of a list whose list type is a label: a string item is checked under the
    * label it names, a map item entry by entry, anything else is reported. */
  method ValidateItems(definition: JobFlowSpecsDefinition, specs: Yaml, key: string, errors: seq<string>)
    returns (r: Result<seq<string>>)
    requires specs.YList?
    ensures r.Ok? ==> errors <= r.value
    ensures r.Ok? ==>
      (r.value == errors <==> forall i :: 0 <= i < |specs.items| ==> ItemConforms(definition.specs, specs.items[i]))
    ensures r.Err? ==> !forall i :: 0 <= i < |specs.items| ==> ItemConforms(definition.specs, specs.items[i])
    decreases specs, 2
  {
    var items := specs.items;
    var acc := errors;
    var i := 0;
    while i < |items|
      invariant 0 <= i <= |items|
      invariant errors <= acc
      invariant acc == errors <==> forall j :: 0 <= j < i ==> ItemConforms(definition.specs, items[j])
    {
      var item := items[i];
      var v: Result<seq<string>>;
      match item {
        case YStr(s) =>
          v := Validate(definition, item, s, acc);
        case YMap(_) =>
          v := ValidateEntries(definition, item, acc);
        case _ =>
          v := Ok(acc + ["Only strings or maps allowed as list items in " + key]);
      }
      if v.Err? {
        return v;
      }
      acc := v.value;
      i := i + 1;
    }
    r := Ok(acc);
  }

  /** The map branch: missing required keys, parameters not allowed, then every entry. */
  method ValidateMap(definition: JobFlowSpecsDefinition, specs: Yaml, key: string, errors: seq<string>)
    returns (r: Result<seq<string>>)
    requires key in definition.specs && definition.specs[key].valueType == MAP && specs.YMap?
    ensures r.Ok? ==> errors <= r.value
    ensures r.Ok? ==> (r.value == errors <==> Conforms(definition.specs, specs, key))
    ensures r.Err? ==> !Conforms(definition.specs, specs, key)
    ensures r.Ok? ==> MapErrorsReported(definition.specs[key], specs.m, key, r.value)
    decreases specs, 3
  {
    var m := specs.m;
    var required := definition.GetRequired(key).value;
    var acc := ReportRequired(required, m.Keys, key, errors);
    if acc.Err? {
      return acc;
    }
    var validParameters := definition.GetParameters(key).value;
    var acc2 := ReportParameters(m, Names(validParameters), key, acc.value);
    if acc2.Err? {
      return acc2;
    }
    r := ValidateEntries(definition, specs, acc2.value);
    if r.Ok? {
      PrefixChain(errors, acc.value, acc2.value, r.value);
    }
  }

  /** Three extensions in a row leave the list as it was iff each one does. */
  lemma PrefixChain(a: seq<string>, b: seq<string>, c: seq<string>, d: seq<string>)
    requires a <= b <= c <= d
    ensures a <= d
    ensures d == a <==> b == a && c == b && d == c
  {
  }

  /** The loop over the required keys: an item that is not a string fails the cast to the
    * loop variable; a null key is missing from every map; each string key outside
    * `present` is reported. The null key's message comes first, as a hash set holds null
    * in its first bucket. */
  method ReportRequired(required: set<Yaml>, present: set<string>, key: string, errors: seq<string>)
    returns (r: Result<seq<string>>)
    ensures r.Err? <==> exists y :: y in required && NotAString(y)
    ensures r.Err? ==> r.error == ClassCast
    ensures r.Ok? ==> errors <= r.value
    ensures r.Ok? ==> (r.value == errors <==> forall y :: y in required ==> y.YStr? && y.s in present)
    ensures r.Ok? ==> forall q :: YStr(q) in required && q !in present ==> RequiredMissing(q, key) in r.value
    ensures r.Ok? && YNull in required ==> RequiredMissing("null", key) in r.value
  {
    if exists y :: y in required && NotAString(y) {
      return Err(ClassCast);
    }
    var acc := errors + (if YNull in required then [RequiredMissing("null", key)] else []);
    var names := Names(required);
    var acc2 := ReportOutside(names, present, q => RequiredMissing(q, key), acc);
    forall q | YStr(q) in required
      ensures q in names
    {
    }
    if YNull in required {
      assert acc[|errors|] == RequiredMissing("null", key);
      assert acc2[|errors|] == acc[|errors|];
    }
    r := Ok(acc2);
  }

  /** The parameters entry of a map: a map whose keys are each checked, or a failed cast. */
  method ReportParameters(m: map<string, Yaml>, valid: set<string>, key: string, errors: seq<string>)
    returns (r: Result<seq<string>>)
    ensures r.Ok? <==> PARAMETERS !in m || m[PARAMETERS].YMap?
    ensures r.Ok? ==> errors <= r.value
    ensures r.Ok? ==> (r.value == errors <==> PARAMETERS !in m || m[PARAMETERS].m.Keys <= valid)
    ensures r.Ok? && PARAMETERS in m ==>
      forall p :: p in m[PARAMETERS].m && p !in valid ==> InvalidParameter(p, key) in r.value
  {
    if PARAMETERS !in m {
      return Ok(errors);
    }
    match m[PARAMETERS] {
      case YMap(parameters) =>
        var acc := ReportOutside(parameters.Keys, valid, p => InvalidParameter(p, key), errors);
        r := Ok(acc);
      case YNull =>
        r := Err(NullPointer);
      case _ =>
        r := Err(ClassCast);
    }
  }

  /** The messages for the keys of `order` outside `present`, in that order. */
  function MessagesFor(order: seq<string>, present: set<string>, message: string -> string): seq<string>
  {
    if order == [] then []
    else
      var q := order[|order| - 1];
      MessagesFor(order[..|order| - 1], present, message) + (if q in present then [] else [message(q)])
  }

  /** A key outside `present` has its message. */
  lemma {:induction false} MessagesForHas(order: seq<string>, present: set<string>, message: string -> string, q: string)
    requires q in order && q !in present
    ensures message(q) in MessagesFor(order, present, message)
  {
    var init := order[..|order| - 1];
    if order[|order| - 1] != q {
      assert q in init by {
        var i :| 0 <= i < |order| && order[i] == q;
        assert init[i] == q;
      }
      MessagesForHas(init, present, message, q);
    }
  }

  /** There are no messages iff every key is present. */
  lemma {:induction false} MessagesForEmpty(order: seq<string>, present: set<string>, message: string -> string)
    ensures MessagesFor(order, present, message) == [] <==> forall q :: q in order ==> q in present
  {
    if order != [] {
      var init := order[..|order| - 1];
      MessagesForEmpty(init, present, message);
      assert order == init + [order[|order| - 1]];
    }
  }

  /** Over keys listed once each, there is one message per key outside `present`. */
  lemma {:induction false} MessagesForCount(order: seq<string>, present: set<string>, message: string -> string)
    requires forall i, j :: 0 <= i < j < |order| ==> order[i] != order[j]
    ensures |MessagesFor(order, present, message)| == |(set q | q in order) - present|
  {
    if order == [] {
      assert (set q | q in order) == {};
    } else {
      var init := order[..|order| - 1];
      var last := order[|order| - 1];
      MessagesForCount(init, present, message);
      KeysOfSnoc(order, init);
      forall i | 0 <= i < |init|
        ensures init[i] != last
      {
        assert init[i] == order[i];
      }
      OutsideStep((set q | q in init), present, last);
    }
  }

  /** The keys of a list with one more key at its end. */
  lemma KeysOfSnoc(order: seq<string>, init: seq<string>)
    requires order != [] && init == order[..|order| - 1]
    ensures (set q | q in order) == (set q | q in init) + {order[|order| - 1]}
  {
    assert order == init + [order[|order| - 1]];
  }

  /** One more key looked at: the keys outside `present` grow by it iff it is outside. */
  lemma OutsideStep(done: set<string>, present: set<string>, q: string)
    requires q !in done
    ensures |(done + {q}) - present| == |done - present| + (if q in present then 0 else 1)
  {
    if q in present {
      assert (done + {q}) - present == done - present;
    } else {
      assert (done + {q}) - present == (done - present) + {q};
    }
  }

  /** The loops over the required keys and over the given parameters: each key outside
    * `present`, in the set's iteration order, adds its one message. */
  method ReportOutside(keys: set<string>, present: set<string>, message: string -> string, errors: seq<string>)
    returns (acc: seq<string>)
    ensures errors <= acc
    ensures |acc| == |errors| + |keys - present|
    ensures acc == errors <==> keys <= present
    ensures forall q :: q in keys && q !in present ==> message(q) in acc
  {
    var order := JavaCollections.SomeOrder(keys);
    acc := errors;
    var i := 0;
    while i < |order|
      invariant 0 <= i <= |order|
      invariant acc == errors + MessagesFor(order[..i], present, message)
    {
      assert order[..i + 1][..i] == order[..i];
      acc := acc + (if order[i] in present then [] else [message(order[i])]);
      i := i + 1;
    }
    assert order[..i] == order;
    assert (set q | q in order) == keys;
    MessagesForCount(order, present, message);
    MessagesForEmpty(order, present, message);
    forall q | q in keys && q !in present
      ensures message(q) in acc
    {
      MessagesForHas(order, present, message, q);
    }
  }

  /** The loop over a map's entries: each value is checked under its own key. */
  method ValidateEntries(definition: JobFlowSpecsDefinition, specs: Yaml, errors: seq<string>)
    returns (r: Result<seq<string>>)
    requires specs.YMap?
    ensures r.Ok? ==> errors <= r.value
    ensures r.Ok? ==> (r.value == errors <==> EntriesConform(definition.specs, specs))
    ensures r.Err? ==> !EntriesConform(definition.specs, specs)
    decreases specs, 1
  {
    var m := specs.m;
    var acc := errors;
    var rest := m.Keys;
    while rest != {}
      invariant rest <= m.Keys
      invariant errors <= acc
      invariant acc == errors <==> forall k :: k in m.Keys - rest ==> Conforms(definition.specs, m[k], k)
      decreases |rest|
    {
      // the next entry in the map's iteration order
      var k :| k in rest;
      var v := Validate(definition, m[k], k, acc);
      if v.Err? {
        return v;
      }
      acc := v.value;
      rest := rest - {k};
    }
    r := Ok(acc);
  }

  function ValidationFailed(errors: seq<string>): string
  {
    "Job flow specification validation failed.\n" + Join("\n", errors)
  }

  /** The validation part of `initialize(InputStream)` on a loaded specification and an
    * initialized definition: it fails iff validation throws or reports a message. */
  method Initialize(definition: JobFlowSpecsDefinition, specs: map<string, Yaml>) returns (r: Result<()>)
    ensures r.Ok? <==> Conforms(definition.specs, YMap(specs), TOP)
  {
    var checked := Validate(definition, YMap(specs), TOP, []);
    if checked.Err? {
      return Err(checked.error);
    }
    if checked.value != [] {
      return Err(ValidationFailed(checked.value));
    }
    r := Ok(());
  }
}
