/**
 * ExtractedRecordCollector: the map of sentiment extractions of one review run.
 *
 * A new extraction is merged against the ones already collected for the same
 * description, extraction type and domain: it replaces one it covers, a negative one
 * replaces a positive one it starts before and overlaps, disjoint ones coexist, and
 * any other overlap rejects it. Before output, title and override extractions push
 * their sentiment onto the content extractions of their description and disappear.
 */
module ExtractedRecords {
  import opened JavaCollections

  /** ExtractedReviewRecord.TYPE_CONTENT, TYPE_TITLE and TYPE_OVERRIDE. */
  datatype ExtractionType = Content | Title | Override

  /** The fields of ExtractedReviewRecord that the collector reads or writes. */
  datatype Record = Record(
    descId: int,
    extractionType: ExtractionType,
    domain: string,
    startToken: int,
    endToken: int,
    score: real,
    overriddenByTitle: bool)

  /** The parts of the collector's string key: domain, descID, start (zero-padded), end, score. */
  datatype Key = Key(domain: string, descId: int, startToken: int, endToken: int, score: real)

  function KeyOf(rec: Record): Key
  {
    Key(rec.domain, rec.descId, rec.startToken, rec.endToken, rec.score)
  }

  /** Only records of the same description, extraction type and domain are compared. */
  predicate SameGroup(rec: Record, prev: Record)
  {
    rec.descId == prev.descId && rec.extractionType == prev.extractionType && rec.domain == prev.domain
  }

  /** What one collected record says about a new one. */
  datatype Verdict = Unrelated | Coexist | Replace | Reject

  /** The if/else-if chain of `add` for one existing record. */
  function Judge(rec: Record, prev: Record): Verdict
  {
    if !SameGroup(rec, prev) then Unrelated
    else if rec.startToken <= prev.startToken && rec.endToken >= prev.endToken then Replace
    else if rec.startToken < prev.startToken && rec.endToken > prev.startToken && prev.score > 0.0 && rec.score < 0.0
    then Replace
    else if rec.endToken <= prev.startToken || prev.endToken <= rec.startToken then Coexist
    else Reject
  }

  /** A verdict that ends the scan. */
  predicate Decisive(v: Verdict) { v == Replace || v == Reject }

  /** The spans [start, end) of two records share a token. */
  predicate Overlap(a: Record, b: Record)
  {
    a.startToken < b.endToken && b.startToken < a.endToken
  }

  /** The verdicts in terms of spans: unrelated records are exactly the other groups; a
    * covering span replaces; a disjoint one coexists unless it covers (an empty old span);
    * a rejected record overlaps the old one without covering it. */
  lemma JudgeMeaning(rec: Record, prev: Record)
    ensures Judge(rec, prev) == Unrelated <==> !SameGroup(rec, prev)
    ensures SameGroup(rec, prev) && rec.startToken <= prev.startToken && prev.endToken <= rec.endToken
      ==> Judge(rec, prev) == Replace
    ensures Judge(rec, prev) == Coexist ==> !Overlap(rec, prev)
    ensures Judge(rec, prev) == Reject ==>
      Overlap(rec, prev) && !(rec.startToken <= prev.startToken && prev.endToken <= rec.endToken)
    ensures (SameGroup(rec, prev) && rec.startToken < prev.startToken < rec.endToken
             && prev.score > 0.0 && rec.score < 0.0) ==> Judge(rec, prev) == Replace
  {
  }

  /** A collected record whose description has a title or override record under another key. */
  predicate HasTitleSibling(m: map<Key, Record>, k: Key)
    requires k in m
  {
    exists k' :: k' in m && k' != k && m[k'].extractionType != Content && m[k'].descId == m[k].descId
  }

  /** What overriding by title may do to a record: change its score to its negation, to -1 or
    * (a -1 flipped by a later title) to 1, and set the override flag. */
  predicate Rescored(was: Record, now: Record)
  {
    now.(score := was.score, overriddenByTitle := was.overriddenByTitle) == was
    && (now.score == was.score || now.score == -was.score || now.score == -1.0 || now.score == 1.0)
  }

  /** The records an override record at t hits: every other record of its description. */
  predicate OverrideTarget(m: map<Key, Record>, t: Key, k: Key)
    requires t in m && k in m
  {
    k != t && m[k].descId == m[t].descId
  }

  /** The records a title record at t hits: every other record of its description and
    * domain whose score has the opposite sign. */
  predicate FlipTarget(m: map<Key, Record>, t: Key, k: Key)
    requires t in m && k in m
  {
    k != t && m[k].descId == m[t].descId && m[k].domain == m[t].domain && m[t].score * m[k].score < 0.0
  }

  /** What an override record at t makes of the record at k. */
  function OverrideAt(m: map<Key, Record>, t: Key, k: Key): Record
    requires t in m && k in m
  {
    if OverrideTarget(m, t, k) then m[k].(score := -1.0, overriddenByTitle := true) else m[k]
  }

  /** What a title record at t makes of the record at k. */
  function FlipAt(m: map<Key, Record>, t: Key, k: Key): Record
    requires t in m && k in m
  {
    if FlipTarget(m, t, k) then m[k].(score := -1.0 * m[k].score, overriddenByTitle := true) else m[k]
  }

  /** The inner loop of the override case: its targets get score -1 and the flag. */
  function OverrideStep(m: map<Key, Record>, t: Key): map<Key, Record>
    requires t in m
  {
    map k | k in m :: OverrideAt(m, t, k)
  }

  /** The inner loop of the title case: its targets have their score negated and the flag set. */
  function FlipStep(m: map<Key, Record>, t: Key): map<Key, Record>
    requires t in m
  {
    map k | k in m :: FlipAt(m, t, k)
  }

  /** One turn of the outer loop at key t: an override or title record still present acts on
    * the others and is removed; anything else leaves the map alone. */
  function ConsumeStep(m: map<Key, Record>, t: Key): map<Key, Record>
  {
    if t !in m then m
    else if m[t].extractionType == Override then OverrideStep(m, t) - {t}
    else if m[t].extractionType == Title then FlipStep(m, t) - {t}
    else m
  }

  /** The outer loop over the keys visited so far, in that order. */
  function Consumed(m: map<Key, Record>, visited: seq<Key>): map<Key, Record>
  {
    if visited == [] then m
    else ConsumeStep(Consumed(m, visited[..|visited| - 1]), visited[|visited| - 1])
  }

  /** One outer step as seen from another record k. */
  lemma ConsumeStepAt(m: map<Key, Record>, x: Key, k: Key)
    requires k in m && k != x
    ensures k in ConsumeStep(m, x)
    ensures ConsumeStep(m, x)[k] ==
      if x in m && m[x].extractionType == Override then OverrideAt(m, x, k)
      else if x in m && m[x].extractionType == Title then FlipAt(m, x, k)
      else m[k]
  {
  }

  predicate Distinct(ks: seq<Key>)
  {
    forall a, b :: 0 <= a < b < |ks| ==> ks[a] != ks[b]
  }

  /** Only score and flag are ever changed. */
  predicate SameFields(was: Record, now: Record)
  {
    now.(score := was.score, overriddenByTitle := was.overriddenByTitle) == was
  }

  /** After visiting some keys, exactly the content records and the unvisited ones remain, and
    * each keeps every field but its score and flag. */
  lemma {:induction false} ConsumedShape(m: map<Key, Record>, visited: seq<Key>)
    requires Distinct(visited)
    ensures forall k :: k in Consumed(m, visited) <==>
      k in m && (m[k].extractionType == Content || k !in visited)
    ensures forall k :: k in Consumed(m, visited) ==> SameFields(m[k], Consumed(m, visited)[k])
  {
    if visited != [] {
      var q := visited[..|visited| - 1];
      assert visited == q + [visited[|visited| - 1]];
      ConsumedShape(m, q);
    }
  }

  /** A content record whose description has an override record and no title record ends with
    * score -1, whatever order the keys are visited in. */
  lemma OverrideWins(m: map<Key, Record>, order: seq<Key>, k: Key, o: Key)
    requires Distinct(order) && forall x :: x in m ==> x in order
    requires k in m && m[k].extractionType == Content
    requires o in m && m[o].extractionType == Override && m[o].descId == m[k].descId
    requires forall t :: t in m && m[t].extractionType == Title ==> m[t].descId != m[k].descId
    ensures k in Consumed(m, order)
    ensures Consumed(m, order)[k] == m[k].(score := -1.0, overriddenByTitle := true)
  {
    OverridePrefix(m, order, k, o);
  }

  lemma {:induction false} OverridePrefix(m: map<Key, Record>, visited: seq<Key>, k: Key, o: Key)
    requires Distinct(visited)
    requires k in m && m[k].extractionType == Content
    requires o in m && m[o].extractionType == Override && m[o].descId == m[k].descId
    requires forall t :: t in m && m[t].extractionType == Title ==> m[t].descId != m[k].descId
    ensures k in Consumed(m, visited)
    ensures Consumed(m, visited)[k] == m[k] ||
      Consumed(m, visited)[k] == m[k].(score := -1.0, overriddenByTitle := true)
    ensures o in visited ==> Consumed(m, visited)[k] == m[k].(score := -1.0, overriddenByTitle := true)
  {
    if visited != [] {
      var q := visited[..|visited| - 1];
      var x := visited[|visited| - 1];
      assert visited == q + [x];
      OverridePrefix(m, q, k, o);
      ConsumedShape(m, q);
      var c := Consumed(m, q);
      if x in c && x != k {
        assert SameFields(m[x], c[x]) && SameFields(m[k], c[k]);
        ConsumeStepAt(c, x, k);
        if x == o {
          assert OverrideTarget(c, x, k);
        }
      } else if x != k {
        ConsumeStepAt(c, x, k);
      }
    }
  }

  /** A content record whose description has exactly one other non-content record, a title
    * of the same domain whose score has the opposite sign, ends with its score negated. */
  lemma TitleFlips(m: map<Key, Record>, order: seq<Key>, k: Key, t: Key)
    requires Distinct(order) && forall x :: x in m ==> x in order
    requires k in m && m[k].extractionType == Content
    requires t in m && m[t].extractionType == Title && m[t].descId == m[k].descId
    requires m[t].domain == m[k].domain && m[t].score * m[k].score < 0.0
    requires forall x :: x in m && x != t && m[x].extractionType != Content ==> m[x].descId != m[k].descId
    ensures k in Consumed(m, order)
    ensures Consumed(m, order)[k] == m[k].(score := -1.0 * m[k].score, overriddenByTitle := true)
  {
    TitlePrefix(m, order, k, t);
  }

  lemma {:induction false} TitlePrefix(m: map<Key, Record>, visited: seq<Key>, k: Key, t: Key)
    requires Distinct(visited)
    requires k in m && m[k].extractionType == Content
    requires t in m && m[t].extractionType == Title && m[t].descId == m[k].descId
    requires m[t].domain == m[k].domain && m[t].score * m[k].score < 0.0
    requires forall x :: x in m && x != t && m[x].extractionType != Content ==> m[x].descId != m[k].descId
    ensures k in Consumed(m, visited)
    ensures t !in visited ==>
      t in Consumed(m, visited) && Consumed(m, visited)[t] == m[t] && Consumed(m, visited)[k] == m[k]
    ensures t in visited ==>
      Consumed(m, visited)[k] == m[k].(score := -1.0 * m[k].score, overriddenByTitle := true)
  {
    if visited != [] {
      var q := visited[..|visited| - 1];
      var x := visited[|visited| - 1];
      assert visited == q + [x];
      TitlePrefix(m, q, k, t);
      ConsumedShape(m, q);
      var c := Consumed(m, q);
      if x != k {
        ConsumeStepAt(c, x, k);
        if x in c {
          assert SameFields(m[x], c[x]) && SameFields(m[k], c[k]);
          if x == t {
            assert FlipTarget(c, x, k);
          } else if c[x].extractionType != Content {
            assert m[x].descId != m[k].descId;
            assert !OverrideTarget(c, x, k) && !FlipTarget(c, x, k);
            if t in c {
              ConsumeStepAt(c, x, t);
              assert !OverrideTarget(c, x, t) && !FlipTarget(c, x, t);
            }
          }
        }
      }
    }
  }

  /** The facts the outer loop keeps about every record, before and after one inner loop. */
  predicate KeptFrom(m0: map<Key, Record>, m: map<Key, Record>)
  {
    m.Keys <= m0.Keys &&
    (forall k :: k in m ==> Rescored(m0[k], m[k])) &&
    (forall k :: k in m && !HasTitleSibling(m0, k) ==> m[k] == m0[k])
  }

  lemma OverrideKeeps(m: map<Key, Record>, t: Key, m0: map<Key, Record>)
    requires t in m && KeptFrom(m0, m) && m0[t].extractionType != Content
    ensures KeptFrom(m0, OverrideStep(m, t))
  {
    forall k | k in m && OverrideTarget(m, t, k)
      ensures HasTitleSibling(m0, k)
    {
      assert t in m0 && t != k;
    }
  }

  lemma FlipKeeps(m: map<Key, Record>, t: Key, m0: map<Key, Record>)
    requires t in m && KeptFrom(m0, m) && m0[t].extractionType != Content
    ensures KeptFrom(m0, FlipStep(m, t))
  {
    forall k | k in m && FlipTarget(m, t, k)
      ensures HasTitleSibling(m0, k)
    {
      assert t in m0 && t != k;
    }
  }

  /** The inner override loop reaching keys[j]: the record there is still the original, and
    * whether the loop rewrites it is the target test. */
  lemma OverrideVisit(r0: map<Key, Record>, m: map<Key, Record>, keys: seq<Key>, i: int, j: int)
    requires 0 <= i < |keys| && 0 <= j < |keys| && Distinct(keys) && keys[i] in r0
    requires m.Keys == r0.Keys
    requires forall k :: k in m ==> m[k] == (if k in keys[..j] then OverrideAt(r0, keys[i], k) else r0[k])
    ensures keys[..j + 1] == keys[..j] + [keys[j]]
    ensures keys[j] in m ==> m[keys[j]] == r0[keys[j]]
    ensures keys[j] in m ==>
      (OverrideTarget(r0, keys[i], keys[j]) <==> j != i && m[keys[j]].descId == r0[keys[i]].descId)
  {
    assert keys[..j + 1] == keys[..j] + [keys[j]];
    assert keys[j] !in keys[..j];
  }

  /** The inner title loop reaching keys[j], in the same way. */
  lemma FlipVisit(r0: map<Key, Record>, m: map<Key, Record>, keys: seq<Key>, i: int, j: int)
    requires 0 <= i < |keys| && 0 <= j < |keys| && Distinct(keys) && keys[i] in r0
    requires m.Keys == r0.Keys
    requires forall k :: k in m ==> m[k] == (if k in keys[..j] then FlipAt(r0, keys[i], k) else r0[k])
    ensures keys[..j + 1] == keys[..j] + [keys[j]]
    ensures keys[j] in m ==> m[keys[j]] == r0[keys[j]]
    ensures keys[j] in m ==>
      (FlipTarget(r0, keys[i], keys[j]) <==>
        (j != i && m[keys[j]].descId == r0[keys[i]].descId &&
         m[keys[j]].domain == r0[keys[i]].domain && r0[keys[i]].score * m[keys[j]].score < 0.0))
  {
    assert keys[..j + 1] == keys[..j] + [keys[j]];
    assert keys[j] !in keys[..j];
  }

  class ExtractedRecordCollector {
    var records: map<Key, Record>

    constructor()
      ensures records == map[]
    {
      records := map[];
    }

    /** `add`: the collected records are scanned in an unspecified order and the first
      * decisive one (replace or reject) settles the outcome. */
    method Add(rec: Record) returns (added: bool)
      modifies this
      ensures (forall k :: k in old(records) ==> !Decisive(Judge(rec, old(records)[k])))
        ==> added && records == old(records)[KeyOf(rec) := rec]
      ensures !added ==>
        records == old(records) && exists k :: k in old(records) && Judge(rec, old(records)[k]) == Reject
      ensures added && (exists k :: k in old(records) && Decisive(Judge(rec, old(records)[k]))) ==>
        exists k :: k in old(records) && Judge(rec, old(records)[k]) == Replace
          && records == (old(records) - {k})[KeyOf(rec) := rec]
    {
      added := true;
      var toRemove: Key;
      var removing := false;
      var rest := records.Keys;
      while rest != {}
        invariant rest <= records.Keys
        invariant added && !removing
        invariant forall k :: k in records && k !in rest ==> !Decisive(Judge(rec, records[k]))
        decreases |rest|
      {
        var keyPrev :| keyPrev in rest;
        rest := rest - {keyPrev};
        var verdict := Judge(rec, records[keyPrev]);
        if verdict == Replace {
          toRemove := keyPrev;
          removing := true;
          break;
        } else if verdict == Reject {
          added := false;
          break;
        }
      }
      if removing {
        records := records - {toRemove};
      }
      if added {
        records := records[KeyOf(rec) := rec];
      }
    }

    /** `overrideByTitleSentiment`: the keys are visited in the map's order; an override
      * record sets the score of every other record of its description to -1; a title record
      * flips the score of every other record of its description and domain whose sign
      * disagrees with its own; both kinds are then removed. */
    method OverrideByTitleSentiment() returns (ghost order: seq<Key>)
      modifies this
      ensures Distinct(order) && forall k :: k in order <==> k in old(records)
      ensures records == Consumed(old(records), order)
      ensures records.Keys == set k | k in old(records) && old(records)[k].extractionType == Content
      ensures forall k :: k in records ==> Rescored(old(records)[k], records[k])
      ensures forall k :: k in records && !HasTitleSibling(old(records), k) ==> records[k] == old(records)[k]
    {
      if |records| == 0 {
        return [];
      }
      ghost var m0 := records;
      var keys := SomeOrder(records.Keys);
      var i := 0;
      while i < |keys|
        invariant 0 <= i <= |keys|
        invariant records == Consumed(m0, keys[..i])
        invariant forall k :: k in records <==> k in m0 && (m0[k].extractionType == Content || k !in keys[..i])
        invariant KeptFrom(m0, records)
      {
        assert keys[..i + 1][..i] == keys[..i];
        ConsumeAt(keys, i, m0);
        i := i + 1;
      }
      assert keys[..i] == keys;
      order := keys;
    }

    /** One step of the outer loop: an override or title record at keys[i] pushes its
      * sentiment onto its siblings and is removed; a content record stays. */
    method ConsumeAt(keys: seq<Key>, i: nat, ghost m0: map<Key, Record>)
      requires i < |keys| && Distinct(keys)
      requires forall k :: k in keys <==> k in m0
      requires forall k :: k in records <==> k in m0 && (m0[k].extractionType == Content || k !in keys[..i])
      requires KeptFrom(m0, records)
      modifies this
      ensures records == ConsumeStep(old(records), keys[i])
      ensures forall k :: k in records <==> k in m0 && (m0[k].extractionType == Content || k !in keys[..i + 1])
      ensures KeptFrom(m0, records)
    {
      assert keys[..i + 1] == keys[..i] + [keys[i]];
      if keys[i] in records {
        var er := records[keys[i]];
        if er.extractionType == Override {
          OverrideAll(keys, i);
          OverrideKeeps(old(records), keys[i], m0);
          records := records - {keys[i]};
        } else if er.extractionType == Title {
          FlipByTitle(keys, i);
          FlipKeeps(old(records), keys[i], m0);
          records := records - {keys[i]};
        }
      }
    }

    /** The inner loop of the override case. */
    method OverrideAll(keys: seq<Key>, i: nat)
      requires i < |keys| && keys[i] in records && Distinct(keys)
      requires forall k :: k in records ==> k in keys
      modifies this
      ensures records == OverrideStep(old(records), keys[i])
    {
      ghost var r0 := records;
      var titleDescId := records[keys[i]].descId;
      var j := 0;
      while j < |keys|
        invariant 0 <= j <= |keys|
        invariant records.Keys == r0.Keys
        invariant forall k :: k in records ==>
          records[k] == (if k in keys[..j] then OverrideAt(r0, keys[i], k) else r0[k])
      {
        OverrideVisit(r0, records, keys, i, j);
        if j != i && keys[j] in records && records[keys[j]].descId == titleDescId {
          var er1 := records[keys[j]];
          records := records[keys[j] := er1.(score := -1.0, overriddenByTitle := true)];
        }
        j := j + 1;
      }
      assert keys[..j] == keys;
      assert records == OverrideStep(r0, keys[i]);
    }

    /** The inner loop of the title case. */
    method FlipByTitle(keys: seq<Key>, i: nat)
      requires i < |keys| && keys[i] in records && Distinct(keys)
      requires forall k :: k in records ==> k in keys
      modifies this
      ensures records == FlipStep(old(records), keys[i])
    {
      ghost var r0 := records;
      var title := records[keys[i]];
      var j := 0;
      while j < |keys|
        invariant 0 <= j <= |keys|
        invariant records.Keys == r0.Keys
        invariant forall k :: k in records ==>
          records[k] == (if k in keys[..j] then FlipAt(r0, keys[i], k) else r0[k])
      {
        FlipVisit(r0, records, keys, i, j);
        if j != i && keys[j] in records && records[keys[j]].descId == title.descId
          && records[keys[j]].domain == title.domain
        {
          var er1 := records[keys[j]];
          if title.score * er1.score < 0.0 {
            records := records[keys[j] := er1.(score := -1.0 * er1.score, overriddenByTitle := true)];
          }
        }
        j := j + 1;
      }
      assert keys[..j] == keys;
      assert records == FlipStep(r0, keys[i]);
    }
  }
}
