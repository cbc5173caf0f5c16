/** uniquesGraph: per-property `{total, unique}` records for a fixed key set, the largest total
    as `max`, and the normalised bar lengths `total / max` and `unique / max`.

    The source's second loop reads `camelKey`, which its first loop assigns without declaring
    it, so it is one variable shared by both loops that still holds the last key's name when
    the second loop runs: only that record gets its percentages, six times over. `UniquesGraph`
    models that behaviour; `UniquesGraphScoped` is the version with one binding per key. */
module GraphBuilder {
  import opened Wrappers
  import opened JsNumbers
  import opened Keys
  import opened FactBase

  const GraphKeys: seq<string> := ["width", "height", "margin", "padding", "color", "background-color"]

  datatype GraphRecord = GraphRecord(total: nat, unique: nat, percentTotal: Option<JsNumber>, percentUnique: Option<JsNumber>)

  datatype Graph = Graph(max: nat, records: map<string, GraphRecord>)

  /** The record the first loop writes for `key`: zeros when the fact base has no value list for
      it, its count and the collaborator's unique count otherwise. */
  function BaseRecord(stats: Stats, key: string): GraphRecord {
    if key !in stats.properties then GraphRecord(0, 0, None, None)
    else GraphRecord(|stats.properties[key]|, stats.uniquePropertyCount(key), None, None)
  }

  /** The records after the first loop has run over `keys`. */
  function Records(stats: Stats, keys: seq<string>): map<string, GraphRecord> {
    if |keys| == 0 then map[]
    else
      var key := keys[|keys| - 1];
      Records(stats, keys[..|keys| - 1])[CamelCase(key) := BaseRecord(stats, key)]
  }

  /** Every key gets a record, and there are no other records. */
  lemma {:induction false} RecordsHaveKeys(stats: Stats, keys: seq<string>)
    ensures forall i :: 0 <= i < |keys| ==> CamelCase(keys[i]) in Records(stats, keys)
    ensures Records(stats, keys).Keys == set i | 0 <= i < |keys| :: CamelCase(keys[i])
  {
    if |keys| > 0 {
      var init := keys[..|keys| - 1];
      RecordsHaveKeys(stats, init);
      assert forall i :: 0 <= i < |keys| - 1 ==> keys[i] == init[i];
      assert (set i | 0 <= i < |keys| :: CamelCase(keys[i])) ==
        (set i | 0 <= i < |init| :: CamelCase(init[i])) + {CamelCase(keys[|keys| - 1])};
    }
  }

  /** `max` after the first loop has run over `keys`: raised to each present key's total
      when that total is larger. */
  function MaxTotal(stats: Stats, keys: seq<string>): nat {
    if |keys| == 0 then 0
    else
      var max := MaxTotal(stats, keys[..|keys| - 1]);
      var key := keys[|keys| - 1];
      if key in stats.properties && |stats.properties[key]| > max then |stats.properties[key]| else max
  }

  /** A record with its normalised bar lengths filled in. */
  function Normalised(record: GraphRecord, max: nat): GraphRecord {
    record.(percentTotal := Some(Divide(record.total as real, max as real)),
            percentUnique := Some(Divide(record.unique as real, max as real)))
  }

  /** The key names are pairwise distinct once camel-cased. */
  ghost predicate DistinctKeys(keys: seq<string>) {
    forall p, q :: 0 <= p < q < |keys| ==> CamelCase(keys[p]) != CamelCase(keys[q])
  }

  /** The graph the source builds over `keys`: the shared `camelKey` holds the last key's name
      when the second loop runs, so only that record is normalised. */
  function AsWritten(stats: Stats, keys: seq<string>): Graph
    requires |keys| > 0
  {
    var records := Records(stats, keys);
    var max := MaxTotal(stats, keys);
    var leaked := CamelCase(keys[|keys| - 1]);
    RecordsHaveKeys(stats, keys);
    Graph(max, records[leaked := Normalised(records[leaked], max)])
  }

  /** The records after the corrected second loop has normalised the record of each of `keys`. */
  function NormaliseAll(records: map<string, GraphRecord>, keys: seq<string>, max: nat): (r: map<string, GraphRecord>)
    requires forall i :: 0 <= i < |keys| ==> CamelCase(keys[i]) in records
    ensures r.Keys == records.Keys
  {
    if |keys| == 0 then records
    else
      var init := keys[..|keys| - 1];
      assert forall i :: 0 <= i < |init| ==> init[i] == keys[i];
      var r := NormaliseAll(records, init, max);
      var key := CamelCase(keys[|keys| - 1]);
      r[key := Normalised(r[key], max)]
  }

  /** The graph over `keys` with every record normalised. */
  function Scoped(stats: Stats, keys: seq<string>): Graph {
    RecordsHaveKeys(stats, keys);
    Graph(MaxTotal(stats, keys), NormaliseAll(Records(stats, keys), keys, MaxTotal(stats, keys)))
  }

  function GraphAsWritten(stats: Stats): Graph {
    AsWritten(stats, GraphKeys)
  }

  function GraphScoped(stats: Stats): Graph {
    Scoped(stats, GraphKeys)
  }

  lemma GraphKeysDistinct()
    ensures DistinctKeys(GraphKeys)
  {
    DistinctHeadsGiveDistinctKeys(GraphKeys);
  }

  /** With distinct keys no record is overwritten: each key's entry is the one written for it. */
  lemma {:induction false} RecordsAt(stats: Stats, keys: seq<string>, i: nat)
    requires DistinctKeys(keys)
    requires i < |keys|
    ensures CamelCase(keys[i]) in Records(stats, keys)
    ensures Records(stats, keys)[CamelCase(keys[i])] == BaseRecord(stats, keys[i])
  {
    if i < |keys| - 1 {
      var init := keys[..|keys| - 1];
      assert init[i] == keys[i];
      assert DistinctKeys(init) by {
        forall p, q | 0 <= p < q < |init| ensures CamelCase(init[p]) != CamelCase(init[q]) {
          assert init[p] == keys[p] && init[q] == keys[q];
        }
      }
      RecordsAt(stats, init, i);
    }
  }

  /** `max` is at least every key's total, and it is 0 or the total of some present key. */
  lemma {:induction false} MaxIsGreatestTotal(stats: Stats, keys: seq<string>)
    ensures forall i :: 0 <= i < |keys| ==> |PropertyValues(stats, keys[i])| <= MaxTotal(stats, keys)
    ensures MaxTotal(stats, keys) == 0 ||
      exists i :: 0 <= i < |keys| && |PropertyValues(stats, keys[i])| == MaxTotal(stats, keys)
  {
    if |keys| > 0 {
      var init := keys[..|keys| - 1];
      MaxIsGreatestTotal(stats, init);
      forall i | 0 <= i < |keys| - 1 ensures keys[i] == init[i] { }
      if MaxTotal(stats, keys) != 0 && MaxTotal(stats, keys) == MaxTotal(stats, init) {
        var i :| 0 <= i < |init| && |PropertyValues(stats, init[i])| == MaxTotal(stats, init);
        assert keys[i] == init[i];
      }
    }
  }

  /** Each key's record holds its value count and unique count (both 0 for a key the fact base
      does not have); only the last key's record is normalised. */
  lemma AsWrittenRecords(stats: Stats, keys: seq<string>)
    requires |keys| > 0 && DistinctKeys(keys)
    ensures forall i :: 0 <= i < |keys| ==>
      && CamelCase(keys[i]) in AsWritten(stats, keys).records
      && AsWritten(stats, keys).records[CamelCase(keys[i])].total == |PropertyValues(stats, keys[i])|
      && AsWritten(stats, keys).records[CamelCase(keys[i])].unique ==
           (if keys[i] in stats.properties then stats.uniquePropertyCount(keys[i]) else 0)
    ensures forall i :: 0 <= i < |keys| - 1 ==>
      && AsWritten(stats, keys).records[CamelCase(keys[i])].percentTotal == None
      && AsWritten(stats, keys).records[CamelCase(keys[i])].percentUnique == None
    ensures AsWritten(stats, keys).records[CamelCase(keys[|keys| - 1])] ==
      Normalised(BaseRecord(stats, keys[|keys| - 1]), AsWritten(stats, keys).max)
  {
    forall i | 0 <= i < |keys| {
      RecordsAt(stats, keys, i);
    }
  }

  /** With distinct keys the corrected second loop normalises each key's record exactly once. */
  lemma {:induction false} NormaliseAllAt(records: map<string, GraphRecord>, keys: seq<string>, max: nat, i: nat)
    requires forall j :: 0 <= j < |keys| ==> CamelCase(keys[j]) in records
    requires DistinctKeys(keys)
    requires i < |keys|
    ensures NormaliseAll(records, keys, max)[CamelCase(keys[i])] == Normalised(records[CamelCase(keys[i])], max)
  {
    var init := keys[..|keys| - 1];
    if i < |keys| - 1 {
      assert init[i] == keys[i];
      assert DistinctKeys(init) by {
        forall p, q | 0 <= p < q < |init| ensures CamelCase(init[p]) != CamelCase(init[q]) {
          assert init[p] == keys[p] && init[q] == keys[q];
        }
      }
      NormaliseAllAt(records, init, max, i);
    } else {
      NormaliseAllUntouched(records, init, max, CamelCase(keys[i]));
    }
  }

  /** A record whose key is not among `keys` is left as it was. */
  lemma {:induction false} NormaliseAllUntouched(records: map<string, GraphRecord>, keys: seq<string>, max: nat, key: string)
    requires forall j :: 0 <= j < |keys| ==> CamelCase(keys[j]) in records
    requires key in records
    requires forall j :: 0 <= j < |keys| ==> CamelCase(keys[j]) != key
    ensures NormaliseAll(records, keys, max)[key] == records[key]
  {
    if |keys| > 0 {
      var init := keys[..|keys| - 1];
      assert forall j :: 0 <= j < |init| ==> init[j] == keys[j];
      NormaliseAllUntouched(records, init, max, key);
    }
  }

  lemma ScopedRecords(stats: Stats, keys: seq<string>)
    requires DistinctKeys(keys)
    ensures forall i :: 0 <= i < |keys| ==>
      && CamelCase(keys[i]) in Scoped(stats, keys).records
      && Scoped(stats, keys).records[CamelCase(keys[i])] == Normalised(BaseRecord(stats, keys[i]), Scoped(stats, keys).max)
  {
    forall i | 0 <= i < |keys| {
      RecordsAt(stats, keys, i);
    }
    forall i | 0 <= i < |keys| {
      NormaliseAllAt(Records(stats, keys), keys, MaxTotal(stats, keys), i);
    }
  }

  /** A total of at most `max` gives a bar length between 0 and 1. */
  lemma BarInUnitRange(record: GraphRecord, max: nat)
    requires record.total <= max && max > 0
    ensures Normalised(record, max).percentTotal.value.Finite?
    ensures 0.0 <= Normalised(record, max).percentTotal.value.value <= 1.0
  {
    var t, m := record.total as real, max as real;
    assert t / m <= 1.0;
  }

  /** As written, each configured key's record holds its counts, `max` is the greatest total
      (0 when no key has values), the first five records get no bar lengths, and only the last
      key's (`backgroundColor`) gets `total / max` and `unique / max`, which lies between 0 and
      1 when some key has values. */
  lemma GraphAsWrittenFacts(stats: Stats)
    ensures forall i :: 0 <= i < |GraphKeys| ==>
      && CamelCase(GraphKeys[i]) in GraphAsWritten(stats).records
      && GraphAsWritten(stats).records[CamelCase(GraphKeys[i])].total == |PropertyValues(stats, GraphKeys[i])|
      && GraphAsWritten(stats).records[CamelCase(GraphKeys[i])].unique ==
           (if GraphKeys[i] in stats.properties then stats.uniquePropertyCount(GraphKeys[i]) else 0)
    ensures forall i :: 0 <= i < |GraphKeys| ==> |PropertyValues(stats, GraphKeys[i])| <= GraphAsWritten(stats).max
    ensures GraphAsWritten(stats).max == 0 ||
      exists i :: 0 <= i < |GraphKeys| && |PropertyValues(stats, GraphKeys[i])| == GraphAsWritten(stats).max
    ensures forall i :: 0 <= i < |GraphKeys| - 1 ==>
      && GraphAsWritten(stats).records[CamelCase(GraphKeys[i])].percentTotal == None
      && GraphAsWritten(stats).records[CamelCase(GraphKeys[i])].percentUnique == None
    ensures GraphAsWritten(stats).records[CamelCase(GraphKeys[|GraphKeys| - 1])] ==
      Normalised(BaseRecord(stats, GraphKeys[|GraphKeys| - 1]), GraphAsWritten(stats).max)
    ensures GraphAsWritten(stats).max > 0 ==>
      && GraphAsWritten(stats).records[CamelCase(GraphKeys[|GraphKeys| - 1])].percentTotal.value.Finite?
      && 0.0 <= GraphAsWritten(stats).records[CamelCase(GraphKeys[|GraphKeys| - 1])].percentTotal.value.value <= 1.0
  {
    GraphKeysDistinct();
    AsWrittenRecords(stats, GraphKeys);
    MaxIsGreatestTotal(stats, GraphKeys);
    var last := |GraphKeys| - 1;
    var g := GraphAsWritten(stats);
    if g.max > 0 {
      BarInUnitRange(BaseRecord(stats, GraphKeys[last]), g.max);
    }
  }

  /** With one binding per key, every configured key's bar lengths are filled in, and with some
      key having values each `total / max` lies between 0 and 1. */
  lemma GraphScopedFacts(stats: Stats)
    ensures forall i :: 0 <= i < |GraphKeys| ==>
      && CamelCase(GraphKeys[i]) in GraphScoped(stats).records
      && GraphScoped(stats).records[CamelCase(GraphKeys[i])] == Normalised(BaseRecord(stats, GraphKeys[i]), GraphScoped(stats).max)
    ensures GraphScoped(stats).max > 0 ==> forall i :: 0 <= i < |GraphKeys| ==>
      && GraphScoped(stats).records[CamelCase(GraphKeys[i])].percentTotal.Some?
      && GraphScoped(stats).records[CamelCase(GraphKeys[i])].percentTotal.value.Finite?
      && 0.0 <= GraphScoped(stats).records[CamelCase(GraphKeys[i])].percentTotal.value.value <= 1.0
  {
    GraphKeysDistinct();
    ScopedRecords(stats, GraphKeys);
    if GraphScoped(stats).max > 0 {
      ScopedInUnitRange(stats, GraphKeys);
    }
  }

  /** Over any two or more distinct keys, the as-written graph leaves every key's record but
      the last without bar lengths while the scoped one fills them in, so the graphs differ; the
      two agree on `max` and on the last key's record. */
  lemma {:induction false} LeakOver(stats: Stats, keys: seq<string>)
    requires |keys| >= 2 && DistinctKeys(keys)
    ensures forall i :: 0 <= i < |keys| - 1 ==>
      && CamelCase(keys[i]) in AsWritten(stats, keys).records
      && CamelCase(keys[i]) in Scoped(stats, keys).records
      && AsWritten(stats, keys).records[CamelCase(keys[i])].percentTotal == None
      && Scoped(stats, keys).records[CamelCase(keys[i])].percentTotal.Some?
    ensures AsWritten(stats, keys) != Scoped(stats, keys)
    ensures AsWritten(stats, keys).max == Scoped(stats, keys).max
    ensures CamelCase(keys[|keys| - 1]) in AsWritten(stats, keys).records
    ensures CamelCase(keys[|keys| - 1]) in Scoped(stats, keys).records
    ensures AsWritten(stats, keys).records[CamelCase(keys[|keys| - 1])] ==
      Scoped(stats, keys).records[CamelCase(keys[|keys| - 1])]
  {
    AsWrittenRecords(stats, keys);
    ScopedRecords(stats, keys);
    var k := CamelCase(keys[0]);
    assert AsWritten(stats, keys).records[k] != Scoped(stats, keys).records[k];
  }

  /** The defect: for every fact base, the as-written graph and the scoped one differ in every
      record but the last (`width` through `padding`, and `color`), which as written never get
      bar lengths; they agree on `max` and on the last key's (`backgroundColor`) record. */
  lemma CamelKeyLeak(stats: Stats)
    ensures forall i :: 0 <= i < |GraphKeys| - 1 ==>
      && CamelCase(GraphKeys[i]) in GraphAsWritten(stats).records
      && CamelCase(GraphKeys[i]) in GraphScoped(stats).records
      && GraphAsWritten(stats).records[CamelCase(GraphKeys[i])].percentTotal == None
      && GraphScoped(stats).records[CamelCase(GraphKeys[i])].percentTotal.Some?
    ensures GraphAsWritten(stats) != GraphScoped(stats)
    ensures GraphAsWritten(stats).max == GraphScoped(stats).max
    ensures CamelCase(GraphKeys[|GraphKeys| - 1]) in GraphAsWritten(stats).records
    ensures CamelCase(GraphKeys[|GraphKeys| - 1]) in GraphScoped(stats).records
    ensures GraphAsWritten(stats).records[CamelCase(GraphKeys[|GraphKeys| - 1])] ==
      GraphScoped(stats).records[CamelCase(GraphKeys[|GraphKeys| - 1])]
  {
    GraphKeysDistinct();
    LeakOver(stats, GraphKeys);
  }

  /** One iteration of the first loop, on the spec functions. */
  lemma FirstLoopStep(stats: Stats, keys: seq<string>, k: nat)
    requires k < |keys|
    ensures Records(stats, keys[..k + 1]) == Records(stats, keys[..k])[CamelCase(keys[k]) := BaseRecord(stats, keys[k])]
    ensures MaxTotal(stats, keys[..k + 1]) ==
      if keys[k] in stats.properties && |stats.properties[keys[k]]| > MaxTotal(stats, keys[..k])
      then |stats.properties[keys[k]]| else MaxTotal(stats, keys[..k])
  {
    assert keys[..k + 1][..k] == keys[..k];
  }

  /** Normalising an already normalised record changes nothing (the source writes the leaked
      key's record six times). */
  lemma NormalisedTwice(record: GraphRecord, max: nat)
    ensures Normalised(Normalised(record, max), max) == Normalised(record, max)
  {
  }

  lemma ScopedInUnitRange(stats: Stats, keys: seq<string>)
    requires DistinctKeys(keys)
    requires Scoped(stats, keys).max > 0
    ensures forall i :: 0 <= i < |keys| ==>
      && CamelCase(keys[i]) in Scoped(stats, keys).records
      && Scoped(stats, keys).records[CamelCase(keys[i])].percentTotal.Some?
      && Scoped(stats, keys).records[CamelCase(keys[i])].percentTotal.value.Finite?
      && 0.0 <= Scoped(stats, keys).records[CamelCase(keys[i])].percentTotal.value.value <= 1.0
  {
    ScopedRecords(stats, keys);
    MaxIsGreatestTotal(stats, keys);
    var g := Scoped(stats, keys);
    forall i | 0 <= i < |keys|
      ensures g.records[CamelCase(keys[i])].percentTotal.Some?
      ensures g.records[CamelCase(keys[i])].percentTotal.value.Finite?
      ensures 0.0 <= g.records[CamelCase(keys[i])].percentTotal.value.value <= 1.0
    {
      BarInUnitRange(BaseRecord(stats, keys[i]), g.max);
    }
  }

  /** The first `forEach` of uniquesGraph over `keys`: the records, `max`, and the name left
      in the shared `camelKey`, which is the last key's. */
  method FillRecords(stats: Stats, keys: seq<string>) returns (records: map<string, GraphRecord>, max: nat, camelKey: string)
    requires |keys| > 0
    ensures records == Records(stats, keys)
    ensures max == MaxTotal(stats, keys)
    ensures camelKey == CamelCase(keys[|keys| - 1]) && camelKey in records
  {
    max := 0;
    records := map[];
    camelKey := "";
    for k := 0 to |keys|
      invariant records == Records(stats, keys[..k])
      invariant max == MaxTotal(stats, keys[..k])
      invariant k > 0 ==> camelKey == CamelCase(keys[k - 1])
    {
      var key := keys[k];
      FirstLoopStep(stats, keys, k);
      camelKey := CamelCase(key);
      if key !in stats.properties {
        records := records[camelKey := GraphRecord(0, 0, None, None)];
      } else {
        var total := |stats.properties[key]|;
        records := records[camelKey := GraphRecord(total, stats.uniquePropertyCount(key), None, None)];
        if total > max {
          max := total;
        }
      }
    }
    assert keys[..|keys|] == keys;
    RecordsHaveKeys(stats, keys);
  }

  /** The second `forEach` of uniquesGraph as written: `count` times it normalises the
      record under `camelKey`, when there is one (`if (!obj[camelKey]) return false`). */
  method NormaliseLeaked(records: map<string, GraphRecord>, camelKey: string, max: nat, count: nat)
    returns (r: map<string, GraphRecord>)
    ensures count == 0 || camelKey !in records ==> r == records
    ensures count > 0 && camelKey in records ==> r == records[camelKey := Normalised(records[camelKey], max)]
  {
    r := records;
    for k := 0 to count
      invariant k == 0 || camelKey !in records ==> r == records
      invariant k > 0 && camelKey in records ==> r == records[camelKey := Normalised(records[camelKey], max)]
    {
      if camelKey in r {
        var record := r[camelKey];
        r := r[camelKey := record.(
          percentTotal := Some(Divide(record.total as real, max as real)),
          percentUnique := Some(Divide(record.unique as real, max as real)))];
      }
    }
  }

  /** The corrected second loop: each key's own record is normalised. */
  method NormaliseEach(records: map<string, GraphRecord>, keys: seq<string>, max: nat)
    returns (r: map<string, GraphRecord>)
    requires forall i :: 0 <= i < |keys| ==> CamelCase(keys[i]) in records
    ensures r == NormaliseAll(records, keys, max)
  {
    r := records;
    for k := 0 to |keys|
      invariant r == NormaliseAll(records, keys[..k], max)
    {
      var camelKey := CamelCase(keys[k]);
      assert keys[..k + 1][..k] == keys[..k];
      var record := r[camelKey];
      r := r[camelKey := record.(
        percentTotal := Some(Divide(record.total as real, max as real)),
        percentUnique := Some(Divide(record.unique as real, max as real)))];
    }
    assert keys[..|keys|] == keys;
  }

  /** uniquesGraph as the source runs it. */
  method UniquesGraph(stats: Stats) returns (g: Graph)
    ensures g == GraphAsWritten(stats)
  {
    var records, max, camelKey := FillRecords(stats, GraphKeys);
    records := NormaliseLeaked(records, camelKey, max, |GraphKeys|);
    return Graph(max, records);
  }

  /** uniquesGraph with the key bound afresh in the second loop. */
  method UniquesGraphScoped(stats: Stats) returns (g: Graph)
    ensures g == GraphScoped(stats)
  {
    var records, max, _ := FillRecords(stats, GraphKeys);
    RecordsHaveKeys(stats, GraphKeys);
    records := NormaliseEach(records, GraphKeys, max);
    return Graph(max, records);
  }
}
