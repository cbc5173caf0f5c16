/** parsePropertiesBreakdown: each distinct property's share of all declarations, with the
    shares under 2 percent merged into one trailing `other` entry. */
module Breakdown {
  import opened Wrappers
  import opened FactBase
  import opened ArraySort

  datatype Entry = Entry(property: string, percentage: real)

  /** Shares below this many percent go into `other`. */
  const Threshold: real := 2.0

  /** Every listed property has a declaration list, and there is at least one declaration to
      divide by. */
  ghost predicate Measurable(stats: Stats, properties: seq<string>) {
    && (forall i :: 0 <= i < |properties| ==> properties[i] in stats.byProperty)
    && |stats.all| > 0
  }

  /** A property's declarations as a percentage of all declarations. */
  function Share(stats: Stats, property: string): real
    requires property in stats.byProperty && |stats.all| > 0
  {
    |stats.byProperty[property]| as real / |stats.all| as real * 100.0
  }

  /** The entries that stay in the result, in the order of `properties`. */
  function Kept(stats: Stats, properties: seq<string>): seq<Entry>
    requires Measurable(stats, properties)
  {
    if |properties| == 0 then []
    else
      var init := Kept(stats, properties[..|properties| - 1]);
      var property := properties[|properties| - 1];
      if Share(stats, property) < Threshold then init else init + [Entry(property, Share(stats, property))]
  }

  /** The sum of the shares that fall under the threshold. */
  function OtherSum(stats: Stats, properties: seq<string>): real
    requires Measurable(stats, properties)
  {
    if |properties| == 0 then 0.0
    else
      var init := OtherSum(stats, properties[..|properties| - 1]);
      var property := properties[|properties| - 1];
      if Share(stats, property) < Threshold then init + Share(stats, property) else init
  }

  /** The sum of all shares. */
  function ShareSum(stats: Stats, properties: seq<string>): real
    requires Measurable(stats, properties)
  {
    if |properties| == 0 then 0.0
    else ShareSum(stats, properties[..|properties| - 1]) + Share(stats, properties[|properties| - 1])
  }

  function PercentageSum(entries: seq<Entry>): real {
    if |entries| == 0 then 0.0 else PercentageSum(entries[..|entries| - 1]) + entries[|entries| - 1].percentage
  }

  function CountSum(stats: Stats, properties: seq<string>): nat
    requires Measurable(stats, properties)
  {
    if |properties| == 0 then 0
    else CountSum(stats, properties[..|properties| - 1]) + |stats.byProperty[properties[|properties| - 1]]|
  }

  function Percentage(e: Entry): real {
    e.percentage
  }

  /** The comparator `(a, b) => b.percentage - a.percentage`. */
  function ByPercentage(a: Entry, b: Entry): (r: real)
    ensures r > 0.0 <==> a.percentage < b.percentage
    ensures r == 0.0 <==> a.percentage == b.percentage
  {
    b.percentage - a.percentage
  }

  lemma MeasurablePrefix(stats: Stats, properties: seq<string>, k: nat)
    requires Measurable(stats, properties) && k <= |properties|
    ensures Measurable(stats, properties[..k])
  {
  }

  /** Each share lands in exactly one place: in `other` when it is below the threshold, as
      its own entry otherwise; so the kept percentages and `other` add up to all shares. */
  lemma {:induction false} PartitionSum(stats: Stats, properties: seq<string>)
    requires Measurable(stats, properties)
    ensures PercentageSum(Kept(stats, properties)) + OtherSum(stats, properties) == ShareSum(stats, properties)
  {
    if |properties| > 0 {
      var init := properties[..|properties| - 1];
      MeasurablePrefix(stats, properties, |properties| - 1);
      PartitionSum(stats, init);
      var property := properties[|properties| - 1];
      if Share(stats, property) >= Threshold {
        var kept := Kept(stats, properties);
        assert kept[..|kept| - 1] == Kept(stats, init);
      }
    }
  }

  /** A listed property is kept, with its own share, exactly when its share reaches the
      threshold; and every kept entry is a listed property with its share. */
  lemma {:induction false} KeptExactlyAtThreshold(stats: Stats, properties: seq<string>)
    requires Measurable(stats, properties)
    ensures forall i :: 0 <= i < |properties| ==>
      (Entry(properties[i], Share(stats, properties[i])) in Kept(stats, properties) <==> Share(stats, properties[i]) >= Threshold)
    ensures forall e :: e in Kept(stats, properties) ==>
      e.property in properties && e.property in stats.byProperty && e.percentage == Share(stats, e.property) >= Threshold
  {
    if |properties| > 0 {
      var init := properties[..|properties| - 1];
      MeasurablePrefix(stats, properties, |properties| - 1);
      KeptExactlyAtThreshold(stats, init);
      var kept := Kept(stats, properties);
      forall e | e in kept
        ensures e.property in properties && e.property in stats.byProperty && e.percentage == Share(stats, e.property) >= Threshold
      {
        if e in Kept(stats, init) {
          assert e.property in init;
        }
      }
      forall i | 0 <= i < |properties|
        ensures Entry(properties[i], Share(stats, properties[i])) in kept <==> Share(stats, properties[i]) >= Threshold
      {
        if i < |init| {
          assert properties[i] == init[i];
        }
      }
    }
  }

  /** When the listed properties' declarations are all the declarations, the shares add up to
      100 percent, and so do the kept entries and `other`. */
  lemma {:induction false} SharesAddUp(stats: Stats, properties: seq<string>)
    requires Measurable(stats, properties)
    ensures ShareSum(stats, properties) == CountSum(stats, properties) as real / |stats.all| as real * 100.0
  {
    if |properties| > 0 {
      var init := properties[..|properties| - 1];
      MeasurablePrefix(stats, properties, |properties| - 1);
      SharesAddUp(stats, init);
      var t := |stats.all| as real;
      var a := CountSum(stats, init) as real;
      var c := |stats.byProperty[properties[|properties| - 1]]| as real;
      assert a / t * 100.0 + c / t * 100.0 == (a + c) / t * 100.0;
    }
  }

  lemma WholeIsHundred(stats: Stats, properties: seq<string>)
    requires Measurable(stats, properties)
    requires CountSum(stats, properties) == |stats.all|
    ensures PercentageSum(Kept(stats, properties)) + OtherSum(stats, properties) == 100.0
  {
    PartitionSum(stats, properties);
    SharesAddUp(stats, properties);
    var t := |stats.all| as real;
    assert t > 0.0;
    WholeOfItself(t);
    assert ShareSum(stats, properties) == t / t * 100.0;
  }

  lemma WholeOfItself(t: real)
    requires t > 0.0
    ensures t / t * 100.0 == 100.0
  {
  }

  lemma ByPercentageAgrees(entries: seq<Entry>)
    ensures CompatibleOn(ByPercentage, Percentage, entries)
  {
  }

  /** parsePropertiesBreakdown: `None` (the source's `false`) when there are no stats, no
      properties, or no share reaches the threshold; otherwise the kept entries from the largest
      percentage down, followed by exactly one `other` entry holding the merged shares. The
      source divides by the number of declarations, so a non-empty property list needs at least
      one declaration, and it reads the declaration list of every listed property. */
  method PropertiesBreakdown(stats: Option<Stats>) returns (r: Option<seq<Entry>>)
    requires stats.Some? ==> forall i :: 0 <= i < |stats.value.aggregateProperties| ==>
      stats.value.aggregateProperties[i] in stats.value.byProperty
    requires stats.Some? && |stats.value.aggregateProperties| > 0 ==> |stats.value.all| > 0
    ensures r.None? <==>
      stats.None? || |stats.value.aggregateProperties| == 0 || |Kept(stats.value, stats.value.aggregateProperties)| == 0
    ensures r.Some? ==> |r.value| == |Kept(stats.value, stats.value.aggregateProperties)| + 1
    ensures r.Some? ==> r.value[|r.value| - 1] == Entry("other", OtherSum(stats.value, stats.value.aggregateProperties))
    ensures r.Some? ==> multiset(r.value[..|r.value| - 1]) == multiset(Kept(stats.value, stats.value.aggregateProperties))
    ensures r.Some? ==> DescendingBy(r.value[..|r.value| - 1], Percentage)
  {
    if stats.None? {
      return None;
    }
    var s := stats.value;
    var result: seq<Entry> := [];
    var total := |s.all|;
    var properties := s.aggregateProperties;
    var otherSum := 0.0;
    if |properties| == 0 {
      return None;
    }
    for k := 0 to |properties|
      invariant Measurable(s, properties[..k])
      invariant result == Kept(s, properties[..k])
      invariant otherSum == OtherSum(s, properties[..k])
    {
      var property := properties[k];
      var percentage := |s.byProperty[property]| as real / total as real * 100.0;
      assert properties[..k + 1][..k] == properties[..k];
      if percentage < Threshold {
        otherSum := otherSum + percentage;
      } else {
        result := result + [Entry(property, percentage)];
      }
    }
    assert properties[..|properties|] == properties;
    if |result| == 0 {
      return None;
    }
    var sorted := new Entry[|result|](i requires 0 <= i < |result| => result[i]);
    assert sorted[..] == result;
    ByPercentageAgrees(result);
    SortInPlace(sorted, ByPercentage, Percentage);
    var entries := sorted[..] + [Entry("other", otherSum)];
    assert entries[..|entries| - 1] == sorted[..];
    return Some(entries);
  }
}
