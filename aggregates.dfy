/** parseTotals and parseUniques: per-property occurrence counts and deduplicated value lists
    for fixed property sets, keyed by the camel-cased property name. */
module Aggregates {
  import opened Wrappers
  import opened Keys
  import opened Dedup
  import opened FactBase
  import opened ArraySort
  import opened FontSize

  const TotalProperties: seq<string> := ["float", "width", "height", "color", "background-color"]

  const UniqueProperties: seq<string> :=
    ["width", "height", "color", "background-color", "margin", "padding", "border-radius"]

  datatype Totals = Totals(byProperty: map<string, nat>, fontSize: nat)

  datatype Uniques = Uniques(
    byProperty: map<string, seq<string>>,
    fontSize: seq<string>,
    fontFamily: seq<string>,
    fontSizeSorted: seq<string>)

  /** The keys of the configured properties, in order, are pairwise distinct. */
  lemma TotalKeysDistinct()
    ensures forall i, j :: 0 <= i < j < |TotalProperties| ==>
      CamelCase(TotalProperties[i]) != CamelCase(TotalProperties[j])
  {
    DistinctHeadsGiveDistinctKeys(TotalProperties);
  }

  lemma UniqueKeysDistinct()
    ensures forall i, j :: 0 <= i < j < |UniqueProperties| ==>
      CamelCase(UniqueProperties[i]) != CamelCase(UniqueProperties[j])
  {
    DistinctHeadsGiveDistinctKeys(UniqueProperties);
  }

  /** parseTotals: `None` (the source's `false`) exactly when there are no stats; otherwise
      the count of each configured property's values under its camel-cased name, and the number
      of font-size declarations. The source reads `.length` of every configured property's
      list, so it needs each of them present. */
  method ParseTotals(stats: Option<Stats>) returns (r: Option<Totals>)
    requires stats.Some? ==> forall i :: 0 <= i < |TotalProperties| ==> TotalProperties[i] in stats.value.properties
    ensures r.None? <==> stats.None?
    ensures r.Some? ==> r.value.byProperty.Keys == set i | 0 <= i < |TotalProperties| :: CamelCase(TotalProperties[i])
    ensures r.Some? ==> forall i :: 0 <= i < |TotalProperties| ==>
      r.value.byProperty[CamelCase(TotalProperties[i])] == |stats.value.properties[TotalProperties[i]]|
    ensures r.Some? ==> r.value.fontSize == |stats.value.fontSizes|
  {
    if stats.None? {
      return None;
    }
    var s := stats.value;
    TotalKeysDistinct();
    var totals: map<string, nat> := map[];
    for k := 0 to |TotalProperties|
      invariant totals.Keys == set i | 0 <= i < k :: CamelCase(TotalProperties[i])
      invariant forall i :: 0 <= i < k ==> totals[CamelCase(TotalProperties[i])] == |s.properties[TotalProperties[i]]|
    {
      var property := TotalProperties[k];
      totals := totals[CamelCase(property) := |s.properties[property]|];
    }
    return Some(Totals(totals, |s.fontSizes|));
  }

  /** parseUniques: `None` exactly when there are no stats; otherwise each configured
      property's values deduplicated in first-occurrence order (a property without values gives
      the empty list), the deduplicated font families, and the deduplicated font sizes. The font
      sizes are sorted in place, so the `fontSize` list and the `fontSizeSorted` list are the same
      list afterwards: a permutation of the deduplicated sizes, largest first when every size
      converts to a number. */
  method ParseUniques(stats: Option<Stats>) returns (r: Option<Uniques>)
    ensures r.None? <==> stats.None?
    ensures r.Some? ==> r.value.byProperty.Keys == set i | 0 <= i < |UniqueProperties| :: CamelCase(UniqueProperties[i])
    ensures r.Some? ==> forall i :: 0 <= i < |UniqueProperties| ==>
      r.value.byProperty[CamelCase(UniqueProperties[i])] == Uniq(PropertyValues(stats.value, UniqueProperties[i]))
    ensures r.Some? ==> r.value.fontFamily == Uniq(stats.value.fontFamilies)
    ensures r.Some? ==> r.value.fontSize == r.value.fontSizeSorted
    ensures r.Some? ==> multiset(r.value.fontSizeSorted) == multiset(Uniq(stats.value.fontSizes))
    ensures r.Some? && AllNumeric(stats.value.fontSizes) ==> DescendingBy(r.value.fontSizeSorted, Px)
  {
    if stats.None? {
      return None;
    }
    var s := stats.value;
    UniqueKeysDistinct();
    var uniques: map<string, seq<string>> := map[];
    for k := 0 to |UniqueProperties|
      invariant uniques.Keys == set i | 0 <= i < k :: CamelCase(UniqueProperties[i])
      invariant forall i :: 0 <= i < k ==> uniques[CamelCase(UniqueProperties[i])] == Uniq(PropertyValues(s, UniqueProperties[i]))
    {
      var property := UniqueProperties[k];
      uniques := uniques[CamelCase(property) := Uniq(PropertyValues(s, property))];
    }
    var sizes := Uniq(s.fontSizes);
    var fontSize := new string[|sizes|](i requires 0 <= i < |sizes| => sizes[i]);
    assert fontSize[..] == sizes;
    var _ := SortFontSizes(fontSize);
    if AllNumeric(s.fontSizes) {
      NumericAfterUniq(s.fontSizes);
    }
    return Some(Uniques(uniques, fontSize[..], Uniq(s.fontFamilies), fontSize[..]));
  }

  /** Deduplication keeps only tokens of its input, so numeric tokens stay numeric. */
  lemma NumericAfterUniq(sizes: seq<string>)
    requires AllNumeric(sizes)
    ensures AllNumeric(Uniq(sizes))
  {
    var u := Uniq(sizes);
    forall i | 0 <= i < |u| ensures FontSizeToPx(u[i]).Finite? {
      var k :| 0 <= k < |sizes| && sizes[k] == u[i];
    }
  }
}
