/** First-occurrence deduplication of a sequence, the `_.uniq` that the report uses for every
    unique-value list. */
module Dedup {

  ghost predicate NoDuplicates<T>(s: seq<T>) {
    forall i, j :: 0 <= i < j < |s| ==> s[i] != s[j]
  }

  /** The position of the first occurrence of `x` in `s`. */
  function FirstIndex<T(==)>(s: seq<T>, x: T): (k: nat)
    requires x in s
    ensures k < |s| && s[k] == x && x !in s[..k]
  {
    if s[0] == x then 0
    else
      var k := 1 + FirstIndex(s[1..], x);
      assert s[..k] == [s[0]] + s[1..][..k - 1];
      k
  }

  /** `s` without its repeated elements: each value is kept where it first occurs. */
  function Uniq<T(==)>(s: seq<T>): (u: seq<T>)
    ensures NoDuplicates(u)
    ensures forall i :: 0 <= i < |u| ==> u[i] in s
    ensures forall i :: 0 <= i < |s| ==> s[i] in u
    ensures |u| <= |s|
  {
    if |s| == 0 then []
    else
      var u := Uniq(s[..|s| - 1]);
      var last := s[|s| - 1];
      assert s == s[..|s| - 1] + [last];
      if last in u then u else u + [last]
  }

  /** Any position holding the first occurrence of `x` is the one `FirstIndex` finds. */
  lemma FirstIndexUnique<T>(s: seq<T>, x: T, k: nat)
    requires k < |s| && s[k] == x && x !in s[..k]
    ensures FirstIndex(s, x) == k
  {
  }

  /** `Uniq` keeps the values in the order of their first occurrences in the input. */
  lemma {:induction false} UniqKeepsFirstOccurrenceOrder<T>(s: seq<T>)
    ensures forall i, j :: 0 <= i < j < |Uniq(s)| ==> FirstIndex(s, Uniq(s)[i]) < FirstIndex(s, Uniq(s)[j])
  {
    if |s| > 0 {
      var init := s[..|s| - 1];
      var last := s[|s| - 1];
      var v := Uniq(init);
      UniqKeepsFirstOccurrenceOrder(init);
      assert s == init + [last];
      forall y | y in init
        ensures FirstIndex(s, y) == FirstIndex(init, y) < |init|
      {
        var k := FirstIndex(init, y);
        assert s[..k] == init[..k];
        FirstIndexUnique(s, y, k);
      }
      if last !in v {
        assert last !in s[..|init|];
        FirstIndexUnique(s, last, |init|);
        var u := Uniq(s);
        assert u == v + [last];
        forall i, j | 0 <= i < j < |u|
          ensures FirstIndex(s, u[i]) < FirstIndex(s, u[j])
        {
          assert u[i] == v[i] && u[i] in init;
          if j < |v| {
            assert u[j] == v[j] && u[j] in init;
          }
        }
      }
    }
  }

  /** A sequence without repeated elements is its own deduplication. */
  lemma {:induction false} UniqOfDistinct<T>(s: seq<T>)
    requires NoDuplicates(s)
    ensures Uniq(s) == s
  {
    if |s| > 0 {
      var init := s[..|s| - 1];
      UniqOfDistinct(init);
      assert s[|s| - 1] !in init;
      assert s == init + [s[|s| - 1]];
    }
  }

  /** Deduplicating twice is deduplicating once. */
  lemma UniqIdempotent<T>(s: seq<T>)
    ensures Uniq(Uniq(s)) == Uniq(s)
  {
    UniqOfDistinct(Uniq(s));
  }
}
