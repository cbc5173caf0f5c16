/** The engine's in-place `Array.prototype.sort(compare)`, as an insertion sort: each element is
    moved in front of the elements on its left for which `compare(left, element)` is positive. */
module ArraySort {

  /** On the values of `s`, a positive answer of `compare` never puts a smaller key first and a
      non-positive one never puts a larger key first. */
  ghost predicate CompatibleOn<T(!new)>(compare: (T, T) -> real, key: T -> real, s: seq<T>) {
    forall x, y :: x in s && y in s ==>
      (compare(x, y) > 0.0 ==> key(x) <= key(y)) && (compare(x, y) <= 0.0 ==> key(x) >= key(y))
  }

  ghost predicate DescendingBy<T>(s: seq<T>, key: T -> real) {
    forall i, j :: 0 <= i < j < |s| ==> key(s[i]) >= key(s[j])
  }

  /** Putting `x` between a prefix whose keys are all at least its own and a segment whose keys
      are all at most its own keeps a descending sequence descending. */
  lemma InsertKeepsDescending<T>(s: seq<T>, j: nat, i: nat, key: T -> real)
    requires j <= i < |s|
    requires DescendingBy(s[..i], key)
    requires forall k :: j <= k < i ==> key(s[k]) <= key(s[i])
    requires j > 0 ==> key(s[j - 1]) >= key(s[i])
    ensures DescendingBy(s[..j] + [s[i]] + s[j..i], key)
  {
    var r := s[..j] + [s[i]] + s[j..i];
    forall p, q | 0 <= p < q < |r|
      ensures key(r[p]) >= key(r[q])
    {
      if p < j && q == j {
        assert key(s[p]) >= key(s[j - 1]);
      }
    }
  }

  lemma InsertIsPermutation<T>(s: seq<T>, j: nat, i: nat)
    requires j <= i < |s|
    ensures multiset(s[..j] + [s[i]] + s[j..i] + s[i + 1..]) == multiset(s)
  {
    assert s == s[..j] + s[j..i] + [s[i]] + s[i + 1..];
  }

  /** Moves `a[i]` to the left of every element before it that `compare` puts after it,
      shifting those elements one place to the right; `j` is where it lands. */
  method Insert<T>(a: array<T>, i: nat, compare: (T, T) -> real) returns (j: nat)
    requires i < a.Length
    modifies a
    ensures j <= i
    ensures a[..] == old(a[..j]) + [old(a[i])] + old(a[j..i]) + old(a[i + 1..])
    ensures forall k :: j <= k < i ==> compare(old(a[k]), old(a[i])) > 0.0
    ensures j > 0 ==> compare(old(a[j - 1]), old(a[i])) <= 0.0
  {
    ghost var s := a[..];
    var x := a[i];
    j := i;
    while j > 0 && compare(a[j - 1], x) > 0.0
      invariant 0 <= j <= i
      invariant forall k :: 0 <= k < j ==> a[k] == s[k]
      invariant forall k :: j < k <= i ==> a[k] == s[k - 1]
      invariant forall k :: i < k < a.Length ==> a[k] == s[k]
      invariant forall k :: j <= k < i ==> compare(s[k], x) > 0.0
    {
      a[j] := a[j - 1];
      j := j - 1;
    }
    a[j] := x;
    assert a[..] == s[..j] + [x] + s[j..i] + s[i + 1..];
  }

  /** One insertion step on sequences: if `s` has its first `i` elements in order and a
      comparator that agrees with the key moves `s[i]` to position `j`, the first `i + 1`
      elements of the outcome are in order. */
  lemma InsertStepDescending<T(!new)>(s: seq<T>, j: nat, i: nat, compare: (T, T) -> real, key: T -> real)
    requires j <= i < |s|
    requires CompatibleOn(compare, key, s)
    requires DescendingBy(s[..i], key)
    requires forall k :: j <= k < i ==> compare(s[k], s[i]) > 0.0
    requires j > 0 ==> compare(s[j - 1], s[i]) <= 0.0
    ensures DescendingBy((s[..j] + [s[i]] + s[j..i] + s[i + 1..])[..i + 1], key)
  {
    assert s[i] in s;
    forall k | j <= k < i ensures key(s[k]) <= key(s[i]) {
      assert s[k] in s;
    }
    if j > 0 {
      assert s[j - 1] in s;
    }
    InsertKeepsDescending(s, j, i, key);
    assert (s[..j] + [s[i]] + s[j..i] + s[i + 1..])[..i + 1] == s[..j] + [s[i]] + s[j..i];
  }

  /** The array ends up a permutation of what it was; when the comparator agrees with a key on
      its elements, it ends up ordered from the largest key down. */
  method SortInPlace<T(!new)>(a: array<T>, compare: (T, T) -> real, ghost key: T -> real)
    modifies a
    ensures multiset(a[..]) == multiset(old(a[..]))
    ensures CompatibleOn(compare, key, old(a[..])) ==> DescendingBy(a[..], key)
  {
    ghost var original := a[..];
    ghost var agrees := CompatibleOn(compare, key, original);
    var i := 0;
    while i < a.Length
      invariant 0 <= i <= a.Length
      invariant multiset(a[..]) == multiset(original)
      invariant agrees ==> DescendingBy(a[..i], key)
    {
      ghost var s := a[..];
      var j := Insert(a, i, compare);
      InsertIsPermutation(s, j, i);
      if agrees {
        CompatibleOnPermutation(compare, key, original, s);
        InsertStepDescending(s, j, i, compare, key);
      }
      i := i + 1;
    }
    assert a[..a.Length] == a[..];
  }

  lemma CompatibleOnPermutation<T(!new)>(compare: (T, T) -> real, key: T -> real, s: seq<T>, t: seq<T>)
    requires multiset(s) == multiset(t)
    requires CompatibleOn(compare, key, s)
    ensures CompatibleOn(compare, key, t)
  {
    forall x | x in t ensures x in s {
      assert x in multiset(t);
    }
  }
}
