/** Generic sequence operations shared by the caches and the claim list. */
module Seqs {
  import opened Wrappers

  /** Index of the first element satisfying `p`, the linear scan behind
      `List<T>.Find` and `Enumerable.FirstOrDefault`. */
  function FirstIndex<T>(s: seq<T>, p: T -> bool): (r: Option<nat>)
    ensures r.None? <==> forall j :: 0 <= j < |s| ==> !p(s[j])
    ensures r.Some? ==> r.value < |s| && p(s[r.value])
    ensures r.Some? ==> forall j :: 0 <= j < r.value ==> !p(s[j])
  {
    if |s| == 0 then None
    else if p(s[0]) then Some(0)
    else match FirstIndex(s[1..], p)
      case None => None
      case Some(i) => Some(i + 1)
  }

  /** The sequence with the element at position `i` taken out. */
  function RemoveAt<T>(s: seq<T>, i: nat): (r: seq<T>)
    requires i < |s|
    ensures |r| == |s| - 1
    ensures forall j :: 0 <= j < i ==> r[j] == s[j]
    ensures forall j :: i <= j < |r| ==> r[j] == s[j + 1]
  {
    s[..i] + s[i + 1..]
  }

  /** The elements of `s` satisfying `p`, in their original order. */
  function Filter<T>(s: seq<T>, p: T -> bool): (r: seq<T>)
    ensures |r| <= |s|
    ensures forall j :: 0 <= j < |r| ==> p(r[j])
  {
    if |s| == 0 then []
    else if p(s[0]) then [s[0]] + Filter(s[1..], p)
    else Filter(s[1..], p)
  }

  /** Number of elements of `s` satisfying `p`. */
  function Count<T>(s: seq<T>, p: T -> bool): nat
  {
    |Filter(s, p)|
  }

  lemma {:induction false} FilterConcat<T>(a: seq<T>, b: seq<T>, p: T -> bool)
    ensures Filter(a + b, p) == Filter(a, p) + Filter(b, p)
  {
    if |a| == 0 {
      assert a + b == b;
    } else {
      assert (a + b)[1..] == a[1..] + b;
      FilterConcat(a[1..], b, p);
    }
  }

  lemma {:induction false} FilterNone<T>(s: seq<T>, p: T -> bool)
    requires forall j :: 0 <= j < |s| ==> !p(s[j])
    ensures Filter(s, p) == []
  {
    if |s| > 0 {
      FilterNone(s[1..], p);
    }
  }

  /** The `p`-elements of `s` split around position `i`. */
  lemma {:induction false} FilterSplit<T>(s: seq<T>, i: nat, p: T -> bool)
    requires i < |s|
    ensures Filter(s, p) == Filter(s[..i], p) + Filter([s[i]], p) + Filter(s[i + 1..], p)
    ensures Filter(RemoveAt(s, i), p) == Filter(s[..i], p) + Filter(s[i + 1..], p)
  {
    assert s == s[..i] + ([s[i]] + s[i + 1..]);
    FilterConcat(s[..i], [s[i]] + s[i + 1..], p);
    FilterConcat([s[i]], s[i + 1..], p);
    FilterConcat(s[..i], s[i + 1..], p);
  }

  /** Removing an element that `p` rejects leaves the `p`-elements as they were. */
  lemma {:induction false} FilterRemoveRejected<T>(s: seq<T>, i: nat, p: T -> bool)
    requires i < |s| && !p(s[i])
    ensures Filter(RemoveAt(s, i), p) == Filter(s, p)
  {
    FilterSplit(s, i, p);
    assert Filter([s[i]], p) == [];
  }

  /** Removing the first element that `p` accepts drops the head of the `p`-elements. */
  lemma {:induction false} FilterRemoveFirst<T>(s: seq<T>, i: nat, p: T -> bool)
    requires i < |s| && p(s[i])
    requires forall j :: 0 <= j < i ==> !p(s[j])
    ensures |Filter(s, p)| >= 1
    ensures Filter(RemoveAt(s, i), p) == Filter(s, p)[1..]
  {
    FilterSplit(s, i, p);
    FilterNone(s[..i], p);
    assert Filter([s[i]], p) == [s[i]];
  }
}
