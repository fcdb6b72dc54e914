/** Sorting pods oldest first, in place, and what any such sort determines.

    Go's sort.Slice is not stable, so pods with equal creation times may come
    out in any order: the in-place sort below promises only that the result is
    sorted and a permutation of its input, and the lemmas show that this fixes
    the sequence of creation times uniquely. */
module Sort {
  import opened Pods

  /** SortCreationTimestampAsc: sorts the slice in place by creation time,
      oldest first (an insertion sort stands in for sort.Slice). */
  method SortCreationTimestampAsc(a: array<Pod>)
    modifies a
    ensures Sorted(a[..])
    ensures multiset(a[..]) == multiset(old(a[..]))
    ensures a.Length <= 1 ==> a[..] == old(a[..])
    ensures Sorted(old(a[..])) ==> Times(a[..]) == Times(old(a[..]))
  {
    var i := 0;
    while i < a.Length
      invariant 0 <= i <= a.Length
      invariant forall k, l :: 0 <= k < l < i ==> a[k].created <= a[l].created
      invariant multiset(a[..]) == multiset(old(a[..]))
    {
      SiftDown(a, i);
      i := i + 1;
    }
    if a.Length == 1 {
      SingletonPermutation(old(a[..]), a[..]);
    }
    if Sorted(old(a[..])) {
      SortedPermutationsAgree(old(a[..]), a[..]);
    }
  }

  /** One insertion step: a[i] moves left past every pod created after it,
      so that a[..i + 1] is sorted. */
  method SiftDown(a: array<Pod>, i: int)
    requires 0 <= i < a.Length
    requires forall k, l :: 0 <= k < l < i ==> a[k].created <= a[l].created
    modifies a
    ensures forall k, l :: 0 <= k < l <= i ==> a[k].created <= a[l].created
    ensures multiset(a[..]) == multiset(old(a[..]))
  {
    var j := i;
    while j > 0 && a[j - 1].created > a[j].created
      invariant 0 <= j <= i
      invariant forall k, l :: 0 <= k < l <= i && k != j && l != j ==> a[k].created <= a[l].created
      invariant forall l :: j < l <= i ==> a[j].created <= a[l].created
      invariant multiset(a[..]) == multiset(old(a[..]))
    {
      Swap(a, j - 1, j);
      j := j - 1;
    }
  }

  /** Exchanges two pods of the array. */
  method Swap(a: array<Pod>, i: int, j: int)
    requires 0 <= i < j < a.Length
    modifies a
    ensures a[..] == old(a[..])[i := old(a[j])][j := old(a[i])]
    ensures multiset(a[..]) == multiset(old(a[..]))
  {
    a[i], a[j] := a[j], a[i];
  }

  lemma SingletonPermutation(s: seq<Pod>, t: seq<Pod>)
    requires |s| == 1 && multiset(s) == multiset(t)
    ensures t == s
  {
    assert |t| == |multiset(t)| == 1;
    assert t[0] in multiset(s);
  }

  /** Two sorted permutations of one another have the same creation times,
      position by position: sorting twice gives the times sorting once does. */
  lemma SortedPermutationsAgree(s: seq<Pod>, t: seq<Pod>)
    requires Sorted(s) && Sorted(t) && multiset(s) == multiset(t)
    ensures Times(s) == Times(t)
  {
    TimesPermutation(s, t);
    TimesAscending(s);
    TimesAscending(t);
    SortedIntsUnique(Times(s), Times(t));
  }

  lemma TimesAppend(a: seq<Pod>, b: seq<Pod>)
    ensures Times(a + b) == Times(a) + Times(b)
  {
  }

  /** Permuting pods permutes their creation times. */
  lemma {:induction false} TimesPermutation(s: seq<Pod>, t: seq<Pod>)
    requires multiset(s) == multiset(t)
    ensures multiset(Times(s)) == multiset(Times(t))
    decreases |s|
  {
    if s != [] {
      assert s[0] in multiset(t);
      var j :| 0 <= j < |t| && t[j] == s[0];
      var s', t' := Without(s, 0), Without(t, j);
      RemoveOne(s, 0);
      RemoveOne(t, j);
      assert multiset(s') == multiset(t');
      TimesPermutation(s', t');
      TimesRemoveOne(s, 0);
      TimesRemoveOne(t, j);
      assert multiset(Times(s')) == multiset(Times(t'));
    }
  }

  /** s without its j-th pod. */
  function Without(s: seq<Pod>, j: int): (r: seq<Pod>)
    requires 0 <= j < |s|
    ensures |r| == |s| - 1
  {
    s[..j] + s[j + 1..]
  }

  /** Taking out the pod at position j takes one copy of it out of the
      multiset. */
  lemma RemoveOne(s: seq<Pod>, j: int)
    requires 0 <= j < |s|
    ensures multiset(Without(s, j)) == multiset(s) - multiset{s[j]}
  {
    assert s == s[..j] + [s[j]] + s[j + 1..];
  }

  /** The creation times of s are those of s without its j-th pod, plus
      that pod's time. */
  lemma TimesRemoveOne(s: seq<Pod>, j: int)
    requires 0 <= j < |s|
    ensures multiset(Times(s)) == multiset(Times(Without(s, j))) + multiset{s[j].created}
  {
    var b, x, c := s[..j], s[j], s[j + 1..];
    SplitAt(s, j);
    TimesAppend(b + [x], c);
    TimesAppend(b, [x]);
    TimesAppend(b, c);
    MultisetOfThree(Times(b), x.created, Times(c));
  }

  lemma SplitAt(s: seq<Pod>, j: int)
    requires 0 <= j < |s|
    ensures s == (s[..j] + [s[j]]) + s[j + 1..]
  {
  }

  lemma MultisetOfThree(u: seq<int>, y: int, w: seq<int>)
    ensures multiset((u + [y]) + w) == multiset(u + w) + multiset{y}
  {
  }

  ghost predicate Ascending(u: seq<int>) {
    forall i, j :: 0 <= i < j < |u| ==> u[i] <= u[j]
  }

  /** A multiset of integers has exactly one ascending arrangement. */
  lemma {:induction false} SortedIntsUnique(u: seq<int>, v: seq<int>)
    requires Ascending(u) && Ascending(v) && multiset(u) == multiset(v)
    ensures u == v
    decreases |u|
  {
    SameLength(u, v);
    if u != [] {
      HeadIsLeast(v, u[0]);
      HeadIsLeast(u, v[0]);
      TailMultiset(u);
      TailMultiset(v);
      SortedIntsUnique(u[1..], v[1..]);
      SameHeadSameTail(u, v);
    }
  }

  lemma SameLength(u: seq<int>, v: seq<int>)
    requires multiset(u) == multiset(v)
    ensures |u| == |v|
  {
    assert |u| == |multiset(u)|;
  }

  lemma SameHeadSameTail(u: seq<int>, v: seq<int>)
    requires u != [] && v != [] && u[0] == v[0] && u[1..] == v[1..]
    ensures u == v
  {
    assert u == [u[0]] + u[1..];
    assert v == [v[0]] + v[1..];
  }

  /** The head of an ascending sequence is at most each of its elements. */
  lemma HeadIsLeast(u: seq<int>, x: int)
    requires Ascending(u) && x in multiset(u)
    ensures u[0] <= x
  {
    var j :| 0 <= j < |u| && u[j] == x;
  }

  lemma TailMultiset(u: seq<int>)
    requires u != []
    ensures multiset(u[1..]) == multiset(u) - multiset{u[0]}
  {
    assert u == [u[0]] + u[1..];
  }

  lemma TimesAscending(s: seq<Pod>)
    requires Sorted(s)
    ensures Ascending(Times(s))
  {
  }
}
