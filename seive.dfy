/** The evaluator pipeline of pkg/strategy: stages that map a list of pods to
    a sub-list (filter, exclude by identity, sort oldest first, keep those
    older than an age, limit), and the seive that threads a list through
    stages in order and stops at the first empty result.

    Go's sort.Slice may order pods with equal creation times either way, so
    what a stage produces is a relation: `Produces(stage, pods, now, out)`
    holds of every list the stage may return. Every stage but the sort has
    exactly one such list. Each stage reads the clock once, as `now`. */
module Seive {
  import opened Pods
  import opened Filters
  import Sort

  /** The identity the engine compares pods by: name and namespace. */
  predicate SameIdentity(p: Pod, q: Pod) {
    p.name == q.name && p.namespace == q.namespace
  }

  /** Some pod of filterSet has p's identity. */
  predicate Listed(filterSet: seq<Pod>, p: Pod) {
    exists q :: q in filterSet && SameIdentity(p, q)
  }

  /** The pods FilterPodSet keeps: those whose identity is not listed. */
  function Unlisted(filterSet: seq<Pod>): (f: Filter)
    ensures forall p :: f(p) <==> !Listed(filterSet, p)
  {
    p => !Listed(filterSet, p)
  }

  /** The pods OlderThan keeps: created strictly before the instant t. */
  function CreatedBefore(t: int): (f: Filter)
    ensures forall p :: f(p) <==> p.created < t
  {
    (p: Pod) => p.created < t
  }

  /** The pipeline stages the engine builds; each is a Go Evaluator. */
  datatype Stage =
    | FilterStage(filter: Filter)        // ApplyFilter(filter)
    | ExcludeStage(filterSet: seq<Pod>)  // FilterPodSet(filterSet)
    | SortStage                          // SortCreationTimestampAsc
    | OlderThanStage(maxAge: int)        // OlderThan(maxAge)
    | LimitStage(limit: nat)             // Limit(limit)
    | SeiveStage(stages: seq<Stage>)     // EvaluatorSeive(stages...)

  /** Limit: the first `limit` pods, or all of them when there are fewer.
      (Go slices out of range, and so panics, for a negative limit.) */
  function Limit(limit: nat, pods: seq<Pod>): (r: seq<Pod>)
    ensures r <= pods
    ensures |r| == Min(limit, |pods|)
  {
    if |pods| > limit then pods[..limit] else pods
  }

  /** The lists `stage` may return for `pods` at time `now`. */
  ghost predicate Produces(stage: Stage, pods: seq<Pod>, now: int, out: seq<Pod>)
    decreases stage, 1
  {
    match stage
    case FilterStage(f) => out == KeepMatching(f, pods)
    case ExcludeStage(filterSet) => out == KeepMatching(Unlisted(filterSet), pods)
    case SortStage => Sorted(out) && multiset(out) == multiset(pods)
    case OlderThanStage(maxAge) => out == KeepMatching(CreatedBefore(AgeThreshold(now, maxAge)), pods)
    case LimitStage(limit) => out == Limit(limit, pods)
    case SeiveStage(stages) => SeiveProduces(stages, 0, pods, now, out)
  }

  /** The lists the seive may return when it reaches stage i with `pods`:
      past the last stage the list itself, and otherwise the stage's result
      if that is empty, or what the remaining stages make of it. */
  ghost predicate SeiveProduces(stages: seq<Stage>, i: nat, pods: seq<Pod>, now: int, out: seq<Pod>)
    requires i <= |stages|
    decreases SeiveStage(stages), 0, |stages| - i
  {
    if i == |stages| then out == pods
    else
      exists mid ::
        && Produces(stages[i], pods, now, mid)
        && (if mid == [] then out == [] else SeiveProduces(stages, i + 1, mid, now, out))
  }

  /** ApplyFilter: the pods the filter accepts, in their original order; nil
      for an empty input. */
  method ApplyFilter(filter: Filter, pods: seq<Pod>) returns (out: seq<Pod>)
    ensures out == KeepMatching(filter, pods)
  {
    if |pods| <= 0 {
      return [];
    }
    out := AppendMatching(filter, pods, []);
  }

  /** The append loop of ApplyFilter, OlderThan and the older package's
      Filter.Apply, over a slice `from` fixed when the loop starts: the pods
      of `from` that f accepts are appended to `into`, in order. */
  method AppendMatching(f: Filter, from: seq<Pod>, into: seq<Pod>) returns (out: seq<Pod>)
    ensures out == into + KeepMatching(f, from)
  {
    out := into;
    for i := 0 to |from|
      invariant out == into + KeepMatching(f, from[..i])
    {
      assert from[..i + 1][..i] == from[..i];
      if f(from[i]) {
        out := out + [from[i]];
      }
    }
    assert from[..|from|] == from;
  }

  /** FilterPodSet: drops every pod whose name and namespace match a pod of
      filterSet, keeping the rest in order; nil for an empty input. */
  method FilterPodSet(filterSet: seq<Pod>, pods: seq<Pod>) returns (out: seq<Pod>)
    ensures out == KeepMatching(Unlisted(filterSet), pods)
  {
    if |pods| <= 0 {
      return [];
    }
    out := [];
    var i := 0;
    while i < |pods|
      invariant 0 <= i <= |pods|
      invariant out == KeepMatching(Unlisted(filterSet), pods[..i])
    {
      var pod := pods[i];
      var found := false;
      var j := 0;
      while j < |filterSet|
        invariant 0 <= j <= |filterSet|
        invariant !found
        invariant forall k :: 0 <= k < j ==> !SameIdentity(pod, filterSet[k])
      {
        if pod.name == filterSet[j].name && pod.namespace == filterSet[j].namespace {
          found := true;
          break;
        }
        j := j + 1;
      }
      if found {
        assert SameIdentity(pod, filterSet[j]);
      } else {
        assert forall q :: q in filterSet ==> !SameIdentity(pod, q);
      }
      assert pods[..i + 1][..i] == pods[..i];
      if !found {
        out := out + [pod];
      }
      i := i + 1;
    }
    assert pods[..i] == pods;
  }

  /** SortCreationTimestampAsc: the pods sorted oldest first. Go sorts the
      slice it is given in place; here the stage's list is copied into an
      array and sorted there. */
  method SortCreationTimestampAsc(pods: seq<Pod>) returns (sorted: seq<Pod>)
    ensures Sorted(sorted)
    ensures multiset(sorted) == multiset(pods)
  {
    var a := new Pod[|pods|](i requires 0 <= i < |pods| => pods[i]);
    assert a[..] == pods;
    Sort.SortCreationTimestampAsc(a);
    sorted := a[..];
  }

  /** OlderThan: the pods created strictly before now.Add(-maxAge), in
      order (AgeThreshold: now - maxAge, unless the negation wraps). */
  method OlderThan(maxAge: int, pods: seq<Pod>, now: int) returns (out: seq<Pod>)
    ensures out == KeepMatching(CreatedBefore(AgeThreshold(now, maxAge)), pods)
  {
    var maxT := AgeThreshold(now, maxAge);
    out := AppendMatching(CreatedBefore(maxT), pods, []);
  }

  /** Calling an Evaluator: runs one stage on a list. */
  method Evaluate(stage: Stage, pods: seq<Pod>, now: int) returns (out: seq<Pod>)
    ensures Produces(stage, pods, now, out)
    decreases stage, 1
  {
    match stage
    case FilterStage(f) =>
      out := ApplyFilter(f, pods);
    case ExcludeStage(filterSet) =>
      out := FilterPodSet(filterSet, pods);
    case SortStage =>
      out := SortCreationTimestampAsc(pods);
    case OlderThanStage(maxAge) =>
      out := OlderThan(maxAge, pods, now);
    case LimitStage(limit) =>
      out := Limit(limit, pods);
    case SeiveStage(stages) =>
      out := EvaluatorSeive(stages, pods, now);
  }

  /** EvaluatorSeive: runs the stages in order, each on the previous one's
      result, and returns the first empty result at once, so that no later
      stage runs; with no stages it returns its input. */
  method EvaluatorSeive(stages: seq<Stage>, pods: seq<Pod>, now: int) returns (out: seq<Pod>)
    ensures SeiveProduces(stages, 0, pods, now, out)
    ensures stages == [] ==> out == pods
    decreases SeiveStage(stages), 0
  {
    out := pods;
    var i := 0;
    while i < |stages|
      invariant 0 <= i <= |stages|
      invariant forall o :: SeiveProduces(stages, i, out, now, o) ==> SeiveProduces(stages, 0, pods, now, o)
      invariant stages == [] ==> out == pods
    {
      var next := Evaluate(stages[i], out, now);
      if |next| <= 0 {
        assert SeiveProduces(stages, i, out, now, []);
        return [];
      }
      forall o | SeiveProduces(stages, i + 1, next, now, o)
        ensures SeiveProduces(stages, i, out, now, o)
      {
      }
      out := next;
      i := i + 1;
    }
  }

  /** A prefix of a list is a sub-multiset of it. */
  lemma PrefixSubMultiset(r: seq<Pod>, s: seq<Pod>)
    requires r <= s
    ensures multiset(r) <= multiset(s)
  {
    assert s == r + s[|r|..];
  }

  /** No stage invents pods: whatever a stage may return is a sub-multiset
      of its input. In particular an empty input gives an empty output. */
  lemma {:induction false} ProducesShrinks(stage: Stage, pods: seq<Pod>, now: int, out: seq<Pod>)
    requires Produces(stage, pods, now, out)
    ensures multiset(out) <= multiset(pods)
    ensures |out| <= |pods|
    decreases stage, 1
  {
    match stage
    case FilterStage(f) =>
      KeepMatchingSubMultiset(f, pods);
    case ExcludeStage(filterSet) =>
      KeepMatchingSubMultiset(Unlisted(filterSet), pods);
    case SortStage =>
    case OlderThanStage(maxAge) =>
      KeepMatchingSubMultiset(CreatedBefore(AgeThreshold(now, maxAge)), pods);
    case LimitStage(limit) =>
      PrefixSubMultiset(out, pods);
    case SeiveStage(stages) =>
      SeiveShrinks(stages, 0, pods, now, out);
    assert |multiset(out)| <= |multiset(pods)|;
  }

  lemma {:induction false} SeiveShrinks(stages: seq<Stage>, i: nat, pods: seq<Pod>, now: int, out: seq<Pod>)
    requires i <= |stages|
    requires SeiveProduces(stages, i, pods, now, out)
    ensures multiset(out) <= multiset(pods)
    ensures |out| <= |pods|
    decreases SeiveStage(stages), 0, |stages| - i
  {
    if i < |stages| {
      var mid :| Produces(stages[i], pods, now, mid) &&
        (if mid == [] then out == [] else SeiveProduces(stages, i + 1, mid, now, out));
      ProducesShrinks(stages[i], pods, now, mid);
      if mid != [] {
        SeiveShrinks(stages, i + 1, mid, now, out);
      }
    }
    assert |multiset(out)| <= |multiset(pods)|;
  }

  /** The pods the filter-sort-age-limit core may select from: those the
      filter accepts and that were created before now.Add(-maxAge). */
  function Eligible(filter: Filter, maxAge: int, pods: seq<Pod>, now: int): seq<Pod> {
    KeepMatching(CreatedBefore(AgeThreshold(now, maxAge)), KeepMatching(filter, pods))
  }

  /** out is the first min(limit, k) of the k eligible pods, sorted oldest
      first (ties between equal creation times in either order). */
  ghost predicate OldestEligible(filter: Filter, maxAge: int, limit: nat, pods: seq<Pod>, now: int, out: seq<Pod>) {
    exists e :: Sorted(e) && multiset(e) == multiset(Eligible(filter, maxAge, pods, now)) && out == Limit(limit, e)
  }

  /** The core both built-in policies build, as one flat seive:
      filter, sort, keep those older than maxAge, limit. */
  function FlatCore(filter: Filter, maxAge: int, limit: nat): Stage {
    SeiveStage([FilterStage(filter), SortStage, OlderThanStage(maxAge), LimitStage(limit)])
  }

  /** The same core with the filter applied by an outer seive and the rest
      by an inner one. */
  function NestedCore(filter: Filter, maxAge: int, limit: nat): Stage {
    SeiveStage([FilterStage(filter), SeiveStage([SortStage, OlderThanStage(maxAge), LimitStage(limit)])])
  }

  /** Sorting the filtered pods and then keeping the old ones gives a sorted
      permutation of the eligible pods. */
  lemma SortedOldOnes(filter: Filter, maxAge: int, pods: seq<Pod>, now: int, sorted: seq<Pod>)
    requires Sorted(sorted) && multiset(sorted) == multiset(KeepMatching(filter, pods))
    ensures Sorted(KeepMatching(CreatedBefore(AgeThreshold(now, maxAge)), sorted))
    ensures multiset(KeepMatching(CreatedBefore(AgeThreshold(now, maxAge)), sorted)) == multiset(Eligible(filter, maxAge, pods, now))
  {
    KeepMatchingSorted(CreatedBefore(AgeThreshold(now, maxAge)), sorted);
    KeepMatchingPermutation(CreatedBefore(AgeThreshold(now, maxAge)), sorted, KeepMatching(filter, pods));
  }

  /** The last two stages, keep-older-than and limit, of a seive. */
  lemma AgeLimitTail(stages: seq<Stage>, i: nat, maxAge: int, limit: nat, sorted: seq<Pod>, now: int, out: seq<Pod>)
    requires i + 2 == |stages|
    requires stages[i] == OlderThanStage(maxAge) && stages[i + 1] == LimitStage(limit)
    requires SeiveProduces(stages, i, sorted, now, out)
    ensures out == Limit(limit, KeepMatching(CreatedBefore(AgeThreshold(now, maxAge)), sorted))
  {
    var aged :| Produces(stages[i], sorted, now, aged) &&
      (if aged == [] then out == [] else SeiveProduces(stages, i + 1, aged, now, out));
    assert aged == KeepMatching(CreatedBefore(AgeThreshold(now, maxAge)), sorted);
    if aged == [] {
      assert out == Limit(limit, aged);
    } else {
      var limited :| Produces(stages[i + 1], aged, now, limited) &&
        (if limited == [] then out == [] else SeiveProduces(stages, i + 2, limited, now, out));
      assert limited == Limit(limit, aged);
      assert out == limited;
    }
  }

  /** The last three stages, sort, keep-older-than and limit, of a seive,
      run on the filtered pods. */
  lemma SortAgeLimit(stages: seq<Stage>, i: nat, filter: Filter, maxAge: int, limit: nat,
                     pods: seq<Pod>, now: int, out: seq<Pod>)
    requires i + 3 == |stages|
    requires stages[i] == SortStage && stages[i + 1] == OlderThanStage(maxAge) && stages[i + 2] == LimitStage(limit)
    requires SeiveProduces(stages, i, KeepMatching(filter, pods), now, out)
    ensures OldestEligible(filter, maxAge, limit, pods, now, out)
  {
    var sorted :| Produces(SortStage, KeepMatching(filter, pods), now, sorted) &&
      (if sorted == [] then out == [] else SeiveProduces(stages, i + 1, sorted, now, out));
    SortedOldOnes(filter, maxAge, pods, now, sorted);
    var aged := KeepMatching(CreatedBefore(AgeThreshold(now, maxAge)), sorted);
    if sorted != [] {
      AgeLimitTail(stages, i + 1, maxAge, limit, sorted, now, out);
    }
    assert out == Limit(limit, aged);
  }

  /** The flat core selects the oldest eligible pods, up to the limit. */
  lemma FlatCoreSelects(filter: Filter, maxAge: int, limit: nat, pods: seq<Pod>, now: int, out: seq<Pod>)
    requires Produces(FlatCore(filter, maxAge, limit), pods, now, out)
    ensures OldestEligible(filter, maxAge, limit, pods, now, out)
  {
    var stages := FlatCore(filter, maxAge, limit).stages;
    assert SeiveProduces(stages, 0, pods, now, out);
    var filtered :| Produces(stages[0], pods, now, filtered) &&
      (if filtered == [] then out == [] else SeiveProduces(stages, 1, filtered, now, out));
    if filtered == [] {
      assert Eligible(filter, maxAge, pods, now) == [];
      assert out == Limit(limit, []);
    } else {
      SortAgeLimit(stages, 1, filter, maxAge, limit, pods, now, out);
    }
  }

  /** The nested core selects exactly what the flat one does. */
  lemma NestedCoreSelects(filter: Filter, maxAge: int, limit: nat, pods: seq<Pod>, now: int, out: seq<Pod>)
    requires Produces(NestedCore(filter, maxAge, limit), pods, now, out)
    ensures OldestEligible(filter, maxAge, limit, pods, now, out)
  {
    var stages := NestedCore(filter, maxAge, limit).stages;
    assert SeiveProduces(stages, 0, pods, now, out);
    var filtered :| Produces(stages[0], pods, now, filtered) &&
      (if filtered == [] then out == [] else SeiveProduces(stages, 1, filtered, now, out));
    if filtered == [] {
      assert Eligible(filter, maxAge, pods, now) == [];
      assert out == Limit(limit, []);
    } else {
      assert SeiveProduces(stages, 1, filtered, now, out);
      var inner :| Produces(stages[1], filtered, now, inner) &&
        (if inner == [] then out == [] else SeiveProduces(stages, 2, inner, now, out));
      assert out == inner;
      assert SeiveProduces(stages[1].stages, 0, filtered, now, inner);
      SortAgeLimit(stages[1].stages, 0, filter, maxAge, limit, pods, now, inner);
    }
  }

  /** What a selection of the oldest eligible pods guarantees: every pod
      selected was in the input, passes the filter and is older than maxAge;
      no pod is selected more often than it occurs; the selection is sorted
      oldest first; and it holds min(limit, k) pods of the k eligible ones. */
  lemma OldestEligibleProperties(filter: Filter, maxAge: int, limit: nat, pods: seq<Pod>, now: int, out: seq<Pod>)
    requires OldestEligible(filter, maxAge, limit, pods, now, out)
    ensures forall p :: p in out ==> p in pods && filter(p) && p.created < AgeThreshold(now, maxAge)
    ensures multiset(out) <= multiset(pods)
    ensures Sorted(out)
    ensures |out| == Min(limit, |Eligible(filter, maxAge, pods, now)|)
  {
    var e :| Sorted(e) && multiset(e) == multiset(Eligible(filter, maxAge, pods, now)) && out == Limit(limit, e);
    var elig := Eligible(filter, maxAge, pods, now);
    var filtered := KeepMatching(filter, pods);
    var aged := CreatedBefore(AgeThreshold(now, maxAge));
    PrefixSubMultiset(out, e);
    KeepMatchingSubMultiset(filter, pods);
    KeepMatchingSubMultiset(aged, filtered);
    forall p | p in out
      ensures p in pods && filter(p) && p.created < AgeThreshold(now, maxAge)
    {
      assert p in multiset(out);
      assert p in multiset(elig);
      KeepMatchingMember(aged, filtered, p);
      KeepMatchingMember(filter, pods, p);
    }
    assert |e| == |multiset(e)| == |multiset(elig)| == |elig|;
  }

  /** Limiting two lists with the same creation times gives lists with the
      same creation times. */
  lemma LimitTimes(limit: nat, e1: seq<Pod>, e2: seq<Pod>)
    requires Times(e1) == Times(e2)
    ensures Times(Limit(limit, e1)) == Times(Limit(limit, e2))
  {
    assert |e1| == |Times(e1)| == |e2|;
    var l1, l2 := Limit(limit, e1), Limit(limit, e2);
    forall i | 0 <= i < |l1|
      ensures l1[i].created == l2[i].created
    {
      assert l1[i] == e1[i] && l2[i] == e2[i];
      assert Times(e1)[i] == Times(e2)[i];
    }
  }

  /** Which pods get selected is fixed up to the order of equal creation
      times: any two selections have the same creation times, position by
      position. */
  lemma OldestEligibleTimes(filter: Filter, maxAge: int, limit: nat, pods: seq<Pod>, now: int, out1: seq<Pod>, out2: seq<Pod>)
    requires OldestEligible(filter, maxAge, limit, pods, now, out1)
    requires OldestEligible(filter, maxAge, limit, pods, now, out2)
    ensures Times(out1) == Times(out2)
  {
    var elig := Eligible(filter, maxAge, pods, now);
    var e1 :| Sorted(e1) && multiset(e1) == multiset(elig) && out1 == Limit(limit, e1);
    var e2 :| Sorted(e2) && multiset(e2) == multiset(elig) && out2 == Limit(limit, e2);
    Sort.SortedPermutationsAgree(e1, e2);
    LimitTimes(limit, e1, e2);
  }

  /** When the newest pod of a sorted list is old, every pod is. */
  lemma AllOld(t: int, s: seq<Pod>)
    requires Sorted(s) && s != [] && s[|s| - 1].created < t
    ensures KeepMatching(CreatedBefore(t), s) == s
  {
    forall i | 0 <= i < |s|
      ensures CreatedBefore(t)(s[i])
    {
      assert s[i].created <= s[|s| - 1].created;
    }
    KeepMatchingAll(CreatedBefore(t), s);
  }

  /** A last pod that is not old is dropped. */
  lemma LastNotOld(t: int, s: seq<Pod>)
    requires s != [] && s[|s| - 1].created >= t
    ensures KeepMatching(CreatedBefore(t), s) == KeepMatching(CreatedBefore(t), s[..|s| - 1])
  {
  }

  /** In a sorted list the pods created before t form a prefix, so taking
      the old ones and then limiting takes the oldest pods of the list. */
  lemma {:induction false} OldOnesArePrefix(t: int, s: seq<Pod>)
    requires Sorted(s)
    ensures KeepMatching(CreatedBefore(t), s) <= s
    ensures forall i :: 0 <= i < |s| && s[i].created < t ==> i < |KeepMatching(CreatedBefore(t), s)|
  {
    if s != [] {
      if s[|s| - 1].created < t {
        AllOld(t, s);
      } else {
        var init := s[..|s| - 1];
        OldOnesArePrefix(t, init);
        LastNotOld(t, s);
        var k := KeepMatching(CreatedBefore(t), init);
        assert k <= init && init <= s;
        forall i | 0 <= i < |s| && s[i].created < t
          ensures i < |k|
        {
          assert i < |init| && init[i] == s[i];
        }
      }
    }
  }
}
