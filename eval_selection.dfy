/** The selection loop the two closures of the older package share
    (pkg/eval/strategy/immediate/immediate.go and
    pkg/eval/strategy/spread/spread.go). Its comment says it keeps taking
    pods, oldest first, until Limit is reached; as written it tests only the
    first pod and leaves the loop after one iteration. */
module EvalSelection {
  import opened Pods
  import opened Filters
  import opened Seive

  /** What the loop returns for pods sorted oldest first: the first pod
      alone, when the limit allows a pod and that pod was created before
      maxT; nothing otherwise. */
  function BreakSelect(limit: int, sorted: seq<Pod>, maxT: int): seq<Pod> {
    if sorted == [] || limit <= 0 || sorted[0].created >= maxT then [] else [sorted[0]]
  }

  /** The loop as written: stop at the limit; take pods[i] when pods[0] is
      old enough; leave the loop. The slice it appends to is made with
      capacity Limit, which panics for a negative Limit. */
  method SelectOldest(limit: int, pods: seq<Pod>, maxT: int) returns (out: seq<Pod>)
    requires limit >= 0
    ensures out == BreakSelect(limit, pods, maxT)
  {
    out := [];
    for i := 0 to |pods|
      invariant i == 0 && out == []
    {
      if limit <= |out| {
        break;
      }
      if pods[0].created < maxT {
        out := out + [pods[i]];
      }
      break;
    }
  }

  /** On a sorted list the loop returns the oldest old pod, capped at one:
      the first pod of what Limit over OlderThan would select with limit 1.
      So at most one pod is returned, it is an oldest pod of the list, it
      was created before maxT, and the limit is at least one. */
  lemma BreakSelectIsFirstOld(limit: int, sorted: seq<Pod>, maxT: int)
    requires Sorted(sorted)
    ensures BreakSelect(limit, sorted, maxT) ==
      if limit <= 0 then [] else Limit(1, KeepMatching(CreatedBefore(maxT), sorted))
    ensures |BreakSelect(limit, sorted, maxT)| <= 1
    ensures forall p :: p in BreakSelect(limit, sorted, maxT) ==>
      && 1 <= limit && p in sorted && p.created < maxT
      && forall q :: q in sorted ==> p.created <= q.created
  {
    var aged := KeepMatching(CreatedBefore(maxT), sorted);
    if sorted != [] && limit > 0 {
      OldOnesArePrefix(maxT, sorted);
      if sorted[0].created >= maxT {
        forall i | 0 <= i < |sorted|
          ensures !CreatedBefore(maxT)(sorted[i])
        {
          assert sorted[0].created <= sorted[i].created;
        }
        KeepMatchingNone(CreatedBefore(maxT), sorted);
      } else {
        assert 0 < |aged| && aged[0] == sorted[0];
      }
    }
  }

  /** The loop falls short of its documented behaviour: with a limit of at
      least two and two pods old enough, it returns one pod where Limit
      over OlderThan returns at least two. */
  lemma BreakSelectShortfall(limit: int, sorted: seq<Pod>, maxT: int)
    requires Sorted(sorted)
    requires 2 <= limit && 2 <= |sorted| && sorted[1].created < maxT
    ensures |BreakSelect(limit, sorted, maxT)| == 1
    ensures 2 <= |Limit(limit, KeepMatching(CreatedBefore(maxT), sorted))|
  {
    OldOnesArePrefix(maxT, sorted);
    assert sorted[0].created <= sorted[1].created;
  }
}
