/** The Immediate policy of the older package,
    pkg/eval/strategy/immediate/immediate.go: a hand-written closure that
    captures a cool-down deadline. The closure becomes an object whose
    fields are the captured variables. */
module EvalImmediate {
  import opened Pods
  import opened Filters
  import opened Seive
  import opened Config
  import EvalFilter
  import opened EvalSelection

  class Immediate {
    const filter: Filter
    const maxAge: int
    const cd: int
    const limit: int
    var cdWait: int

    /** Immediate(c): the target filter, MaxAge and CoolDown in
        nanoseconds, and a deadline at the zero time. */
    constructor(c: Criteria)
      ensures filter == TargetFilter(c.name, c.namespace)
      ensures maxAge == Seconds(c.maxAge) && cd == Seconds(c.coolDown) && limit == c.limit
      ensures cdWait == ZeroTime
    {
      filter := TargetFilter(c.name, c.namespace);
      maxAge := Seconds(c.maxAge);
      cd := Seconds(c.coolDown);
      limit := c.limit;
      cdWait := ZeroTime;
    }

    /** One call of the closure: empty input and a call before cdWait
        return nothing; otherwise the pods are filtered and the rest of the
        call is AfterFilter. Because Apply returns nothing, every call
        returns nothing and never arms the cool down. */
    method Evaluate(pods: seq<Pod>, now: nat) returns (out: seq<Pod>)
      modifies this
      ensures out == []
      ensures cdWait == old(cdWait)
    {
      if |pods| <= 0 {
        return [];
      }
      if now < cdWait {
        return [];
      }
      var filtered := EvalFilter.Apply(filter, pods);
      out := AfterFilter(filtered, now);
    }

    /** The closure from the check on the filtered list on: nothing for an
        empty list; otherwise the list is sorted oldest first, the selection
        loop runs, and cdWait becomes now + CoolDown exactly when a pod was
        selected. The loop's slice has capacity Limit, so a negative Limit
        panics once the filtered list is not empty. */
    method AfterFilter(filtered: seq<Pod>, now: nat) returns (out: seq<Pod>)
      requires filtered != [] ==> limit >= 0
      modifies this
      ensures filtered == [] ==> out == []
      ensures exists sorted :: Sorted(sorted) && multiset(sorted) == multiset(filtered)
                               && out == BreakSelect(limit, sorted, AgeThreshold(now, maxAge))
      ensures cdWait == if out == [] then old(cdWait) else now + cd
    {
      if |filtered| <= 0 {
        assert Sorted(filtered) && BreakSelect(limit, filtered, AgeThreshold(now, maxAge)) == [];
        return [];
      }
      var sorted := Seive.SortCreationTimestampAsc(filtered);
      out := SelectOldest(limit, sorted, AgeThreshold(now, maxAge));
      if |out| > 0 {
        cdWait := now + cd;
      }
    }
  }
}
