/** The Spread policy of the older package,
    pkg/eval/strategy/spread/spread.go: a hand-written closure that captures
    a cool-down deadline, a spread window and the count recorded at the last
    kick. Unlike the newer Spread stage, the count compared and recorded is
    the number of filtered pods, not the number kicked. */
module EvalSpread {
  import opened Pods
  import opened Filters
  import opened Seive
  import opened Config
  import EvalFilter
  import opened EvalSelection

  /** What the closure remembers between calls. */
  datatype EvalState = EvalState(cdWait: int, waitUntil: int, lastCountAtKick: int)

  class Spread {
    const filter: Filter
    const maxAge: int
    const cd: int
    const limit: int
    var cdWait: int
    var waitUntil: int
    var lastCountAtKick: int

    function State(): EvalState
      reads this
    {
      EvalState(cdWait, waitUntil, lastCountAtKick)
    }

    /** Spread(c): both deadlines at the zero time and the count -1, so the
        first call is blocked by neither. */
    constructor(c: Criteria)
      ensures filter == TargetFilter(c.name, c.namespace)
      ensures maxAge == Seconds(c.maxAge) && cd == Seconds(c.coolDown) && limit == c.limit
      ensures State() == EvalState(ZeroTime, ZeroTime, -1)
    {
      filter := TargetFilter(c.name, c.namespace);
      maxAge := Seconds(c.maxAge);
      cd := Seconds(c.coolDown);
      limit := c.limit;
      cdWait := ZeroTime;
      waitUntil := ZeroTime;
      lastCountAtKick := -1;
    }

    /** One call of the closure: empty input and a call before cdWait
        return nothing; otherwise the pods are filtered and the rest of the
        call is AfterFilter. Because Apply returns nothing, every call
        returns nothing and the state never changes. */
    method Evaluate(pods: seq<Pod>, now: nat) returns (out: seq<Pod>)
      modifies this
      ensures out == []
      ensures State() == old(State())
    {
      if |pods| <= 0 {
        return [];
      }
      if now < cdWait {
        return [];
      }
      var filtered := EvalFilter.Apply(filter, pods);
      out := AfterFilter(filtered, now);
    }

    /** The closure from the check on the filtered list on: nothing for an
        empty list, nor while the spread window is open and the filtered
        count is at most the recorded one; otherwise the list is sorted
        oldest first and the selection loop runs. A selection arms the cool
        down, opens a window of MaxAge / (filtered count) and records the
        filtered count; no selection changes nothing. The loop's slice has
        capacity Limit, so a negative Limit panics once the loop is reached. */
    method AfterFilter(filtered: seq<Pod>, now: nat) returns (out: seq<Pod>)
      requires filtered != [] && !(now < waitUntil && |filtered| <= lastCountAtKick) ==> limit >= 0
      modifies this
      ensures filtered == [] || (now < old(waitUntil) && |filtered| <= old(lastCountAtKick)) ==>
        out == [] && State() == old(State())
      ensures filtered != [] && !(now < old(waitUntil) && |filtered| <= old(lastCountAtKick)) ==>
        exists sorted :: Sorted(sorted) && multiset(sorted) == multiset(filtered)
                         && out == BreakSelect(limit, sorted, AgeThreshold(now, maxAge))
      ensures out == [] ==> State() == old(State())
      ensures out != [] ==> filtered != []
      ensures out != [] ==> State() == EvalState(now + cd, now + Quot(maxAge, |filtered|), |filtered|)
    {
      if |filtered| <= 0 {
        return [];
      }
      if now < waitUntil && |filtered| <= lastCountAtKick {
        return [];
      }
      var sorted := Seive.SortCreationTimestampAsc(filtered);
      out := SelectOldest(limit, sorted, AgeThreshold(now, maxAge));
      if |out| > 0 {
        cdWait := now + cd;
        waitUntil := now + Quot(maxAge, |filtered|);
        lastCountAtKick := |filtered|;
      }
    }
  }
}
