/** The older revision of the throttles, pkg/strategy/evaluator.go. Its
    seive, filters, sort, OlderThan, Limit and CoolDown are the same code as
    the newer revision's and are modelled once, in Seive and Throttle; what
    differs is Spread, which ignores the pod count, and SpreadFast. */
module EvaluatorRevision {
  import opened Pods
  import opened Filters
  import opened Seive

  /** Spread, older revision: blocks while its window is open, whatever the
      count; the window after a kick is maxAge / (number of pods offered). */
  class Spread {
    const maxAge: int
    const inner: Stage
    var waitUntil: int

    constructor(maxAge: int, inner: Stage)
      ensures this.maxAge == maxAge && this.inner == inner
      ensures waitUntil == ZeroTime
    {
      this.maxAge := maxAge;
      this.inner := inner;
      waitUntil := ZeroTime;
    }

    /** Go divides by len(pods) before calling the wrapped evaluator, so an
        empty input that is not blocked is a division by zero. */
    method Evaluate(pods: seq<Pod>, now: nat) returns (out: seq<Pod>)
      requires now < waitUntil || |pods| > 0
      modifies this
      ensures now < old(waitUntil) ==> out == [] && waitUntil == old(waitUntil)
      ensures old(waitUntil) <= now ==> Produces(inner, pods, now, out)
      ensures old(waitUntil) <= now ==>
        waitUntil == if out == [] then old(waitUntil) else now + Quot(maxAge, |pods|)
    {
      if now < waitUntil {
        return [];
      }
      var maxT := Quot(maxAge, |pods|);
      out := Seive.Evaluate(inner, pods, now);
      if |out| > 0 {
        waitUntil := now + maxT;
      }
    }
  }

  /** What SpreadFast does with the wrapped evaluator's result: keep the
      pods older than minAge, then limit. */
  function FastSelect(limit: nat, minAge: int, pods: seq<Pod>, now: int): (r: seq<Pod>)
    ensures r <= KeepMatching(CreatedBefore(AgeThreshold(now, minAge)), pods)
    ensures |r| == Min(limit, |KeepMatching(CreatedBefore(AgeThreshold(now, minAge)), pods)|)
  {
    Limit(limit, KeepMatching(CreatedBefore(AgeThreshold(now, minAge)), pods))
  }

  /** SpreadFast's selection holds at most `limit` pods of the wrapped
      evaluator's result, each created strictly before now.Add(-minAge). */
  lemma FastSelectBounds(limit: nat, minAge: int, pods: seq<Pod>, now: int)
    ensures |FastSelect(limit, minAge, pods, now)| <= limit
    ensures multiset(FastSelect(limit, minAge, pods, now)) <= multiset(pods)
    ensures forall p :: p in FastSelect(limit, minAge, pods, now) ==> p in pods && p.created < AgeThreshold(now, minAge)
  {
    var aged := KeepMatching(CreatedBefore(AgeThreshold(now, minAge)), pods);
    var r := FastSelect(limit, minAge, pods, now);
    PrefixSubMultiset(r, aged);
    KeepMatchingSubMultiset(CreatedBefore(AgeThreshold(now, minAge)), pods);
    forall p | p in r
      ensures p in pods && p.created < AgeThreshold(now, minAge)
    {
      assert p in aged;
      KeepMatchingMember(CreatedBefore(AgeThreshold(now, minAge)), pods, p);
    }
  }

  /** SpreadFast: blocks until maxAge / len(pods) after the last eviction;
      otherwise returns the wrapped evaluator's result, cut down to the
      pods older than that same interval and to `limit`. */
  class SpreadFast {
    const maxAge: int
    const limit: int
    const inner: Stage
    var lastEvict: int

    constructor(maxAge: int, limit: int, inner: Stage)
      ensures this.maxAge == maxAge && this.limit == limit && this.inner == inner
      ensures lastEvict == ZeroTime
    {
      this.maxAge := maxAge;
      this.limit := limit;
      this.inner := inner;
      lastEvict := ZeroTime;
    }

    /** Go divides by len(pods) first thing, so the input must not be empty;
        and Limit slices out of range for a negative limit. */
    method Evaluate(pods: seq<Pod>, now: nat) returns (out: seq<Pod>)
      requires |pods| > 0
      requires now < lastEvict + Quot(maxAge, |pods|) || limit >= 0
      modifies this
      ensures now < old(lastEvict) + Quot(maxAge, |pods|) ==> out == [] && lastEvict == old(lastEvict)
      ensures old(lastEvict) + Quot(maxAge, |pods|) <= now ==>
        exists mid :: Produces(inner, pods, now, mid) && out == FastSelect(limit, Quot(maxAge, |pods|), mid, now)
      ensures lastEvict == if out == [] then old(lastEvict) else now
    {
      var minAge := Quot(maxAge, |pods|);
      if now < lastEvict + minAge {
        return [];
      }
      var mid := Seive.Evaluate(inner, pods, now);
      out := OlderThan(minAge, mid, now);
      out := Limit(limit, out);
      if |out| > 0 {
        lastEvict := now;
      }
    }
  }
}
