/** The two stateful throttles of pkg/strategy/seive.go. Each Go closure
    becomes an object whose fields are the variables the closure captures,
    and each call becomes Evaluate(pods, now), `now` being the one clock
    reading of that call. */
module Throttle {
  import opened Pods
  import opened Seive

  /** What Spread remembers between calls. */
  datatype SpreadState = SpreadState(waitUntil: int, lastCountAtKick: int)

  /** The state Spread starts in: the zero time and the count -1. */
  const SpreadStart := SpreadState(ZeroTime, -1)

  /** Spread returns nothing, without calling the evaluator it wraps, while
      its window is open and the input is no larger than the count it
      recorded at the last kick. */
  predicate SpreadBlocks(st: SpreadState, startCount: nat, now: int) {
    now < st.waitUntil && startCount <= st.lastCountAtKick
  }

  /** One call of Spread(maxAge, inner) in state st: blocked, or the result
      of inner, after which a non-empty result opens a window of
      maxAge / startCount and records the number of pods returned. */
  ghost predicate SpreadStep(maxAge: int, inner: Stage, st: SpreadState, pods: seq<Pod>, now: int,
                             out: seq<Pod>, st': SpreadState)
  {
    if SpreadBlocks(st, |pods|, now) then out == [] && st' == st
    else
      && Produces(inner, pods, now, out)
      && if out == [] then st' == st
         else
           ProducesShrinks(inner, pods, now, out);
           st' == SpreadState(now + Quot(maxAge, |pods|), |out|)
  }

  /** Spread: the adaptive throttle. */
  class Spread {
    const maxAge: int
    const inner: Stage
    var waitUntil: int
    var lastCountAtKick: int

    function State(): SpreadState
      reads this
    {
      SpreadState(waitUntil, lastCountAtKick)
    }

    constructor(maxAge: int, inner: Stage)
      ensures this.maxAge == maxAge && this.inner == inner
      ensures State() == SpreadStart
      ensures forall n: nat, now: nat :: !SpreadBlocks(State(), n, now)
    {
      this.maxAge := maxAge;
      this.inner := inner;
      waitUntil := ZeroTime;
      lastCountAtKick := -1;
    }

    method Evaluate(pods: seq<Pod>, now: nat) returns (out: seq<Pod>)
      modifies this
      ensures SpreadStep(maxAge, inner, old(State()), pods, now, out, State())
    {
      var startCount := |pods|;
      if now < waitUntil && startCount <= lastCountAtKick {
        return [];
      }
      out := Seive.Evaluate(inner, pods, now);
      if |out| > 0 {
        ProducesShrinks(inner, pods, now, out);
        waitUntil := now + Quot(maxAge, startCount);
        lastCountAtKick := |out|;
      }
    }
  }

  /** What one Spread call guarantees: a blocked call returns nothing and
      changes nothing; otherwise the result is a sub-multiset of the input,
      an empty result changes nothing, and a non-empty one came from a
      non-empty input (so the division is by a positive count), opens the
      window maxAge / startCount after now and records |out| pods. */
  lemma SpreadStepEffect(maxAge: int, inner: Stage, st: SpreadState, pods: seq<Pod>, now: int,
                         out: seq<Pod>, st': SpreadState)
    requires SpreadStep(maxAge, inner, st, pods, now, out, st')
    ensures SpreadBlocks(st, |pods|, now) ==> out == [] && st' == st
    ensures multiset(out) <= multiset(pods)
    ensures out == [] ==> st' == st
    ensures out != [] ==> 0 < |out| <= |pods|
    ensures out != [] ==> st'.waitUntil == now + Quot(maxAge, |pods|) && st'.lastCountAtKick == |out|
  {
    if !SpreadBlocks(st, |pods|, now) {
      ProducesShrinks(inner, pods, now, out);
    }
  }

  /** After a kick, the next call inside the window is blocked exactly when
      it is given no more pods than the kick returned: the count compared
      is the number of pods kicked, not the number offered. */
  lemma SpreadWindowAfterKick(maxAge: int, inner: Stage, st: SpreadState, pods: seq<Pod>, now: int,
                              out: seq<Pod>, st': SpreadState, pods2: seq<Pod>, now2: int)
    requires SpreadStep(maxAge, inner, st, pods, now, out, st')
    requires out != []
    ensures 0 < |pods|
    ensures SpreadBlocks(st', |pods2|, now2) <==> now2 < now + Quot(maxAge, |pods|) && |pods2| <= |out|
  {
    SpreadStepEffect(maxAge, inner, st, pods, now, out, st');
  }

  /** What a CoolDown wraps: a pure pipeline, or a Spread object. */
  datatype Inner = PureInner(stage: Stage) | SpreadInner(spread: Spread)

  /** CoolDown: after a non-empty result, returns nothing until cd has
      passed. */
  class CoolDown {
    const cd: int
    const inner: Inner
    var cdWait: int

    /** The objects a call may change: this one and a wrapped Spread. */
    ghost function Repr(): set<object> {
      if inner.SpreadInner? then {this, inner.spread} else {this}
    }

    constructor(cd: int, inner: Inner)
      ensures this.cd == cd && this.inner == inner
      ensures cdWait == ZeroTime
    {
      this.cd := cd;
      this.inner := inner;
      cdWait := ZeroTime;
    }

    method Evaluate(pods: seq<Pod>, now: nat) returns (out: seq<Pod>)
      modifies Repr()
      ensures CoolDownStep(this, pods, now, out)
    {
      if now < cdWait {
        return [];
      }
      match inner {
        case PureInner(stage) =>
          out := Seive.Evaluate(stage, pods, now);
        case SpreadInner(spread) =>
          out := spread.Evaluate(pods, now);
      }
      if |out| > 0 {
        cdWait := now + cd;
      }
    }
  }

  /** One call of a CoolDown d: while now is before cdWait it returns
      nothing and nothing changes (a wrapped Spread is not consulted);
      otherwise the wrapped evaluator runs, and cdWait becomes now + cd
      exactly when the result is non-empty. */
  twostate predicate CoolDownStep(d: CoolDown, pods: seq<Pod>, now: nat, out: seq<Pod>)
    reads d.Repr()
  {
    && (now < old(d.cdWait) ==> out == [])
    && (now < old(d.cdWait) && d.inner.SpreadInner? ==> unchanged(d.inner.spread))
    && (old(d.cdWait) <= now && d.inner.PureInner? ==> Produces(d.inner.stage, pods, now, out))
    && (old(d.cdWait) <= now && d.inner.SpreadInner? ==>
          SpreadStep(d.inner.spread.maxAge, d.inner.spread.inner, old(d.inner.spread.State()), pods, now, out,
                     d.inner.spread.State()))
    && d.cdWait == if now < old(d.cdWait) || out == [] then old(d.cdWait) else now + d.cd
  }
}
