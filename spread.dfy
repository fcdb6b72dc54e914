/** The Spread policy, pkg/strategy/spread/spread.go: one seive filters to
    the target pods, sorts them oldest first, keeps those older than MaxAge
    and limits; a Spread throttle wraps that pipeline and a CoolDown wraps
    the Spread. (The source calls OlderThan by the misspelt name OlderThen.) */
module SpreadPolicy {
  import opened Pods
  import opened Filters
  import opened Seive
  import opened Throttle
  import opened Config

  /** The pipeline Spread builds for c (the core of the source). */
  function Core(c: Criteria): Stage
    requires c.limit >= 0
  {
    FlatCore(TargetFilter(c.name, c.namespace), Seconds(c.maxAge), c.limit)
  }

  /** d is the evaluator Spread(c) returns, in its initial state: a
      CoolDown of CoolDown seconds around a fresh Spread of MaxAge seconds
      around the core. */
  ghost predicate Built(c: Criteria, d: CoolDown)
    requires c.limit >= 0
    reads d.Repr()
  {
    && d.cd == Seconds(c.coolDown)
    && d.cdWait == ZeroTime
    && d.inner.SpreadInner?
    && d.inner.spread.maxAge == Seconds(c.maxAge)
    && d.inner.spread.inner == Core(c)
    && d.inner.spread.State() == SpreadStart
  }

  /** Spread: the evaluator constructor registered as "spread". Go's Limit
      panics on a negative limit, hence the precondition. */
  method New(c: Criteria) returns (d: CoolDown)
    requires c.limit >= 0
    ensures fresh(d.Repr())
    ensures Built(c, d)
  {
    var spread := new Spread(Seconds(c.maxAge), Core(c));
    d := new CoolDown(Seconds(c.coolDown), SpreadInner(spread));
  }

  /** One call of the policy's Spread stage: every pod returned came from
      the input, is a running pod of c's namespace whose name starts with
      c's name, and was created strictly before now - MaxAge; the result is
      sorted oldest first and holds at most Limit pods, exactly min(Limit, k)
      of the k eligible ones when the stage is not blocked; and after a kick
      the recorded count is the number of pods kicked, so at most Limit. */
  lemma Selects(c: Criteria, st: SpreadState, pods: seq<Pod>, now: int, out: seq<Pod>, st': SpreadState)
    requires c.limit >= 0
    requires SpreadStep(Seconds(c.maxAge), Core(c), st, pods, now, out, st')
    ensures forall p :: p in out ==>
      && p in pods
      && c.name <= p.name && p.namespace == c.namespace && p.phase == Running
      && p.created < AgeThreshold(now, Seconds(c.maxAge))
    ensures Sorted(out)
    ensures |out| <= c.limit
    ensures !SpreadBlocks(st, |pods|, now) ==>
      |out| == Min(c.limit, |Eligible(TargetFilter(c.name, c.namespace), Seconds(c.maxAge), pods, now)|)
    ensures out != [] ==> st'.lastCountAtKick == |out| <= c.limit
  {
    SpreadStepEffect(Seconds(c.maxAge), Core(c), st, pods, now, out, st');
    if !SpreadBlocks(st, |pods|, now) {
      var f := TargetFilter(c.name, c.namespace);
      FlatCoreSelects(f, Seconds(c.maxAge), c.limit, pods, now, out);
      OldestEligibleProperties(f, Seconds(c.maxAge), c.limit, pods, now, out);
    }
  }

  /** After a call that kicks pods at time t1, a call at t2 before
      t1 + CoolDown returns nothing, whatever the pods offered, and leaves
      the Spread stage as the kick left it: its window runs to
      t1 + MaxAge / (pods offered at t1), and its count is the number kicked. */
  method KickThenWait(c: Criteria, pods1: seq<Pod>, t1: nat, pods2: seq<Pod>, t2: nat)
    returns (d: CoolDown, out1: seq<Pod>, out2: seq<Pod>)
    requires c.limit >= 0
    requires t2 < t1 + Seconds(c.coolDown)
    ensures out1 != [] ==> out2 == []
    ensures |out1| <= c.limit
    ensures d.inner.SpreadInner?
    ensures out1 != [] ==> |pods1| > 0
    ensures out1 != [] ==>
      d.inner.spread.State() == SpreadState(t1 + Quot(Seconds(c.maxAge), |pods1|), |out1|)
  {
    d := New(c);
    ghost var st := d.inner.spread.State();
    out1 := d.Evaluate(pods1, t1);
    Selects(c, st, pods1, t1, out1, d.inner.spread.State());
    out2 := d.Evaluate(pods2, t2);
  }
}
