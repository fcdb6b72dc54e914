/** The Immediate policy, pkg/strategy/immediate/immediate.go: an outer
    seive applies the target filter, an inner one sorts oldest first, keeps
    the pods older than MaxAge and limits, and a CoolDown wraps the whole. */
module Immediate {
  import opened Pods
  import opened Filters
  import opened Seive
  import opened Throttle
  import opened Config

  /** The pipeline Immediate builds for c (the prefilter of the source). */
  function Core(c: Criteria): Stage
    requires c.limit >= 0
  {
    NestedCore(TargetFilter(c.name, c.namespace), Seconds(c.maxAge), c.limit)
  }

  /** d is the evaluator Immediate(c) returns, in its initial state. */
  ghost predicate Built(c: Criteria, d: CoolDown)
    requires c.limit >= 0
    reads d
  {
    d.cd == Seconds(c.coolDown) && d.inner == PureInner(Core(c)) && d.cdWait == ZeroTime
  }

  /** Immediate: the evaluator constructor registered as "immediate". Go's
      Limit panics on a negative limit, hence the precondition. */
  method New(c: Criteria) returns (d: CoolDown)
    requires c.limit >= 0
    ensures fresh(d.Repr())
    ensures Built(c, d)
  {
    d := new CoolDown(Seconds(c.coolDown), PureInner(Core(c)));
  }

  /** Every pod Immediate may select came from the input, is a running pod
      of c's namespace whose name starts with c's name, and was created
      strictly before now - MaxAge; at most Limit pods are selected, oldest
      first, and exactly min(Limit, k) of the k eligible pods. */
  lemma Selects(c: Criteria, pods: seq<Pod>, now: int, out: seq<Pod>)
    requires c.limit >= 0
    requires Produces(Core(c), pods, now, out)
    ensures forall p :: p in out ==>
      && p in pods
      && c.name <= p.name && p.namespace == c.namespace && p.phase == Running
      && p.created < AgeThreshold(now, Seconds(c.maxAge))
    ensures multiset(out) <= multiset(pods)
    ensures Sorted(out)
    ensures |out| == Min(c.limit, |Eligible(TargetFilter(c.name, c.namespace), Seconds(c.maxAge), pods, now)|)
    ensures |out| <= c.limit
  {
    var f := TargetFilter(c.name, c.namespace);
    NestedCoreSelects(f, Seconds(c.maxAge), c.limit, pods, now, out);
    OldestEligibleProperties(f, Seconds(c.maxAge), c.limit, pods, now, out);
  }

  /** After a call that kicks pods at time t1, a call at t2 before
      t1 + CoolDown returns nothing, whatever the pods offered. */
  method KickThenWait(c: Criteria, pods1: seq<Pod>, t1: nat, pods2: seq<Pod>, t2: nat)
    returns (out1: seq<Pod>, out2: seq<Pod>)
    requires c.limit >= 0
    requires t2 < t1 + Seconds(c.coolDown)
    ensures out1 != [] ==> out2 == []
    ensures forall p :: p in out1 ==> p in pods1 && p.created < AgeThreshold(t1, Seconds(c.maxAge))
  {
    var d := New(c);
    out1 := d.Evaluate(pods1, t1);
    Selects(c, pods1, t1, out1);
    out2 := d.Evaluate(pods2, t2);
  }

  /** Five running pods of namespace "default" named web-1 .. web-5, aged
      4000, 3700, 3600, 100 and 50 seconds at time now. */
  function ExamplePods(now: int): (ps: seq<Pod>)
    ensures |ps| == 5
  {
    [Pod("web-1", "default", Running, now - 4000 * Second),
     Pod("web-2", "default", Running, now - 3700 * Second),
     Pod("web-3", "default", Running, now - 3600 * Second),
     Pod("web-4", "default", Running, now - 100 * Second),
     Pod("web-5", "default", Running, now - 50 * Second)]
  }

  /** Names "web", MaxAge 3600, Limit 2. */
  const ExampleCriteria: Criteria := Criteria("web", "default", 3600, 90, StrategyImmediate, 2, 30, 300)

  /** Every example pod is a target of the example criteria. */
  lemma ExampleAllTargeted(now: int)
    ensures KeepMatching(TargetFilter("web", "default"), ExamplePods(now)) == ExamplePods(now)
  {
    var f := TargetFilter("web", "default");
    var ps := ExamplePods(now);
    forall i | 0 <= i < |ps|
      ensures f(ps[i])
    {
      assert ps[i].name[..3] == "web";
    }
    KeepMatchingAll(f, ps);
  }

  /** For five pods of which the first two, and only those, were created
      before t, exactly the first two are kept. */
  lemma FirstTwoOld(p: seq<Pod>, t: int)
    requires |p| == 5
    requires p[0].created < t && p[1].created < t
    requires p[2].created >= t && p[3].created >= t && p[4].created >= t
    ensures KeepMatching(CreatedBefore(t), p) == p[..2]
  {
    var aged := CreatedBefore(t);
    var a, b := p[..2], p[2..];
    assert p == a + b;
    KeepMatchingAppend(aged, a, b);
    KeepMatchingAll(aged, a);
    KeepMatchingNone(aged, b);
  }

  /** The eligible example pods are the two oldest. */
  lemma ExampleEligible(now: int)
    ensures Seconds(ExampleCriteria.maxAge) == 3600 * Second
    ensures Eligible(TargetFilter("web", "default"), 3600 * Second, ExamplePods(now), now) == ExamplePods(now)[..2]
    ensures ExamplePods(now)[..2] == [ExamplePods(now)[0], ExamplePods(now)[1]]
  {
    ExampleAllTargeted(now);
    FirstTwoOld(ExamplePods(now), now - 3600 * Second);
  }

  /** The worked example, at any time now: the pod exactly MaxAge old is
      not eligible (the comparison is strict), so only the pods 4000 and
      3700 seconds old are, and both are selected, oldest first. */
  lemma ExampleSelection(now: int, out: seq<Pod>)
    requires Produces(Core(ExampleCriteria), ExamplePods(now), now, out)
    ensures out == ExamplePods(now)[..2]
  {
    var c := ExampleCriteria;
    var ps := ExamplePods(now);
    var maxAge := Seconds(c.maxAge);
    ExampleEligible(now);
    NestedCoreSelects(TargetFilter(c.name, c.namespace), maxAge, c.limit, ps, now, out);
    var e :| Sorted(e) && multiset(e) == multiset(ps[..2]) && out == Limit(c.limit, e);
    TwoSortedPermutation(ps[0], ps[1], e);
  }

  /** The only sorted arrangement of two pods of different ages. */
  lemma TwoSortedPermutation(a: Pod, b: Pod, e: seq<Pod>)
    requires a.created < b.created
    requires Sorted(e) && multiset(e) == multiset([a, b])
    ensures e == [a, b]
  {
    assert |e| == |multiset(e)| == 2;
    assert e[0] in multiset(e) && e[1] in multiset(e);
    assert e == [e[0], e[1]];
  }
}
