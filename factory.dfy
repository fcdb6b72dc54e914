/** The strategy registry and strategy construction, pkg/strategy/factory.go.
    The registry is a write-once map from strategy name to evaluator
    constructor; a Strategy pairs a criterion with the evaluator its
    strategy's constructor built for it. */
module Factory {
  import opened Wrappers
  import opened Pods
  import opened Throttle
  import Config
  import Immediate
  import SpreadPolicy

  /** The evaluator constructors a registry can hold: the two built-in
      policies. */
  datatype Constructor = ImmediateConstructor | SpreadConstructor

  /** The errors of the registry. */
  datatype FactoryError =
    | AlreadyRegistered(name: string) // "strategy '%s' is already registered"
    | NotRegistered(name: string)     // "strategy '%s' is not registered for use"

  /** d is the evaluator con builds for c, in its initial state. */
  ghost predicate Builds(con: Constructor, c: Config.Criteria, d: CoolDown)
    requires c.limit >= 0
    reads d.Repr()
  {
    match con
    case ImmediateConstructor => Immediate.Built(c, d)
    case SpreadConstructor => SpreadPolicy.Built(c, d)
  }

  /** Calling a registered constructor on c. */
  method Construct(con: Constructor, c: Config.Criteria) returns (d: CoolDown)
    requires c.limit >= 0
    ensures fresh(d.Repr())
    ensures Builds(con, c, d)
  {
    match con {
      case ImmediateConstructor =>
        d := Immediate.New(c);
      case SpreadConstructor =>
        d := SpreadPolicy.New(c);
    }
  }

  /** The lookup RetrieveEvaluatorConstructor performs on a registry map. */
  function Lookup(m: map<string, Constructor>, name: string): (r: Result<Constructor, FactoryError>)
    ensures r.Success? <==> name in m
    ensures r.Failure? ==> r.error == NotRegistered(name)
  {
    if name in m then Success(m[name]) else Failure(NotRegistered(name))
  }

  /** Binding a fresh name makes it resolve to its constructor and leaves
      every other name resolving as before. */
  lemma LookupAfterBind(m: map<string, Constructor>, name: string, con: Constructor, other: string)
    requires name !in m
    ensures Lookup(m[name := con], other) == if other == name then Success(con) else Lookup(m, other)
  {
  }

  /** The global strategy registry, as an object over its map. */
  class Registry {
    var constructors: map<string, Constructor>

    constructor()
      ensures constructors == map[]
    {
      constructors := map[];
    }

    /** RegisterEvaluatorConstructor: binds an unbound name; refuses a
        bound one and keeps the constructor registered first. */
    method Register(name: string, con: Constructor) returns (err: Option<FactoryError>)
      modifies this
      ensures name in old(constructors) ==> err == Some(AlreadyRegistered(name)) && constructors == old(constructors)
      ensures name !in old(constructors) ==> err == None && constructors == old(constructors)[name := con]
    {
      if name in constructors {
        return Some(AlreadyRegistered(name));
      }
      constructors := constructors[name := con];
      return None;
    }

    /** RetrieveEvaluatorConstructor. */
    function Retrieve(name: string): (r: Result<Constructor, FactoryError>)
      reads this
      ensures r == Lookup(constructors, name)
      ensures r.Success? ==> name in constructors && r.value == constructors[name]
    {
      Lookup(constructors, name)
    }
  }

  /** A criterion with the evaluator built for it. */
  class Strategy {
    const c: Config.Criteria
    const eval: CoolDown

    constructor(c: Config.Criteria, eval: CoolDown)
      ensures this.c == c && this.eval == eval
    {
      this.c := c;
      this.eval := eval;
    }

    /** The criterion this strategy was built from. */
    function Criteria(): (r: Config.Criteria)
      ensures r == c
    {
      c
    }

    /** Evaluate delegates to the built evaluator. */
    method Evaluate(pods: seq<Pod>, now: nat) returns (out: seq<Pod>)
      modifies eval.Repr()
      ensures CoolDownStep(eval, pods, now, out)
    {
      out := eval.Evaluate(pods, now);
    }
  }

  /** NewStrategy: fails, building nothing, exactly when c's strategy is
      not registered; otherwise builds a fresh evaluator with the
      registered constructor and pairs it with c. */
  method NewStrategy(reg: Registry, c: Config.Criteria) returns (s: Strategy?, err: Option<FactoryError>)
    requires c.limit >= 0
    ensures c.strategy !in reg.constructors ==> s == null && err == Some(NotRegistered(c.strategy))
    ensures c.strategy in reg.constructors ==>
      && err == None && s != null
      && fresh(s) && fresh(s.eval.Repr())
      && s.Criteria() == c
      && Builds(reg.constructors[c.strategy], c, s.eval)
  {
    var r := reg.Retrieve(c.strategy);
    if r.Failure? {
      return null, Some(r.error);
    }
    var d := Construct(r.value, c);
    s := new Strategy(c, d);
    err := None;
  }

  /** The first criterion of cs whose strategy is not registered is cs[k]. */
  ghost predicate FirstUnregistered(reg: map<string, Constructor>, cs: seq<Config.Criteria>, k: int) {
    && 0 <= k < |cs|
    && cs[k].strategy !in reg
    && forall i :: 0 <= i < k ==> cs[i].strategy in reg
  }

  /** NewGroup: one strategy per criterion, in order, each with its own
      fresh evaluator; or, at the first criterion whose strategy is not
      registered, that error and no strategies at all. */
  method NewGroup(reg: Registry, cs: seq<Config.Criteria>) returns (strats: seq<Strategy>, err: Option<FactoryError>)
    requires forall i :: 0 <= i < |cs| ==> cs[i].limit >= 0
    ensures err.None? <==> forall i :: 0 <= i < |cs| ==> cs[i].strategy in reg.constructors
    ensures err.Some? ==> strats == [] && exists k :: FirstUnregistered(reg.constructors, cs, k) && err == Some(NotRegistered(cs[k].strategy))
    ensures err.None? ==> |strats| == |cs|
    ensures err.None? ==> forall i :: 0 <= i < |cs| ==>
      && strats[i].Criteria() == cs[i]
      && fresh(strats[i].eval.Repr())
      && Builds(reg.constructors[cs[i].strategy], cs[i], strats[i].eval)
    ensures err.None? ==> forall i, j :: 0 <= i < j < |strats| ==> strats[i].eval.Repr() !! strats[j].eval.Repr()
  {
    strats := [];
    var i := 0;
    while i < |cs|
      invariant 0 <= i <= |cs| && |strats| == i
      invariant forall k :: 0 <= k < i ==> cs[k].strategy in reg.constructors
      invariant forall k :: 0 <= k < i ==>
        && strats[k].Criteria() == cs[k]
        && fresh(strats[k].eval.Repr())
        && Builds(reg.constructors[cs[k].strategy], cs[k], strats[k].eval)
      invariant forall k, l :: 0 <= k < l < i ==> strats[k].eval.Repr() !! strats[l].eval.Repr()
    {
      var s, e := NewStrategy(reg, cs[i]);
      if e.Some? {
        assert FirstUnregistered(reg.constructors, cs, i);
        return [], e;
      }
      strats := strats + [s];
      i := i + 1;
    }
    err := None;
  }
}
