/** Criteria and configuration validation, pkg/conf/conf.go: unset or
    non-positive settings are replaced by fixed defaults, and a criterion
    without a name, or whose MaxAge is not above its MinAge, is refused. */
module Config {
  import opened Wrappers

  const DefaultCheckInterval: int := 60
  const DefaultNamespace: string := "default"
  const DefaultMaxAge: int := 86400
  const DefaultMinAge: int := 90
  const StrategySpread: string := "spread"
  const StrategyImmediate: string := "immediate"
  const DefaultStrategy: string := StrategySpread
  const DefaultLimit: int := 1
  const DefaultGracePeriod: int := 30
  const DefaultCoolDown: int := 300

  /** One pod-kicking criterion; ages, grace period and cool down are in
      seconds. The strategy is a name in the strategy registry. */
  datatype Criteria = Criteria(
    name: string,
    namespace: string,
    maxAge: int,
    minAge: int,
    strategy: string,
    limit: int,
    gracePeriod: int,
    coolDown: int)

  /** The errors validation reports. */
  datatype ConfError =
    | MissingName                       // "Criteria must have a Name"
    | AgeOrder(maxAge: int, minAge: int) // MaxAge <= MinAge after defaulting
    | NoCriteria                        // "Must provide at least one Criteria"

  /** A setting that must be positive: kept if it is, else the default. */
  function PositiveOr(x: int, default: int): int {
    if x <= 0 then default else x
  }

  /** A setting that must be non-empty: kept if it is, else the default. */
  function NonEmptyOr(s: string, default: string): string {
    if s == "" then default else s
  }

  /** A criterion validation accepts: it has a name, and its MaxAge exceeds
      its MinAge once each has been defaulted. */
  predicate Acceptable(c: Criteria) {
    c.name != "" && PositiveOr(c.maxAge, DefaultMaxAge) > PositiveOr(c.minAge, DefaultMinAge)
  }

  /** A criterion in the shape a successful validation leaves it. */
  predicate WellFormed(c: Criteria) {
    && c.name != ""
    && c.namespace != ""
    && 0 < c.minAge < c.maxAge
    && c.strategy != ""
    && c.limit >= 1
    && c.gracePeriod >= 1
    && c.coolDown >= 1
  }

  /** Every field of v is the field of c when that one was already valid,
      and the field's default when it was not. */
  predicate FullyDefaulted(c: Criteria, v: Criteria) {
    && v.name == c.name
    && v.namespace == NonEmptyOr(c.namespace, DefaultNamespace)
    && v.minAge == PositiveOr(c.minAge, DefaultMinAge)
    && v.maxAge == PositiveOr(c.maxAge, DefaultMaxAge)
    && v.strategy == NonEmptyOr(c.strategy, DefaultStrategy)
    && v.limit == PositiveOr(c.limit, DefaultLimit)
    && v.gracePeriod == PositiveOr(c.gracePeriod, DefaultGracePeriod)
    && v.coolDown == PositiveOr(c.coolDown, DefaultCoolDown)
  }

  /** What validation leaves when the age check fails: name, namespace and
      ages handled, the four later settings untouched. */
  predicate AgesDefaulted(c: Criteria, v: Criteria) {
    && v.name == c.name
    && v.namespace == NonEmptyOr(c.namespace, DefaultNamespace)
    && v.minAge == PositiveOr(c.minAge, DefaultMinAge)
    && v.maxAge == PositiveOr(c.maxAge, DefaultMaxAge)
    && v.strategy == c.strategy
    && v.limit == c.limit
    && v.gracePeriod == c.gracePeriod
    && v.coolDown == c.coolDown
  }

  /** Criteria.validate, on a copy of the receiver: the name check comes
      first, then namespace and ages are defaulted, then the age check, then
      the remaining settings are defaulted. v is the receiver afterwards. */
  method ValidateCriteria(c: Criteria) returns (v: Criteria, err: Option<ConfError>)
    ensures err.None? <==> Acceptable(c)
    ensures c.name == "" ==> err == Some(MissingName) && v == c
    ensures c.name != "" && err.Some? ==> err == Some(AgeOrder(v.maxAge, v.minAge)) && AgesDefaulted(c, v)
    ensures err.None? ==> FullyDefaulted(c, v) && WellFormed(v)
    ensures WellFormed(c) ==> err.None? && v == c
  {
    v := c;
    if v.name == "" {
      return v, Some(MissingName);
    }
    v := v.(namespace := NonEmptyOr(v.namespace, DefaultNamespace));
    v := v.(minAge := PositiveOr(v.minAge, DefaultMinAge));
    v := v.(maxAge := PositiveOr(v.maxAge, DefaultMaxAge));
    if v.maxAge <= v.minAge {
      return v, Some(AgeOrder(v.maxAge, v.minAge));
    }
    v := v.(strategy := NonEmptyOr(v.strategy, DefaultStrategy));
    v := v.(limit := PositiveOr(v.limit, DefaultLimit));
    v := v.(gracePeriod := PositiveOr(v.gracePeriod, DefaultGracePeriod));
    v := v.(coolDown := PositiveOr(v.coolDown, DefaultCoolDown));
    return v, None;
  }

  /** Ages are compared after defaulting: MinAge 100 with MaxAge 50 is
      refused, while MinAge 0 with MaxAge 0 is accepted, because the
      defaults 90 and 86400 are in order. */
  lemma AgeExamples(c: Criteria)
    requires c.name != ""
    ensures !Acceptable(c.(minAge := 100, maxAge := 50))
    ensures Acceptable(c.(minAge := 0, maxAge := 0))
  {
  }

  /** What validation leaves of one criterion, whether or not it fails. */
  ghost predicate Validated(c: Criteria, v: Criteria) {
    if c.name == "" then v == c
    else if Acceptable(c) then FullyDefaulted(c, v)
    else AgesDefaulted(c, v)
  }

  /** The first criterion of cs that validation refuses is cs[k]. */
  ghost predicate FirstRejected(cs: seq<Criteria>, k: int) {
    0 <= k < |cs| && !Acceptable(cs[k]) && forall i :: 0 <= i < k ==> Acceptable(cs[i])
  }

  /** The configuration: the check interval in seconds and the criteria. */
  class Conf {
    var checkInterval: int
    var criteria: seq<Criteria>

    constructor(checkInterval: int, criteria: seq<Criteria>)
      ensures this.checkInterval == checkInterval && this.criteria == criteria
    {
      this.checkInterval := checkInterval;
      this.criteria := criteria;
    }

    /** Conf.validate: defaults the check interval (before anything can
        fail), refuses an empty criteria list, then validates the criteria
        in place, in order, stopping at the first refusal. */
    method Validate() returns (err: Option<ConfError>)
      modifies this
      ensures checkInterval == PositiveOr(old(checkInterval), DefaultCheckInterval)
      ensures |criteria| == |old(criteria)|
      ensures old(criteria) == [] ==> err == Some(NoCriteria)
      ensures err.None? <==> old(criteria) != [] && forall i :: 0 <= i < |old(criteria)| ==> Acceptable(old(criteria)[i])
      ensures err.None? ==> forall i :: 0 <= i < |criteria| ==> Validated(old(criteria)[i], criteria[i]) && WellFormed(criteria[i])
      ensures err.Some? && old(criteria) != [] ==> exists k ::
        && FirstRejected(old(criteria), k)
        && (forall i :: 0 <= i <= k ==> Validated(old(criteria)[i], criteria[i]))
        && criteria[k + 1..] == old(criteria)[k + 1..]
        && err == Some(if old(criteria)[k].name == "" then MissingName else AgeOrder(criteria[k].maxAge, criteria[k].minAge))
    {
      if checkInterval <= 0 {
        checkInterval := DefaultCheckInterval;
      }
      if |criteria| <= 0 {
        return Some(NoCriteria);
      }
      var i := 0;
      while i < |criteria|
        invariant 0 <= i <= |criteria| == |old(criteria)|
        invariant checkInterval == PositiveOr(old(checkInterval), DefaultCheckInterval)
        invariant forall k :: 0 <= k < i ==> Acceptable(old(criteria)[k])
        invariant forall k :: 0 <= k < i ==> Validated(old(criteria)[k], criteria[k]) && WellFormed(criteria[k])
        invariant criteria[i..] == old(criteria)[i..]
      {
        assert criteria[i] == old(criteria)[i];
        var v, e := ValidateCriteria(criteria[i]);
        criteria := criteria[i := v];
        if e.Some? {
          assert FirstRejected(old(criteria), i);
          assert criteria[i + 1..] == old(criteria)[i + 1..];
          return e;
        }
        i := i + 1;
      }
      return None;
    }
  }
}
