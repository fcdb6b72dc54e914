# kicker: the strategy-evaluation engine, in Dafny

kicker watches the pods of a Kubernetes cluster and "kicks" (deletes) pods
that have lived longer than a configured maximum age. Each entry of its
configuration is a *criterion*. A criterion names the target pods by name
prefix and namespace, and sets a maximum age, a limit of pods per round, a
cool down and a *strategy*. A strategy is an *evaluator*: a function from the
current list of pods to the sub-list to kick. It keeps a little state
between rounds, so that kicks are throttled.

This project models the engine's core and proves what it does:

- **Configuration** (`conf.dfy`, module `Config`). Defaults replace unset
  settings. A criterion without a name, or whose maximum age does not exceed
  its minimum age once both are defaulted, is refused. `Conf.Validate`
  validates the criteria in place and stops at the first refusal.
- **Predicates** (`filter.dfy`, module `Filters`): namespace, name-prefix and
  phase filters, and `Not`, `Or` and `And`. `KeepMatching` is the list of
  pods a filter accepts. Every filtering loop of the engine is specified by
  it.
- **Pipeline stages** (`seive.dfy`, module `Seive`; `sort.dfy`, module
  `Sort`):
  - the stages are ApplyFilter, FilterPodSet, the oldest-first sort,
    OlderThan and Limit;
  - `EvaluatorSeive` runs the stages in order and stops at the first empty
    result.
  
  Go's `sort.Slice` is not stable, so a stage's meaning is a relation,
  `Produces(stage, pods, now, out)`. The lemmas show that the creation times
  of any result are nevertheless fixed.
- **Throttles** (`throttle.dfy`, module `Throttle`): `CoolDown` and `Spread`
  as classes whose fields are the variables their Go closures capture. The
  older revision of the same file (`evaluator.dfy`, module
  `EvaluatorRevision`) has a count-blind `Spread` and `SpreadFast`.
- **Built-in policies** (`immediate.dfy`, `spread.dfy`): the Immediate and
  Spread pipelines. Each has a lemma stating what it selects: the oldest
  eligible pods, up to the limit. Each also has a method showing that the
  cool down silences the next call. A worked example checks the Immediate
  selection on five pods.
- **Registry and strategies** (`factory.dfy`, `builtins.dfy`): a write-once
  map from strategy name to constructor, `NewStrategy`, `NewGroup`, and the
  registrations that the two policies' init functions perform.
- **The older hand-written policies** (`eval_filter.dfy`,
  `eval_selection.dfy`, `eval_immediate.dfy`, `eval_spread.dfy`): package
  `pkg/eval`, modelled as written. Its `Filter.Apply` always returns nothing,
  so both closures always return nothing. Their post-filter logic is modelled
  and proved on its own (`AfterFilter`), and its selection loop stops after
  one pod.

Conventions:

- **Pods.** A pod is `Pod(name, namespace, phase, created)`. Times are
  integer nanoseconds counted from Go's zero `time.Time`.
- **Clock.** A clock reading is the parameter `now: nat`, so nothing is ever
  before the zero time.
- **Durations.** A duration built from seconds wraps as Go's int64
  multiplication does (`Pods.Seconds`). Dividing a duration by a count
  truncates toward zero (`Pods.Quot`). The age threshold `now.Add(-maxAge)`
  negates the duration in int64 (`Pods.AgeThreshold`).

The Spread policy's doc comment speaks of "the last count at pod kick"
(pkg/strategy/spread/spread.go:24-25), which could mean either the number of
pods offered or the number kicked. The code records the number kicked: it
sets `lastCountAtKick = len(pods)` after `pods = seive(pods)`
(pkg/strategy/seive.go:136-140). The model follows the code.
`Throttle.SpreadWindowAfterKick` states the consequence: inside the window a
call is blocked exactly when it is offered no more pods than were kicked.

## Model

| member | source | states |
|---|---|---|
| Pods.Wrap64 | pkg/strategy/immediate/immediate.go:28 | int64 wrap-around: the result is in int64 range, congruent to the input modulo 2^64, and equal to it when it is already in range |
| Pods.Seconds | pkg/strategy/immediate/immediate.go:28 | `time.Duration(n) * time.Second` is an int64, congruent to n seconds in nanoseconds modulo 2^64, and equal to it, for negative n too, whenever that does not overflow |
| Pods.Quot | pkg/strategy/seive.go:139 | dividing a duration by a positive count truncates toward zero: for a >= 0 the quotient q has q*b <= a < q*b + b, for a < 0 it has q*b - b < a <= q*b, so its sign follows a |
| Pods.AgeThreshold | pkg/strategy/seive.go:90 | `now.Add(-maxAge)` is now - maxAge for every int64 duration except the most negative, whose negation wraps, giving now + MinInt64 |
| Pods.HugeMaxAgeThreshold | pkg/strategy/immediate/immediate.go:28 | a MaxAge of 2^54 seconds becomes the most negative duration, and the age threshold then lies 2^63 ns before now |
| Filters.NameSpaceFilter | pkg/strategy/filter.go:14-18 | accepts a pod iff its namespace equals the given one (pkg/eval/filter.go:30-34 is the same code) |
| Filters.HasPrefix | pkg/strategy/filter.go:23 | `strings.HasPrefix(s, prefix)` holds iff prefix is a prefix of s |
| Filters.NamePrefixFilter | pkg/strategy/filter.go:21-25 | accepts a pod iff the given string is a prefix of its name (pkg/eval/filter.go:37-41 is the same code) |
| Filters.EmptyPrefixMatchesAll | pkg/strategy/filter.go:21-25 | the empty prefix accepts every pod |
| Filters.StatusFilter | pkg/strategy/filter.go:28-32 | accepts a pod iff its phase equals the given one (pkg/eval/filter.go:44-48 is the same code) |
| Filters.Not | pkg/strategy/filter.go:35-39 | as written, Not(f) gives the same verdict as f on every pod (pkg/eval/filter.go:51-55 is the same code) |
| Filters.Negate | pkg/strategy/filter.go:34 | what the doc comment promises: the opposite verdict of f on every pod |
| Filters.NotNeverNegates | pkg/strategy/filter.go:34-39 | Not never agrees with negation: on every pod its verdict is the opposite of the documented one |
| Filters.AnyPasses | pkg/strategy/filter.go:44-52 | Or's early-exit loop returns true iff some filter of the list accepts the pod |
| Filters.Or | pkg/strategy/filter.go:43-53 | Or(fs) accepts a pod iff some filter of fs does; the empty Or accepts nothing (pkg/eval/filter.go:59-69 is the same code) |
| Filters.AllPass | pkg/strategy/filter.go:58-66 | And's early-exit loop returns true iff every filter of the list accepts the pod |
| Filters.And | pkg/strategy/filter.go:57-67 | And(fs) accepts a pod iff every filter of fs does; the empty And accepts everything (pkg/eval/filter.go:73-83 is the same code) |
| Filters.TargetFilter | pkg/strategy/immediate/immediate.go:33-37 | the policies' filter accepts a pod iff its name starts with the criterion's name, its namespace is the criterion's, and it is Running |
| Filters.KeepMatching | pkg/strategy/seive.go:63-68 | the append loop keeps no more pods than it is given, and keeps only pods the filter accepts |
| Filters.KeepMatchingSingleton | pkg/strategy/seive.go:64-68 | a single pod is kept iff the filter accepts it |
| Filters.KeepMatchingAll | pkg/strategy/seive.go:64-68 | a filter that accepts every pod keeps the whole list |
| Filters.KeepMatchingNone | pkg/strategy/seive.go:64-68 | a filter that accepts no pod keeps nothing |
| Filters.KeepMatchingAppend | pkg/strategy/seive.go:64-68 | filtering distributes over concatenation, so relative order is kept |
| Filters.KeepMatchingCount | pkg/strategy/seive.go:64-68 | each pod is kept exactly as often as it occurs when accepted, and never otherwise |
| Filters.KeepMatchingSubMultiset | pkg/strategy/seive.go:64-68 | filtering keeps no pod more often than it occurs |
| Filters.KeepMatchingMember | pkg/strategy/seive.go:64-68 | a pod is in the result iff it is in the input and accepted |
| Filters.KeepMatchingPermutation | pkg/strategy/seive.go:64-68 | filtering two permutations of each other gives permutations of each other |
| Filters.KeepMatchingSorted | pkg/strategy/seive.go:64-68 | filtering a list sorted oldest first leaves it sorted |
| Sort.SortCreationTimestampAsc | pkg/strategy/seive.go:77-85 | the array ends sorted oldest first and is a permutation of its old contents; one that is empty or has a single pod is unchanged; an already sorted one keeps its sequence of creation times (pkg/eval/sort.go:9-14 sorts in place the same way) |
| Sort.SingletonPermutation | pkg/eval/sort.go:9-14 | the only permutation of a one-pod list is the list itself |
| Sort.SortedPermutationsAgree | pkg/eval/sort.go:11-13 | any two sorted permutations of one list have the same creation times position by position, so sorting twice gives the times sorting once does |
| Sort.TimesPermutation | pkg/strategy/seive.go:79-81 | permuting pods permutes their creation times |
| Sort.TimesRemoveOne | pkg/strategy/seive.go:79-81 | the times of a list are those of the list without one pod, plus that pod's time |
| Sort.SortedIntsUnique | pkg/strategy/seive.go:79-81 | a multiset of timestamps has exactly one ascending arrangement |
| Seive.Unlisted | pkg/strategy/seive.go:34-45 | FilterPodSet's test accepts a pod iff no pod of the filter set has its name and namespace |
| Seive.CreatedBefore | pkg/strategy/seive.go:90-95 | OlderThan's test accepts a pod iff it was created strictly before the threshold |
| Seive.Limit | pkg/strategy/seive.go:148-158 | Limit returns a prefix of its input of length min(limit, len) |
| Seive.ApplyFilter | pkg/strategy/seive.go:56-75 | exactly the accepted pods, in input order; nothing for an empty input |
| Seive.FilterPodSet | pkg/strategy/seive.go:26-52 | exactly the pods whose name and namespace match no pod of the filter set, in input order |
| Seive.SortCreationTimestampAsc | pkg/strategy/seive.go:77-85 | the stage returns a sorted permutation of its input |
| Seive.OlderThan | pkg/strategy/seive.go:87-103 | exactly the pods created strictly before now.Add(-maxAge), in input order |
| Seive.Evaluate | pkg/strategy/seive.go:15 | running one stage returns a list the stage may produce |
| Seive.EvaluatorSeive | pkg/strategy/seive.go:11-23 | stages run in order, each on the previous result; the first empty result is returned and no later stage runs; with no stages the input is returned |
| Seive.PrefixSubMultiset | pkg/strategy/seive.go:151-153 | a prefix, which is what Limit returns, is a sub-multiset of the list |
| Seive.ProducesShrinks | pkg/strategy/seive.go:11-23 | no stage or seive invents pods: every result is a sub-multiset of the input and no longer than it |
| Seive.SeiveShrinks | pkg/strategy/seive.go:11-23 | the rest of a seive, from any stage on, returns a sub-multiset of what it is given |
| Seive.SortedOldOnes | pkg/strategy/spread/spread.go:35-40 | sorting the filtered pods and then keeping the old ones gives a sorted permutation of the eligible pods |
| Seive.AgeLimitTail | pkg/strategy/spread/spread.go:38-39 | an OlderThan stage followed by Limit returns Limit over the pods older than the threshold |
| Seive.SortAgeLimit | pkg/strategy/immediate/immediate.go:26-30 | sort, OlderThan and Limit run on the filtered pods select the oldest eligible pods, up to the limit |
| Seive.FlatCoreSelects | pkg/strategy/spread/spread.go:35-40 | the one-seive core selects the first min(limit, k) of the k eligible pods, sorted oldest first |
| Seive.NestedCoreSelects | pkg/strategy/immediate/immediate.go:26-43 | the nested seive selects exactly what the flat one does |
| Seive.OldestEligibleProperties | pkg/strategy/immediate/immediate.go:18-30 | every selected pod came from the input, passes the filter and is older than maxAge; none is selected more often than it occurs; the selection is sorted; it holds min(limit, k) pods |
| Seive.LimitTimes | pkg/strategy/seive.go:148-158 | limiting lists with equal creation times gives lists with equal creation times |
| Seive.OldestEligibleTimes | pkg/strategy/seive.go:77-85 | whatever order the unstable sort picks, any two selections have the same creation times position by position |
| Seive.AllOld | pkg/strategy/seive.go:87-103 | when the newest pod of a sorted list is old, OlderThan keeps every pod |
| Seive.LastNotOld | pkg/strategy/seive.go:87-103 | a last pod that is not old is dropped |
| Seive.OldOnesArePrefix | pkg/strategy/seive.go:87-103 | on a sorted list OlderThan returns a prefix, and it holds every pod created before the threshold |
| Throttle.Spread.constructor | pkg/strategy/seive.go:125-127 | Spread starts at the zero time with count -1, so it blocks no call |
| Throttle.Spread.Evaluate | pkg/strategy/seive.go:128-145 | a call is blocked (nothing returned, nothing changed) iff now < waitUntil and the input count is at most lastCountAtKick; otherwise the wrapped stage runs, and a non-empty result sets waitUntil to now + maxAge / input count and lastCountAtKick to the result's size |
| Throttle.SpreadStepEffect | pkg/strategy/seive.go:130-141 | a blocked call changes nothing; a result is a sub-multiset of the input; an empty result changes nothing; a non-empty one came from a non-empty input, so the division is by a positive count |
| Throttle.SpreadWindowAfterKick | pkg/strategy/seive.go:131-140 | after a kick, a later call is blocked iff it comes before now + maxAge / input count and offers no more pods than were kicked |
| Throttle.CoolDown.constructor | pkg/strategy/seive.go:105-106 | the deadline starts at the zero time, so the first call is never blocked |
| Throttle.CoolDown.Evaluate | pkg/strategy/seive.go:107-122 | before the deadline a call returns nothing and the wrapped stage is not run; otherwise it runs, and the deadline becomes now + cd iff the result is non-empty (the older CoolDown, pkg/strategy/evaluator.go:105-124, is the same) |
| EvaluatorRevision.Spread.constructor | pkg/strategy/evaluator.go:126-127 | the window starts at the zero time |
| EvaluatorRevision.Spread.Evaluate | pkg/strategy/evaluator.go:128-145 | blocked iff now < waitUntil, whatever the count; otherwise the wrapped stage runs and waitUntil becomes now + maxAge / input count iff the result is non-empty; the input must not be empty, as Go divides by its length first |
| EvaluatorRevision.FastSelectBounds | pkg/strategy/evaluator.go:158-160 | SpreadFast's selection has at most `limit` pods, each from its input and created before now.Add(-minAge) |
| EvaluatorRevision.FastSelect | pkg/strategy/evaluator.go:159-160 | SpreadFast cuts the wrapped evaluator's result to a prefix of its pods created before now.Add(-minAge), of length min(limit, k) for k such pods |
| EvaluatorRevision.SpreadFast.constructor | pkg/strategy/evaluator.go:148-149 | lastEvict starts at the zero time |
| EvaluatorRevision.SpreadFast.Evaluate | pkg/strategy/evaluator.go:150-169 | blocked iff now < lastEvict + maxAge / input count; otherwise the result is Limit over OlderThan of what the wrapped stage returns; lastEvict becomes now iff the result is non-empty |
| Config.ValidateCriteria | pkg/conf/conf.go:99-137 | validation fails iff the name is empty or the defaulted MaxAge is not above the defaulted MinAge; an empty name leaves the criterion untouched; success leaves every field defaulted (default, 90, 86400, spread, 1, 30, 300) or kept when already valid, and leaves a well-formed criterion; a well-formed one is accepted unchanged, so validation is idempotent |
| Config.AgeExamples | pkg/conf/conf.go:108-118 | MinAge 100 with MaxAge 50 is refused; MinAge 0 with MaxAge 0 is accepted |
| Config.Conf.constructor | pkg/conf/conf.go:14-24 | a configuration holds its check interval and its criteria |
| Config.Conf.Validate | pkg/conf/conf.go:26-42 | the check interval is defaulted to 60 even when validation then fails; an empty criteria list fails; on success every criterion is validated and well-formed; on failure the error is the first refused criterion's, the criteria before it are validated in place and those after it are untouched |
| Immediate.New | pkg/strategy/immediate/immediate.go:24-47 | the evaluator is CoolDown(CoolDown s, Seive(ApplyFilter(target), Seive(sort, OlderThan(MaxAge s), Limit))) with its deadline at the zero time |
| Immediate.Selects | pkg/strategy/immediate/immediate.go:26-43 | every selected pod came from the input, is a target and was created before now.Add(-MaxAge); the selection is sorted, has min(Limit, k) of the k eligible pods, and so at most Limit |
| Immediate.KickThenWait | pkg/strategy/immediate/immediate.go:46 | after a call that kicks, a call before the cool down ends returns nothing |
| Immediate.ExampleAllTargeted | pkg/strategy/immediate/immediate.go:33-37 | the five example pods are all targets of the example criterion |
| Immediate.FirstTwoOld | pkg/strategy/seive.go:87-103 | of five pods of which exactly the first two are old, OlderThan keeps those two |
| Immediate.ExampleEligible | pkg/strategy/immediate/immediate.go:26-43 | the eligible example pods are the two aged 4000 s and 3700 s; the pod exactly MaxAge old is not eligible |
| Immediate.ExampleSelection | pkg/strategy/immediate/immediate.go:26-43 | ages 4000, 3700, 3600, 100 and 50 s with MaxAge 3600 and Limit 2 select the 4000 s and 3700 s pods, in that order |
| Immediate.TwoSortedPermutation | pkg/strategy/seive.go:79-81 | two pods of different ages have one sorted arrangement |
| SpreadPolicy.New | pkg/strategy/spread/spread.go:26-47 | the evaluator is CoolDown(CoolDown s, Spread(MaxAge s, Seive(ApplyFilter(target), sort, OlderThan(MaxAge s), Limit))) in its initial state |
| SpreadPolicy.Selects | pkg/strategy/spread/spread.go:28-43 | every returned pod came from the input, is a target and was created before now.Add(-MaxAge); the result is sorted, has at most Limit pods, and min(Limit, k) of the k eligible pods when not blocked; after a kick the recorded count is the number kicked, at most Limit |
| SpreadPolicy.KickThenWait | pkg/strategy/spread/spread.go:43-46 | after a call that kicks, a call before the cool down ends returns nothing, and the Spread stage keeps the state the kick gave it: window until t1 + MaxAge / pods offered at t1, count equal to the number kicked |
| Factory.Construct | pkg/strategy/factory.go:38 | calling a registered constructor builds that policy's evaluator, fresh |
| Factory.Lookup | pkg/strategy/factory.go:84-89 | a name resolves iff it is bound; an unbound name gives "not registered" |
| Factory.LookupAfterBind | pkg/strategy/factory.go:75 | binding a new name makes it resolve to its constructor and changes no other name |
| Factory.Registry.constructor | pkg/strategy/factory.go:63 | the registry starts empty |
| Factory.Registry.Register | pkg/strategy/factory.go:68-78 | an unbound name is bound and nothing else changes; a bound name fails with "already registered" and the registry is unchanged, so the first constructor is kept |
| Factory.Registry.Retrieve | pkg/strategy/factory.go:81-90 | a registered name gives its constructor, any other name an error |
| Factory.Strategy.constructor | pkg/strategy/factory.go:36-39 | a strategy holds its criterion and its evaluator |
| Factory.Strategy.Criteria | pkg/strategy/factory.go:19-21 | returns the criterion the strategy holds, which NewStrategy ensures is the one it was built from |
| Factory.Strategy.Evaluate | pkg/strategy/factory.go:24-27 | Evaluate is one call of the built evaluator |
| Factory.NewStrategy | pkg/strategy/factory.go:30-40 | fails, building nothing, iff the criterion's strategy is unregistered; otherwise Criteria() is the criterion and the evaluator is the registered constructor's, fresh |
| Factory.NewGroup | pkg/strategy/factory.go:43-55 | one strategy per criterion in order, each with its own fresh evaluator disjoint from the others; or, at the first unregistered strategy, that error and no strategies |
| Builtins.Init | pkg/strategy/immediate/immediate.go:12-16 | after both init functions the registry binds exactly "immediate" and "spread", and neither registration fails (the Spread policy's init, pkg/strategy/spread/spread.go:12-16, registers "spread") |
| Builtins.BuiltinLookup | pkg/conf/conf.go:142-149 | exactly the names "immediate" and "spread" resolve; the default strategy resolves to Spread |
| Builtins.DefaultedStrategyResolves | pkg/conf/conf.go:120-122 | a criterion validated without a strategy gets one the built-in registry resolves |
| Seive.AppendMatching | pkg/strategy/seive.go:63-68 | the append loop adds the accepted pods of the ranged slice, in order, to the slice being built (the loops of OlderThan, seive.go:91-96, and of the older package's Apply, pkg/eval/filter.go:18-23, are the same) |
| EvalFilter.Apply | pkg/eval/filter.go:13-27 | as written, Apply returns the empty list for every input |
| EvalSelection.SelectOldest | pkg/eval/strategy/immediate/immediate.go:53-64 | the loop returns the first pod alone when the limit allows a pod and that pod is old enough, and nothing otherwise; a negative Limit is excluded, as `make` with a negative capacity panics (the Spread closure runs the same loop, pkg/eval/strategy/spread/spread.go:63-74) |
| EvalSelection.BreakSelectIsFirstOld | pkg/eval/strategy/immediate/immediate.go:52-64 | on a sorted list the loop returns Limit 1 over OlderThan: at most one pod, an oldest one, created before now - MaxAge, and only when Limit >= 1 |
| EvalSelection.BreakSelectShortfall | pkg/eval/strategy/immediate/immediate.go:18-22 | with Limit >= 2 and two old pods the loop returns one pod, where the documented selection returns at least two |
| EvalImmediate.Immediate.constructor | pkg/eval/strategy/immediate/immediate.go:24-33 | the closure captures the target filter, MaxAge and CoolDown in nanoseconds, and a deadline at the zero time |
| EvalImmediate.Immediate.Evaluate | pkg/eval/strategy/immediate/immediate.go:35-48 | empty input and a call before the deadline return nothing; as written, every call returns nothing and the deadline never moves |
| EvalImmediate.Immediate.AfterFilter | pkg/eval/strategy/immediate/immediate.go:45-70 | an empty filtered list gives nothing; otherwise the result is the selection loop over a sorted permutation of the filtered pods, and the deadline becomes now + CoolDown iff a pod was selected; a negative Limit with a non-empty filtered list is excluded, as it panics |
| EvalSpread.Spread.constructor | pkg/eval/strategy/spread/spread.go:26-38 | both deadlines start at the zero time and the count at -1 |
| EvalSpread.Spread.Evaluate | pkg/eval/strategy/spread/spread.go:40-53 | empty input and a call before the cool-down deadline return nothing; as written, every call returns nothing and the state never changes |
| EvalSpread.Spread.AfterFilter | pkg/eval/strategy/spread/spread.go:50-82 | an empty filtered list, or an open window with no more filtered pods than recorded, gives nothing and changes nothing; otherwise the selection loop runs on a sorted permutation, and a selection sets the cool down to now + CoolDown, the window to now + MaxAge / filtered count and the count to the filtered count; a negative Limit is excluded where the loop is reached, as it panics |

## Left out

- The clock: each Go call reads `time.Now()` once or twice; the model takes one reading, `now`, per call.
- `Time.Add` saturates near the ends of the representable range; the model adds unboundedly.
- The order that `sort.Slice` gives to pods with equal creation times: results are specified only as sorted permutations.
- The in-place update of the caller's slice by the sorts: the model sorts a copy. In both policies the sort runs on ApplyFilter's fresh slice, so no caller sees the difference.
- Aliasing between the slices that stages return and the slices they are given.
- Seive.Limit: the limit is a `nat`. Go's `Limit` with a negative limit slices out of range and panics on its first call.
- Factory.NewStrategy: requires `c.limit >= 0` because of the panic above. Go builds the evaluator anyway and panics only when it runs. Criteria that passed `Conf.Validate` always have a limit of at least 1.
- Factory.NewGroup, Factory.Construct, Immediate.New and SpreadPolicy.New: carry the same `limit >= 0` requirement, for the same reason.
- EvalSelection.SelectOldest, EvalImmediate.Immediate.AfterFilter and EvalSpread.Spread.AfterFilter: require a non-negative Limit wherever Go reaches `make([]v1.Pod, 0, c.Limit)`, which panics on a negative capacity.
- EvaluatorRevision.Spread.Evaluate and EvaluatorRevision.SpreadFast.Evaluate: require a non-empty input where Go divides by its length. Go panics there.
- EvaluatorRevision.SpreadFast.Evaluate: the first call is blocked iff now is earlier than maxAge / input count after Go's zero time. That never happens with a real clock, and the model keeps the comparison as written.
- The registry holds only the two built-in constructors (a datatype), not arbitrary Go functions.
- The `sync.RWMutex` guarding the registry: the model is single-threaded.
- The older package's registry, `eval.RegisterEvaluatorConstructor`, and its error results are not part of this model.
- `init`'s `log.Fatal` is not modelled. `Builtins.Init` shows that registration cannot fail.
- All logging, and the text of error messages: errors are datatype values.
- pkg/engine/engine.go (the Kubernetes list, delete and sleep loop) is not part of this model.
- pkg/conf/load.go (file and YAML reading) is not part of this model.
- pkg/client/client.go is not part of this model.
- cmd/kicker/main.go is not part of this model.

## Findings

| source | as written | input that shows it | evidently intended | confidence | as-written member | corrected member |
|---|---|---|---|---|---|---|
| pkg/eval/filter.go:19 | the loop ranges over `out`, which is empty, instead of `pl` | any list holding a pod the filter accepts, such as one Running pod of the target namespace: Apply returns nothing | the accepted pods of `pl`, in order | high; not executed | EvalFilter.Apply | Seive.ApplyFilter |
| pkg/strategy/filter.go:37 | `Not` returns `filter(p)` unchanged (pkg/eval/filter.go:53 likewise) | any pod p: Not(f)(p) == f(p) | `!filter(p)`, as the doc comment says | high; not executed | Filters.NotNeverNegates | Filters.Negate |
| pkg/eval/strategy/immediate/immediate.go:56-63 | the loop tests `pods[0]` and breaks after one iteration (pkg/eval/strategy/spread/spread.go:68-73 likewise) | Limit 2 and two pods older than MaxAge: one pod is returned | the oldest eligible pods up to Limit, as the doc comment says | high; not executed | EvalSelection.BreakSelectShortfall | Immediate.Selects |
