/** Filter.Apply of the older package, pkg/eval/filter.go. Its predicates
    and its Not, Or and And are the same code as pkg/strategy/filter.go and
    are modelled once, in Filters; Apply differs: it ranges over the slice
    it is building instead of over its argument. */
module EvalFilter {
  import opened Pods
  import opened Filters
  import Seive

  /** Filter.Apply, as written: an empty input gives nil, and otherwise the
      loop ranges over `out`, which is still empty when the range is
      evaluated, so nothing is ever appended. Every input gives the empty
      list. */
  method Apply(f: Filter, pl: seq<Pod>) returns (out: seq<Pod>)
    ensures out == []
  {
    if |pl| <= 0 {
      return [];
    }
    out := [];
    out := Seive.AppendMatching(f, out, out);
  }
}
