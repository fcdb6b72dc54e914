/** Pods as the strategy engine sees them, and the integer arithmetic of Go's
    time.Time and time.Duration that the engine relies on.

    Times are nanoseconds counted from Go's zero time.Time (year 1), so the
    zero value of every timer field is ZeroTime and a clock reading `now` is a
    nat: `now < ZeroTime` never holds. */
module Pods {

  /** The Kubernetes pod phases (v1.PodPhase). */
  datatype Phase = Pending | Running | Succeeded | Failed | Unknown

  /** A pod: its identity (name, namespace), phase and creation timestamp. */
  datatype Pod = Pod(name: string, namespace: string, phase: Phase, created: int)

  /** Go's zero time.Time. */
  const ZeroTime: int := 0

  const MinInt64: int := -0x8000_0000_0000_0000
  const MaxInt64: int := 0x7fff_ffff_ffff_ffff
  const TwoTo64: int := 0x1_0000_0000_0000_0000

  /** time.Second, in nanoseconds. */
  const Second: int := 1_000_000_000

  /** Two's-complement wrap-around of an integer into int64. */
  function Wrap64(x: int): (r: int)
    ensures MinInt64 <= r <= MaxInt64
    ensures MinInt64 <= x <= MaxInt64 ==> r == x
    ensures (x - r) % TwoTo64 == 0
  {
    (x - MinInt64) % TwoTo64 + MinInt64
  }

  /** time.Duration(n) * time.Second: an int64 multiplication, which wraps. */
  function Seconds(n: int): (d: int)
    ensures MinInt64 <= d <= MaxInt64
    ensures MinInt64 <= n * Second <= MaxInt64 ==> d == n * Second
    ensures (d - n * Second) % TwoTo64 == 0
  {
    var ns := n * Second;
    Wrap64(ns)
  }

  /** Go's integer division of a Duration by a positive count: it truncates
      toward zero, where Dafny's `/` is Euclidean. */
  function Quot(a: int, b: int): (q: int)
    requires b > 0
    ensures 0 <= a ==> 0 <= q
    ensures a <= 0 ==> q <= 0
    ensures 0 <= a ==> q * b <= a < q * b + b
    ensures a < 0 ==> q * b - b < a <= q * b
  {
    if a >= 0 then a / b else -((-a) / b)
  }

  /** now.Add(-d): Go negates the Duration in int64, where the negation of
      the most negative Duration wraps back to itself. So the threshold is
      now - d for every other Duration, and now + MinInt64 for that one. */
  function AgeThreshold(now: int, d: int): (t: int)
    ensures MinInt64 < d <= MaxInt64 ==> t == now - d
    ensures d == MinInt64 ==> t == now + MinInt64
  {
    now + Wrap64(-d)
  }

  /** A MaxAge of 2^54 seconds overflows time.Duration to its most negative
      value, whose negation wraps: the threshold lies 2^63 ns before now
      instead of after it. */
  lemma HugeMaxAgeThreshold(now: int)
    ensures Seconds(0x40_0000_0000_0000) == MinInt64
    ensures AgeThreshold(now, Seconds(0x40_0000_0000_0000)) == now + MinInt64
  {
  }

  /** Creation timestamps never decrease along s. */
  ghost predicate Sorted(s: seq<Pod>) {
    forall i, j :: 0 <= i < j < |s| ==> s[i].created <= s[j].created
  }

  /** The creation timestamps of s, in order. */
  function Times(s: seq<Pod>): (t: seq<int>)
    ensures |t| == |s|
    ensures forall i :: 0 <= i < |s| ==> t[i] == s[i].created
  {
    seq(|s|, i requires 0 <= i < |s| => s[i].created)
  }

  function Min(a: int, b: int): int {
    if a <= b then a else b
  }
}
