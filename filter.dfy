/** The predicate algebra over pods: atomic filters on namespace, name prefix
    and phase, and the Not / Or / And combinators; and the one operation every
    filtering stage performs, keeping the pods a filter accepts. */
module Filters {
  import opened Pods

  /** A Filter is any total predicate on pods, as in Go's `func(v1.Pod) bool`. */
  type Filter = Pod -> bool

  /** Namespace equality. */
  function NameSpaceFilter(namespace: string): (f: Filter)
    ensures forall p :: f(p) <==> p.namespace == namespace
  {
    (p: Pod) => p.namespace == namespace
  }

  /** Go's strings.HasPrefix, written as Go writes it: the string is long
      enough and its first len(prefix) characters are the prefix. */
  function HasPrefix(s: string, prefix: string): (r: bool)
    ensures r <==> prefix <= s
  {
    |prefix| <= |s| && s[..|prefix|] == prefix
  }

  /** Name-prefix match. */
  function NamePrefixFilter(prefix: string): (f: Filter)
    ensures forall p :: f(p) <==> prefix <= p.name
  {
    (p: Pod) => HasPrefix(p.name, prefix)
  }

  /** Phase equality. */
  function StatusFilter(status: Phase): (f: Filter)
    ensures forall p :: f(p) <==> p.phase == status
  {
    (p: Pod) => p.phase == status
  }

  /** Not, as written: its documentation says it inverts the filter, but the
      filter it returns gives the same verdict as its argument. */
  function Not(filter: Filter): (f: Filter)
    ensures forall p :: f(p) == filter(p)
  {
    p => filter(p)
  }

  /** What Not is documented to do: logical negation. */
  function Negate(filter: Filter): (f: Filter)
    ensures forall p :: f(p) == !filter(p)
  {
    p => !filter(p)
  }

  /** Not never agrees with negation: on every pod its verdict is the opposite
      of the one its documentation promises. */
  lemma NotNeverNegates(filter: Filter, p: Pod)
    ensures Not(filter)(p) != Negate(filter)(p)
  {
  }

  /** Or's loop: the filters are tried left to right and the first one that
      passes ends the loop with true. */
  function AnyPasses(filters: seq<Filter>, p: Pod): (r: bool)
    ensures r <==> exists i :: 0 <= i < |filters| && filters[i](p)
  {
    if filters == [] then false
    else if filters[0](p) then true
    else
      var r := AnyPasses(filters[1..], p);
      assert forall i :: 1 <= i < |filters| ==> filters[i] == filters[1..][i - 1];
      r
  }

  /** And's loop: the filters are tried left to right and the first one that
      fails ends the loop with false. */
  function AllPass(filters: seq<Filter>, p: Pod): (r: bool)
    ensures r <==> forall i :: 0 <= i < |filters| ==> filters[i](p)
  {
    if filters == [] then true
    else if !filters[0](p) then false
    else
      var r := AllPass(filters[1..], p);
      assert forall i :: 1 <= i < |filters| ==> filters[i] == filters[1..][i - 1];
      r
  }

  /** Or passes a pod exactly when some grouped filter does; the empty Or
      passes nothing. */
  function Or(filters: seq<Filter>): (f: Filter)
    ensures forall p :: f(p) <==> exists i :: 0 <= i < |filters| && filters[i](p)
    ensures filters == [] ==> forall p :: !f(p)
  {
    p => AnyPasses(filters, p)
  }

  /** And passes a pod exactly when every grouped filter does; the empty And
      passes everything. */
  function And(filters: seq<Filter>): (f: Filter)
    ensures forall p :: f(p) <==> forall i :: 0 <= i < |filters| ==> filters[i](p)
    ensures filters == [] ==> forall p :: f(p)
  {
    p => AllPass(filters, p)
  }

  /** The filter both built-in policies build from a Criteria: a name with the
      criteria's name as prefix, the criteria's namespace, and phase Running. */
  function TargetFilter(name: string, namespace: string): (f: Filter)
    ensures forall p :: f(p) <==> name <= p.name && p.namespace == namespace && p.phase == Running
  {
    var fs := [NamePrefixFilter(name), NameSpaceFilter(namespace), StatusFilter(Running)];
    var f := And(fs);
    assert forall p :: f(p) <==> fs[0](p) && fs[1](p) && fs[2](p);
    f
  }

  /** The empty prefix matches every pod. */
  lemma EmptyPrefixMatchesAll(p: Pod)
    ensures NamePrefixFilter("")(p)
  {
  }

  /** The pods of ps that f accepts, in their original order: the `out`
      slice that every filtering loop of the engine appends to. */
  function KeepMatching(f: Filter, ps: seq<Pod>): (r: seq<Pod>)
    ensures |r| <= |ps|
    ensures forall i :: 0 <= i < |r| ==> f(r[i])
  {
    if ps == [] then []
    else
      var init, last := ps[..|ps| - 1], ps[|ps| - 1];
      assert ps == init + [last];
      KeepMatching(f, init) + (if f(last) then [last] else [])
  }

  /** A single pod is kept exactly when f accepts it. */
  lemma KeepMatchingSingleton(f: Filter, x: Pod)
    ensures KeepMatching(f, [x]) == if f(x) then [x] else []
  {
    assert [x][..0] == [];
  }

  /** A filter that accepts every pod of s keeps all of s. */
  lemma {:induction false} KeepMatchingAll(f: Filter, s: seq<Pod>)
    requires forall i :: 0 <= i < |s| ==> f(s[i])
    ensures KeepMatching(f, s) == s
  {
    if s != [] {
      KeepMatchingAll(f, s[..|s| - 1]);
    }
  }

  /** A filter that accepts no pod of s keeps nothing. */
  lemma {:induction false} KeepMatchingNone(f: Filter, s: seq<Pod>)
    requires forall i :: 0 <= i < |s| ==> !f(s[i])
    ensures KeepMatching(f, s) == []
  {
    if s != [] {
      KeepMatchingNone(f, s[..|s| - 1]);
    }
  }

  /** Filtering distributes over concatenation, so relative order is kept. */
  lemma {:induction false} KeepMatchingAppend(f: Filter, a: seq<Pod>, b: seq<Pod>)
    ensures KeepMatching(f, a + b) == KeepMatching(f, a) + KeepMatching(f, b)
    decreases |b|
  {
    if b == [] {
      assert a + b == a;
    } else {
      var init, last := b[..|b| - 1], b[|b| - 1];
      assert (a + b)[..|a + b| - 1] == a + init;
      KeepMatchingAppend(f, a, init);
    }
  }

  /** Each pod occurs in the result exactly as often as in the input when f
      accepts it, and not at all otherwise. */
  lemma {:induction false} KeepMatchingCount(f: Filter, ps: seq<Pod>, p: Pod)
    ensures multiset(KeepMatching(f, ps))[p] == if f(p) then multiset(ps)[p] else 0
  {
    if ps != [] {
      var init, last := ps[..|ps| - 1], ps[|ps| - 1];
      assert ps == init + [last];
      KeepMatchingCount(f, init, p);
    }
  }

  /** Filtering keeps no pod more often than it occurs. */
  lemma KeepMatchingSubMultiset(f: Filter, ps: seq<Pod>)
    ensures multiset(KeepMatching(f, ps)) <= multiset(ps)
  {
    forall p
      ensures multiset(KeepMatching(f, ps))[p] <= multiset(ps)[p]
    {
      KeepMatchingCount(f, ps, p);
    }
  }

  /** A pod is kept exactly when it occurs in the input and f accepts it. */
  lemma KeepMatchingMember(f: Filter, ps: seq<Pod>, p: Pod)
    ensures p in KeepMatching(f, ps) <==> p in ps && f(p)
  {
    KeepMatchingCount(f, ps, p);
    assert p in KeepMatching(f, ps) <==> p in multiset(KeepMatching(f, ps));
  }

  /** Filtering two permutations of each other gives permutations of each
      other. */
  lemma KeepMatchingPermutation(f: Filter, a: seq<Pod>, b: seq<Pod>)
    requires multiset(a) == multiset(b)
    ensures multiset(KeepMatching(f, a)) == multiset(KeepMatching(f, b))
  {
    forall p ensures multiset(KeepMatching(f, a))[p] == multiset(KeepMatching(f, b))[p] {
      KeepMatchingCount(f, a, p);
      KeepMatchingCount(f, b, p);
    }
  }

  /** Filtering a sorted list leaves it sorted. */
  lemma {:induction false} KeepMatchingSorted(f: Filter, ps: seq<Pod>)
    requires Sorted(ps)
    ensures Sorted(KeepMatching(f, ps))
  {
    if ps != [] {
      var init, last := ps[..|ps| - 1], ps[|ps| - 1];
      KeepMatchingSorted(f, init);
      var k := KeepMatching(f, init);
      forall q | q in k
        ensures q.created <= last.created
      {
        KeepMatchingMember(f, init, q);
      }
    }
  }
}
