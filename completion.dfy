/** Executors (`ThreadPoolExecutor`, `ProcessPoolExecutor`) and `as_completed`, reduced to
    what the core can observe of them: every submitted item finishes exactly once, in an
    order the caller does not choose. An order is a sequence of submission indices; the
    output of a loop over `as_completed` is the concatenation of the per-item outputs in
    that order. */
module Completion {
  import opened Common

  /** `order` lists each of the indices `0 .. n - 1` exactly once. */
  predicate IsPermutation(order: seq<nat>, n: nat)
  {
    multiset(order) == multiset(Range(n))
  }

  predicate InBounds(order: seq<nat>, n: nat)
  {
    forall k :: 0 <= k < |order| ==> order[k] < n
  }

  /** The per-item outputs of `items`, concatenated in the order `order` visits them. */
  function Gather<T, R>(items: seq<T>, order: seq<nat>, f: T -> seq<R>): seq<R>
    requires InBounds(order, |items|)
  {
    if order == [] then []
    else Gather(items, order[..|order| - 1], f) + f(items[order[|order| - 1]])
  }

  /** The per-item outputs in submission order. */
  function Concat<T, R>(items: seq<T>, f: T -> seq<R>): seq<R>
  {
    if items == [] then [] else Concat(items[..|items| - 1], f) + f(items[|items| - 1])
  }

  /** The progress values a counter incremented once per completion reports, starting
      after `base`: `base + 1, ..., base + n`. */
  function Ticks(base: nat, n: nat): (r: seq<nat>)
    ensures |r| == n
  {
    if n == 0 then [] else Ticks(base, n - 1) + [base + n]
  }

  /** The `k`-th report is `base + k + 1`: the counter rises by one per completion. */
  lemma {:induction false} TicksValues(base: nat, n: nat)
    ensures forall k :: 0 <= k < n ==> Ticks(base, n)[k] == base + k + 1
  {
    if n > 0 {
      TicksValues(base, n - 1);
    }
  }

  lemma TicksNext(base: nat, n: nat)
    ensures Ticks(base, n + 1) == Ticks(base, n) + [base + n + 1]
  {
  }

  lemma PermutationInBounds(order: seq<nat>, n: nat)
    requires IsPermutation(order, n)
    ensures InBounds(order, n) && |order| == n
  {
    forall k | 0 <= k < |order| ensures order[k] < n {
      assert order[k] in multiset(order);
      assert order[k] in Range(n);
    }
    assert |multiset(order)| == |multiset(Range(n))|;
  }

  lemma {:induction false} GatherAppend<T, R>(items: seq<T>, a: seq<nat>, b: seq<nat>, f: T -> seq<R>)
    requires InBounds(a, |items|) && InBounds(b, |items|)
    ensures InBounds(a + b, |items|)
    ensures Gather(items, a + b, f) == Gather(items, a, f) + Gather(items, b, f)
    decreases |b|
  {
    if b == [] {
      assert a + b == a;
    } else {
      var b' := b[..|b| - 1];
      assert (a + b)[..|a + b| - 1] == a + b';
      GatherAppend(items, a, b', f);
    }
  }

  lemma InBoundsSplit(o: seq<nat>, j: nat, n: nat)
    requires InBounds(o, n) && j < |o|
    ensures InBounds(o[..j], n) && InBounds([o[j]], n) && InBounds(o[j + 1..], n)
    ensures o == o[..j] + [o[j]] + o[j + 1..]
  {
    assert o == o[..j] + [o[j]] + o[j + 1..];
  }

  lemma GatherSingle<T, R>(items: seq<T>, x: nat, f: T -> seq<R>)
    requires x < |items|
    ensures InBounds([x], |items|) && Gather(items, [x], f) == f(items[x])
  {
    assert [x][..0] == [];
  }

  /** Taking one completion out of an order takes its output out of what is gathered. */
  lemma GatherRemove<T, R>(items: seq<T>, o: seq<nat>, j: nat, f: T -> seq<R>)
    requires InBounds(o, |items|) && j < |o|
    ensures InBounds(o[..j] + o[j + 1..], |items|)
    ensures multiset(Gather(items, o, f))
         == multiset(Gather(items, o[..j] + o[j + 1..], f)) + multiset(f(items[o[j]]))
  {
    var a, x, b := o[..j], o[j], o[j + 1..];
    InBoundsSplit(o, j, |items|);
    GatherSingle(items, x, f);
    GatherAppend(items, a, [x], f);
    GatherAppend(items, a + [x], b, f);
    GatherAppend(items, a, b, f);
    var ga, gx, gb := Gather(items, a, f), f(items[x]), Gather(items, b, f);
    assert Gather(items, o, f) == ga + gx + gb;
    assert Gather(items, a + b, f) == ga + gb;
    assert multiset(ga + gx + gb) == multiset(ga + gb) + multiset(gx);
  }

  /** Removing one occurrence of `x` from an order that holds one. */
  lemma RemoveOccurrence(o: seq<nat>, x: nat) returns (j: nat)
    requires x in multiset(o)
    ensures j < |o| && o[j] == x
    ensures multiset(o[..j] + o[j + 1..]) == multiset(o) - multiset{x}
  {
    j :| 0 <= j < |o| && o[j] == x;
    SplitAt(o, j);
  }

  /** What a loop over `as_completed` gathers depends only on which items completed, not on
      the order they completed in. */
  lemma {:induction false} GatherPermutation<T, R>(items: seq<T>, o1: seq<nat>, o2: seq<nat>, f: T -> seq<R>)
    requires InBounds(o1, |items|) && InBounds(o2, |items|)
    requires multiset(o1) == multiset(o2)
    ensures multiset(Gather(items, o1, f)) == multiset(Gather(items, o2, f))
    decreases |o1|
  {
    if o1 == [] {
      assert o2 == [] by {
        assert |multiset(o2)| == 0;
      }
    } else {
      var o1', x := o1[..|o1| - 1], o1[|o1| - 1];
      assert o1 == o1' + [x];
      assert multiset(o1') == multiset(o1) - multiset{x};
      var j := RemoveOccurrence(o2, x);
      GatherRemove(items, o2, j, f);
      GatherPermutation(items, o1', o2[..j] + o2[j + 1..], f);
    }
  }

  /** In submission order, gathering is concatenation. */
  lemma {:induction false} GatherRange<T, R>(items: seq<T>, n: nat, f: T -> seq<R>)
    requires n <= |items|
    ensures InBounds(Range(n), |items|)
    ensures Gather(items, Range(n), f) == Concat(items[..n], f)
  {
    if n > 0 {
      assert Range(n)[..n - 1] == Range(n - 1);
      assert items[..n][..n - 1] == items[..n - 1];
      GatherRange(items, n - 1, f);
    }
  }

  /** The output of a loop over `as_completed`, for any completion order, holds exactly the
      per-item outputs of the submitted items. */
  lemma GatherIsConcat<T, R>(items: seq<T>, order: seq<nat>, f: T -> seq<R>)
    requires IsPermutation(order, |items|)
    ensures InBounds(order, |items|)
    ensures multiset(Gather(items, order, f)) == multiset(Concat(items, f))
  {
    PermutationInBounds(order, |items|);
    GatherRange(items, |items|, f);
    assert items[..|items|] == items;
    GatherPermutation(items, order, Range(|items|), f);
  }

  /** Two tasks that agree on every item give the same outputs in any finishing order. */
  lemma {:induction false} GatherAgree<T, R>(items: seq<T>, order: seq<nat>, f: T -> seq<R>, g: T -> seq<R>)
    requires InBounds(order, |items|)
    requires forall i :: 0 <= i < |items| ==> f(items[i]) == g(items[i])
    ensures Gather(items, order, f) == Gather(items, order, g)
  {
    if order != [] {
      GatherAgree(items, order[..|order| - 1], f, g);
    }
  }

  /** Two tasks that agree on every item give the same outputs in submission order. */
  lemma {:induction false} ConcatAgree<T, R>(items: seq<T>, f: T -> seq<R>, g: T -> seq<R>)
    requires forall i :: 0 <= i < |items| ==> f(items[i]) == g(items[i])
    ensures Concat(items, f) == Concat(items, g)
  {
    if items != [] {
      ConcatAgree(items[..|items| - 1], f, g);
    }
  }

  lemma ConcatAppend<T, R>(a: seq<T>, b: seq<T>, f: T -> seq<R>)
    ensures Concat(a + b, f) == Concat(a, f) + Concat(b, f)
    decreases |b|
  {
    if b == [] {
      assert a + b == a;
    } else {
      assert (a + b)[..|a + b| - 1] == a + b[..|b| - 1];
      ConcatAppend(a, b[..|b| - 1], f);
    }
  }

  lemma RemoveFromPending(order: seq<nat>, pending: set<nat>, k: nat, done: set<nat>)
    requires k in pending
    requires multiset(order) + multiset(pending) == multiset(done)
    ensures multiset(order + [k]) + multiset(pending - {k}) == multiset(done)
  {
    assert pending == (pending - {k}) + {k};
    assert multiset(pending) == multiset(pending - {k}) + multiset{k};
  }

  /** Submits every item and handles them as they finish: `f` is what handling one
      finished item contributes to the output, `base` the value of the completion counter
      before the loop. Returns the output, the counter values reported after each
      completion, and the order the items finished in. */
  method AsCompleted<T, R>(items: seq<T>, f: T -> seq<R>, base: nat)
    returns (out: seq<R>, progress: seq<nat>, ghost order: seq<nat>)
    ensures IsPermutation(order, |items|) && InBounds(order, |items|)
    ensures out == Gather(items, order, f)
    ensures multiset(out) == multiset(Concat(items, f))
    ensures progress == Ticks(base, |items|)
  {
    var pending: set<nat> := RangeSet(|items|);
    out, progress, order := [], [], [];
    var processed := base;
    assert multiset(order) + multiset(pending) == multiset(RangeSet(|items|));
    while pending != {}
      invariant multiset(order) + multiset(pending) == multiset(RangeSet(|items|))
      invariant forall k :: k in pending ==> k < |items|
      invariant InBounds(order, |items|)
      invariant out == Gather(items, order, f)
      invariant processed == base + |order| && progress == Ticks(base, |order|)
      decreases |pending|
    {
      var k :| k in pending;
      RemoveFromPending(order, pending, k, RangeSet(|items|));
      out := out + f(items[k]);
      assert (order + [k])[..|order|] == order;
      order := order + [k];
      pending := pending - {k};
      processed := processed + 1;
      progress := progress + [processed];
    }
    RangeMultiset(|items|);
    assert multiset(pending) == multiset{};
    assert |order| == |items| by {
      assert |multiset(order)| == |multiset(Range(|items|))|;
    }
    GatherIsConcat(items, order, f);
  }
}
