/**
 * The banker's notion of a safe state, as a specification: a state is safe
 * when some order of all customers lets each one, in turn, obtain its
 * remaining need from the work vector (what is available plus what the
 * customers before it have returned) and then return its allocation.
 *
 * The lemmas here are what the greedy safety check needs: marking a ready
 * customer finished extends a valid finishing order, and in a safe state
 * with non-negative allocations some unfinished customer is always ready.
 */
module Safety {
  import opened Vectors
  import opened Tables

  /** No customer occurs twice. */
  predicate Distinct(p: seq<int>)
  {
    forall a, b :: 0 <= a < b < |p| ==> p[a] != p[b]
  }

  /** Every entry is a customer index below `n`. */
  predicate InRange(p: seq<int>, n: nat)
  {
    forall k :: 0 <= k < |p| ==> 0 <= p[k] < n
  }

  function Elems(p: seq<int>): set<int>
  {
    set x | x in p
  }

  /** The customers 0, 1, ..., n - 1 in index order. */
  function Range(n: nat): (p: seq<int>)
    ensures |p| == n && forall k :: 0 <= k < n ==> p[k] == k
  {
    seq(n, k => k)
  }

  /**
   * The work vector once the customers in `order` have finished, in that
   * order: `available`, then each finished customer's allocation added in.
   */
  function Work(s: State, order: seq<int>): (w: seq<int>)
    requires WellShaped(s) && InRange(order, s.Customers())
    ensures |w| == s.Resources()
    decreases |order|
  {
    if order == [] then s.available
    else Add(Work(s, order[..|order| - 1]), s.allocation[order[|order| - 1]])
  }

  /** Each customer in `order` can have its need met by the work left by those before it. */
  predicate CanFinishInOrder(s: State, order: seq<int>)
    requires WellShaped(s) && InRange(order, s.Customers())
  {
    forall k :: 0 <= k < |order| ==> AtMost(s.need[order[k]], Work(s, order[..k]))
  }

  /** `order` is a safe sequence: every customer exactly once, each able to finish in turn. */
  predicate IsSafeSequence(s: State, order: seq<int>)
  {
    WellShaped(s) && |order| == s.Customers() && Distinct(order) &&
    InRange(order, s.Customers()) && CanFinishInOrder(s, order)
  }

  /** A state is safe when some safe sequence exists. */
  ghost predicate Safe(s: State)
  {
    exists order :: IsSafeSequence(s, order)
  }

  /** No customer holds a negative amount. */
  predicate NonNegativeAllocation(s: State)
  {
    forall i, j :: 0 <= i < |s.allocation| && 0 <= j < |s.allocation[i]| ==> 0 <= s.allocation[i][j]
  }

  /** Request `r` of customer `c` is granted: it is within the need and the available units, and the state after it is safe. */
  ghost predicate Grantable(s: State, c: nat, r: seq<int>)
    requires WellShaped(s) && c < s.Customers() && |r| == s.Resources()
  {
    AtMost(r, s.need[c]) && AtMost(r, s.available) && Safe(Grant(s, c, r))
  }

  /**
   * The bookkeeping of the safety check after it has marked the customers in
   * `order` finished, in that order: `finish` flags exactly those customers
   * and `work` is the work vector they leave.
   */
  predicate Reduction(s: State, order: seq<int>, work: seq<int>, finish: seq<bool>)
  {
    WellShaped(s) && Distinct(order) && InRange(order, s.Customers()) &&
    CanFinishInOrder(s, order) && work == Work(s, order) &&
    |finish| == s.Customers() &&
    forall i :: 0 <= i < s.Customers() ==> (finish[i] <==> i in order)
  }

  // ---------------------------------------------------------------------------
  // Counting customers in an order

  lemma {:induction false} DistinctElems(p: seq<int>)
    requires Distinct(p)
    ensures |Elems(p)| == |p|
  {
    if p != [] {
      var q := p[..|p| - 1];
      DistinctElems(q);
      assert Elems(p) == Elems(q) + {p[|p| - 1]};
      assert p[|p| - 1] !in Elems(q);
    }
  }

  lemma {:induction false} ElemsBound(p: seq<int>)
    ensures |Elems(p)| <= |p|
  {
    if p != [] {
      var q := p[..|p| - 1];
      ElemsBound(q);
      assert Elems(p) == Elems(q) + {p[|p| - 1]};
    }
  }

  lemma SubsetCard(a: set<int>, b: set<int>)
    requires a <= b
    ensures |a| <= |b|
  {
    assert b == a + (b - a);
  }

  /** Pigeonhole: a repetition-free order whose customers all occur in `q` is no longer than `q`. */
  lemma DistinctSubsetLength(p: seq<int>, q: seq<int>)
    requires Distinct(p)
    requires forall x :: x in p ==> x in q
    ensures |p| <= |q|
  {
    DistinctElems(p);
    ElemsBound(q);
    SubsetCard(Elems(p), Elems(q));
  }

  /**
   * A repetition-free order of customers below `n` has at most `n` entries,
   * and exactly `n` precisely when every customer occurs in it.
   */
  lemma OrderLength(order: seq<int>, n: nat)
    requires Distinct(order) && InRange(order, n)
    ensures |order| <= n
    ensures |order| == n <==> forall i :: 0 <= i < n ==> i in order
  {
    forall x | x in order
      ensures x in Range(n)
    {
      assert Range(n)[x] == x;
    }
    DistinctSubsetLength(order, Range(n));
    if forall i :: 0 <= i < n ==> i in order {
      DistinctSubsetLength(Range(n), order);
    } else {
      var i :| 0 <= i < n && i !in order;
      var p := order + [i];
      assert forall a :: 0 <= a < |order| ==> p[a] == order[a];
      forall x | x in p
        ensures x in Range(n)
      {
        assert Range(n)[x] == x;
      }
      DistinctSubsetLength(p, Range(n));
    }
  }

  // ---------------------------------------------------------------------------
  // The work vector depends only on which customers have finished

  /** The sum of the allocations of the customers below `n` that belong to `finished`. */
  function Released(s: State, finished: set<int>, n: nat): (r: seq<int>)
    requires WellShaped(s) && n <= s.Customers()
    ensures |r| == s.Resources()
  {
    if n == 0 then Zeros(s.Resources())
    else if n - 1 in finished then Add(Released(s, finished, n - 1), s.allocation[n - 1])
    else Released(s, finished, n - 1)
  }

  lemma {:induction false} ReleasedInsert(s: State, finished: set<int>, x: int, n: nat)
    requires WellShaped(s) && n <= s.Customers() && 0 <= x && x !in finished
    ensures Released(s, finished + {x}, n) ==
            if x < n then Add(Released(s, finished, n), s.allocation[x]) else Released(s, finished, n)
  {
    if n > 0 {
      ReleasedInsert(s, finished, x, n - 1);
    }
  }

  lemma {:induction false} ReleasedMonotone(s: State, f: set<int>, g: set<int>, n: nat)
    requires WellShaped(s) && n <= s.Customers() && NonNegativeAllocation(s) && f <= g
    ensures AtMost(Released(s, f, n), Released(s, g, n))
  {
    if n > 0 {
      ReleasedMonotone(s, f, g, n - 1);
    }
  }

  lemma {:induction false} WorkIsReleased(s: State, order: seq<int>)
    requires WellShaped(s) && Distinct(order) && InRange(order, s.Customers())
    ensures Work(s, order) == Add(s.available, Released(s, Elems(order), s.Customers()))
  {
    if order == [] {
      assert Elems(order) == {};
      ReleasedOfNone(s, s.Customers());
    } else {
      var q := order[..|order| - 1];
      var x := order[|order| - 1];
      WorkIsReleased(s, q);
      assert Elems(order) == Elems(q) + {x};
      assert x !in Elems(q);
      ReleasedInsert(s, Elems(q), x, s.Customers());
    }
  }

  lemma {:induction false} ReleasedOfNone(s: State, n: nat)
    requires WellShaped(s) && n <= s.Customers()
    ensures Released(s, {}, n) == Zeros(s.Resources())
  {
    if n > 0 {
      ReleasedOfNone(s, n - 1);
    }
  }

  /**
   * With no negative allocation, the work left by a set of finished
   * customers only grows when more customers have finished, whatever the
   * order they finished in.
   */
  lemma WorkMonotone(s: State, p: seq<int>, q: seq<int>)
    requires WellShaped(s) && NonNegativeAllocation(s)
    requires Distinct(p) && InRange(p, s.Customers())
    requires Distinct(q) && InRange(q, s.Customers())
    requires forall x :: x in p ==> x in q
    ensures AtMost(Work(s, p), Work(s, q))
  {
    WorkIsReleased(s, p);
    WorkIsReleased(s, q);
    ReleasedMonotone(s, Elems(p), Elems(q), s.Customers());
  }

  // ---------------------------------------------------------------------------
  // The steps of the safety check

  /** The check starts with `work = available` and no customer finished. */
  lemma ReductionStart(s: State, finish: seq<bool>)
    requires WellShaped(s) && |finish| == s.Customers()
    requires forall i :: 0 <= i < |finish| ==> !finish[i]
    ensures Reduction(s, [], s.available, finish)
  {
  }

  /** Appending a customer whose need fits the current work keeps a valid finishing order. */
  lemma ExtendOrder(s: State, order: seq<int>, i: int)
    requires WellShaped(s) && Distinct(order) && InRange(order, s.Customers())
    requires CanFinishInOrder(s, order)
    requires 0 <= i < s.Customers() && i !in order && AtMost(s.need[i], Work(s, order))
    ensures Distinct(order + [i]) && InRange(order + [i], s.Customers())
    ensures CanFinishInOrder(s, order + [i])
    ensures Work(s, order + [i]) == Add(Work(s, order), s.allocation[i])
  {
    var p := order + [i];
    assert p[..|order|] == order;
    forall k | 0 <= k < |p|
      ensures AtMost(s.need[p[k]], Work(s, p[..k]))
    {
      if k < |order| {
        assert p[..k] == order[..k];
      }
    }
  }

  /**
   * Marking a ready, unfinished customer finished and adding its allocation
   * into `work` extends the finishing order by that customer.
   */
  lemma MarkFinished(s: State, order: seq<int>, work: seq<int>, finish: seq<bool>, i: nat)
    requires Reduction(s, order, work, finish)
    requires i < s.Customers() && !finish[i] && AtMost(s.need[i], work)
    ensures Reduction(s, order + [i], Add(work, s.allocation[i]), finish[i := true])
    ensures |order + [i]| <= s.Customers()
  {
    ExtendOrder(s, order, i);
    OrderLength(order + [i], s.Customers());
  }

  /**
   * The step that makes the greedy check complete: in a safe state with no
   * negative allocation, as long as not every customer has finished, some
   * unfinished customer's need fits within the current work vector.  (The
   * first customer of a safe sequence that has not finished yet is one.)
   */
  lemma ReadyCustomerExists(s: State, safe: seq<int>, order: seq<int>)
    requires IsSafeSequence(s, safe) && NonNegativeAllocation(s)
    requires Distinct(order) && InRange(order, s.Customers()) && |order| < s.Customers()
    ensures exists c :: 0 <= c < s.Customers() && c !in order && AtMost(s.need[c], Work(s, order))
  {
    var k := 0;
    while k < |safe| && safe[k] in order
      invariant 0 <= k <= |safe|
      invariant forall l :: 0 <= l < k ==> safe[l] in order
    {
      k := k + 1;
    }
    if k == |safe| {
      DistinctSubsetLength(safe, order);
      assert false;
    }
    var before := safe[..k];
    assert forall x :: x in before ==> x in order;
    WorkMonotone(s, before, order);
    AtMostTransitive(s.need[safe[k]], Work(s, before), Work(s, order));
  }

  /**
   * Every customer is flagged finished exactly when the order in which the
   * check marked them is a safe sequence.
   */
  lemma ReductionComplete(s: State, order: seq<int>, work: seq<int>, finish: seq<bool>)
    requires Reduction(s, order, work, finish)
    ensures (forall i :: 0 <= i < |finish| ==> finish[i]) <==> IsSafeSequence(s, order)
  {
    OrderLength(order, s.Customers());
  }

  /**
   * After enough passes (in a safe state, at least N customers finished), the
   * finish flags decide safety: all are set exactly when a safe sequence exists.
   */
  lemma ReductionDecides(s: State, order: seq<int>, work: seq<int>, finish: seq<bool>)
    requires Reduction(s, order, work, finish)
    requires Safe(s) ==> s.Customers() <= |order|
    ensures (forall i :: 0 <= i < |finish| ==> finish[i]) <==> Safe(s)
  {
    ReductionComplete(s, order, work, finish);
    if Safe(s) {
      OrderLength(order, s.Customers());
    }
  }

  // ---------------------------------------------------------------------------
  // Safety of the protocol's other states

  lemma {:induction false} WorkAfterRelease(s: State, c: nat, r: seq<int>, p: seq<int>)
    requires WellShaped(s) && c < s.Customers() && |r| == s.Resources()
    requires Distinct(p) && InRange(p, s.Customers())
    ensures Work(Release(s, c, r), p) == if c in p then Work(s, p) else Add(Work(s, p), r)
  {
    if p != [] {
      var q := p[..|p| - 1];
      var x := p[|p| - 1];
      WorkAfterRelease(s, c, r, q);
      assert c in p <==> c in q || c == x;
      if x == c {
        assert c !in q;
      }
    }
  }

  /**
   * Releasing units never makes a safe state unsafe: the same safe sequence
   * still works, since every customer before the releasing one sees more
   * work and every customer after it sees the same.
   */
  lemma ReleasePreservesSafety(s: State, c: nat, r: seq<int>)
    requires WellShaped(s) && c < s.Customers() && |r| == s.Resources() && NonNegative(r)
    requires Safe(s)
    ensures Safe(Release(s, c, r))
  {
    var order :| IsSafeSequence(s, order);
    var u := Release(s, c, r);
    forall k | 0 <= k < |order|
      ensures AtMost(u.need[order[k]], Work(u, order[..k]))
    {
      var before := order[..k];
      WorkAfterRelease(s, c, r, before);
      assert AtMost(s.need[order[k]], Work(s, before));
      if order[k] == c {
        assert c !in before;
      }
    }
    assert IsSafeSequence(u, order);
  }

  lemma {:induction false} WorkWithNothingAllocated(s: State, p: seq<int>)
    requires WellShaped(s) && InRange(p, s.Customers())
    requires forall i, j :: 0 <= i < s.Customers() && 0 <= j < s.Resources() ==> s.allocation[i][j] == 0
    ensures Work(s, p) == s.available
  {
    if p != [] {
      WorkWithNothingAllocated(s, p[..|p| - 1]);
    }
  }

  /**
   * The initial state is safe: with nothing allocated, every claim fits
   * within the totals, so the customers can finish in index order.
   */
  lemma InitialStateSafe(totals: seq<int>, claims: seq<seq<int>>)
    requires forall i :: 0 <= i < |claims| ==> |claims[i]| == |totals|
    requires forall i :: 0 <= i < |claims| ==> AtMost(claims[i], totals)
    ensures Safe(InitialState(totals, claims))
  {
    var s := InitialState(totals, claims);
    var order := Range(|claims|);
    forall k | 0 <= k < |order|
      ensures AtMost(s.need[order[k]], Work(s, order[..k]))
    {
      WorkWithNothingAllocated(s, order[..k]);
    }
    assert IsSafeSequence(s, order);
  }
}
