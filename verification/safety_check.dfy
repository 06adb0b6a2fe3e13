/**
 * The step both safety checks take for one customer during a pass: an
 * unfinished customer whose need fits within `work` is marked finished and
 * its allocation added into `work`.
 */
module SafetyCheck {
  import opened Vectors
  import opened Tables
  import opened Safety

  /**
   * Visits customer `i`: `finished` tells whether it was unfinished and its
   * need fitted within `work`, in which case it now comes last in the
   * finishing order.  Nothing changes otherwise.
   */
  method FinishIfReady(need: array2<int>, allocation: array2<int>, work: array<int>, finish: array<bool>,
                       i: nat, ghost s: State, ghost order: seq<int>)
    returns (finished: bool, ghost order': seq<int>)
    requires WellShaped(s) && Rows(need) == s.need && Rows(allocation) == s.allocation
    requires need.Length1 == s.Resources() && allocation.Length1 == s.Resources()
    requires work.Length == s.Resources() && i < s.Customers()
    requires Reduction(s, order, work[..], finish[..])
    modifies work, finish
    ensures finished == (i !in order && AtMost(s.need[i], Work(s, order)))
    ensures order' == if finished then order + [i] else order
    ensures Reduction(s, order', work[..], finish[..]) && |order'| <= s.Customers()
  {
    OrderLength(order, s.Customers());
    finished := false;
    order' := order;
    if !finish[i] {
      var canProceed := FitsWithin(need, i, work);
      if canProceed {
        ghost var w0, f0 := work[..], finish[..];
        MarkFinished(s, order, w0, f0, i);
        AddRowInto(work, allocation, i);
        finish[i] := true;
        finished := true;
        order' := order + [i];
        assert work[..] == Add(w0, s.allocation[i]);
        assert finish[..] == f0[i := true];
      }
    }
  }
}
