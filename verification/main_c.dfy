/**
 * The C banker (main.c): the global `available` vector and the `maximum`,
 * `allocation` and `need` tables, gathered here into one object, with
 * `verifica_estado_seguro` (the safety check, which stops as soon as a pass
 * finishes nobody), `request_resources` and `release_resources` (both
 * returning 0 on success and -1 on refusal).  Each operation is modelled as
 * one atomic step (the source holds a mutex around it).
 */
module CBanker {
  import opened Vectors
  import opened Tables
  import opened Safety
  import opened SafetyCheck

  /** The status `request_resources` and `release_resources` return on success. */
  const OK := 0
  /** The status they return when they refuse and change nothing. */
  const REFUSED := -1

  class Bank {
    /** N (NUMBER_OF_CUSTOMERS, 3 in the source). */
    const numberOfCustomers: nat
    /** M (NUMBER_OF_RESOURCES, 3 in the source). */
    const numberOfResources: nat
    const available: array<int>
    const maximum: array2<int>
    const allocation: array2<int>
    const need: array2<int>
    /** The total of each resource class given on the command line. */
    ghost const total: seq<int>

    /** The arrays have their fixed sizes and are distinct objects. */
    ghost predicate Shaped()
    {
      available.Length == numberOfResources && |total| == numberOfResources &&
      maximum.Length0 == numberOfCustomers && maximum.Length1 == numberOfResources &&
      allocation.Length0 == numberOfCustomers && allocation.Length1 == numberOfResources &&
      need.Length0 == numberOfCustomers && need.Length1 == numberOfResources &&
      maximum != allocation && maximum != need && allocation != need
    }

    /** The current contents of the four arrays, as a value. */
    ghost function Snapshot(): (s: State)
      requires Shaped()
      reads available, maximum, allocation, need
      ensures WellShaped(s) && s.Customers() == numberOfCustomers && s.Resources() == numberOfResources
    {
      State(available[..], Rows(maximum), Rows(allocation), Rows(need))
    }

    /** The invariant every committed state keeps: the table invariants hold and the state is safe. */
    ghost predicate Valid()
      reads available, maximum, allocation, need
    {
      Shaped() && Consistent(Snapshot(), total) && Safe(Snapshot())
    }

    /**
     * The set-up `main` does before starting the customer threads:
     * `available` takes the command-line totals `resources`, each
     * `maximum[i][j]` takes the caller's `claims[i][j]` (the source draws it
     * at random from [0, available[j]]), `allocation` is zeroed and `need`
     * starts equal to `maximum`.
     */
    constructor (customers: nat, resources: seq<int>, claims: seq<seq<int>>)
      requires NonNegative(resources)
      requires |claims| == customers
      requires forall i :: 0 <= i < customers ==> |claims[i]| == |resources|
      requires forall i :: 0 <= i < customers ==> NonNegative(claims[i]) && AtMost(claims[i], resources)
      ensures Valid()
      ensures fresh(available) && fresh(maximum) && fresh(allocation) && fresh(need)
      ensures total == resources
      ensures Snapshot() == InitialState(resources, claims)
    {
      var m := |resources|;
      numberOfCustomers := customers;
      numberOfResources := m;
      available := new int[m];
      maximum := new int[customers, m];
      allocation := new int[customers, m];
      need := new int[customers, m];
      total := resources;
      new;
      for i := 0 to m
        invariant forall j :: 0 <= j < i ==> available[j] == resources[j]
      {
        available[i] := resources[i];
      }
      for i := 0 to customers
        invariant available[..] == resources
        invariant forall k, j :: 0 <= k < i && 0 <= j < m ==>
          maximum[k, j] == claims[k][j] && allocation[k, j] == 0 && need[k, j] == claims[k][j]
      {
        for j := 0 to m
          invariant available[..] == resources
          invariant forall k, l :: 0 <= k < i && 0 <= l < m ==>
            maximum[k, l] == claims[k][l] && allocation[k, l] == 0 && need[k, l] == claims[k][l]
          invariant forall l :: 0 <= l < j ==>
            maximum[i, l] == claims[i][l] && allocation[i, l] == 0 && need[i, l] == claims[i][l]
        {
          maximum[i, j] := claims[i][j];
          allocation[i, j] := 0;
          need[i, j] := maximum[i, j];
        }
      }
      var init := InitialState(resources, claims);
      RowsAre(maximum, init.maximum);
      RowsAre(allocation, init.allocation);
      RowsAre(need, init.need);
      InitialStateConsistent(resources, claims);
      InitialStateSafe(resources, claims);
    }

    /**
     * The safety check: `work` starts as a copy of `available` and every
     * `finish` flag as false; passes over the customers continue while
     * fewer than N have finished, and the check answers false as soon as a
     * pass finishes nobody.  With no negative allocation this answers
     * exactly whether a safe sequence exists.
     */
    method CheckSafeState() returns (safe: bool)
      requires Shaped() && NonNegativeAllocation(Snapshot())
      ensures safe == Safe(Snapshot())
    {
      ghost var s := Snapshot();
      var work := new int[numberOfResources];
      var finish := new bool[numberOfCustomers];
      for i := 0 to numberOfResources
        invariant forall j :: 0 <= j < i ==> work[j] == available[j]
      {
        work[i] := available[i];
      }
      assert work[..] == available[..];
      for i := 0 to numberOfCustomers
        invariant work[..] == s.available
        invariant forall k :: 0 <= k < i ==> !finish[k]
      {
        finish[i] := false;
      }
      ReductionStart(s, finish[..]);

      var count := 0;
      ghost var order: seq<int> := [];
      while count < numberOfCustomers
        invariant Reduction(s, order, work[..], finish[..])
        invariant count == |order| <= numberOfCustomers
        decreases numberOfCustomers - count
      {
        var found;
        found, count, order := FinishReadyCustomers(work, finish, count, s, order);
        if !found {
          return false;
        }
      }
      ReductionComplete(s, order, work[..], finish[..]);
      assert IsSafeSequence(s, order);
      return true;
    }

    /**
     * One pass of the safety check over the customers in index order: every
     * unfinished customer whose need fits in `work` is marked finished, its
     * allocation added into `work` and `count` incremented; `found` records
     * whether any was.  In a safe state with some customer unfinished, some
     * customer is found.
     */
    method FinishReadyCustomers(work: array<int>, finish: array<bool>, count: nat, ghost s: State, ghost order: seq<int>)
      returns (found: bool, count': nat, ghost order': seq<int>)
      requires Shaped() && s == Snapshot() && NonNegativeAllocation(s)
      requires work != available && work.Length == numberOfResources
      requires Reduction(s, order, work[..], finish[..]) && count == |order| <= numberOfCustomers
      modifies work, finish
      ensures Reduction(s, order', work[..], finish[..]) && count' == |order'| <= numberOfCustomers
      ensures order <= order'
      ensures found <==> |order| < |order'|
      ensures !found ==> order' == order
      ensures Safe(s) && |order| < numberOfCustomers ==> found
    {
      ghost var ready := -1;
      if Safe(s) && |order| < numberOfCustomers {
        var safeOrder :| IsSafeSequence(s, safeOrder);
        ReadyCustomerExists(s, safeOrder, order);
        ready :| 0 <= ready < numberOfCustomers && ready !in order && AtMost(s.need[ready], Work(s, order));
      }
      found := false;
      count' := count;
      order' := order;
      for i := 0 to numberOfCustomers
        invariant Reduction(s, order', work[..], finish[..]) && count' == |order'| <= numberOfCustomers
        invariant order <= order'
        invariant found <==> |order| < |order'|
        invariant !found ==> order' == order
        invariant 0 <= ready < i ==> found
      {
        ghost var before := order';
        var finished;
        finished, order' := FinishIfReady(need, allocation, work, finish, i, s, order');
        assert i == ready && !found ==> finished;
        if finished {
          found := true;
          count' := count' + 1;
        }
      }
    }

    /**
     * A request is refused (-1), with nothing changed, when it exceeds the
     * customer's need (checked first, over all resource classes) or what is
     * available; otherwise it is applied, and kept (0) if the resulting state
     * is safe or rolled back exactly (-1) if not.
     */
    method RequestResources(customer: nat, request: seq<int>) returns (status: int)
      requires Valid()
      requires customer < numberOfCustomers && |request| == numberOfResources && NonNegative(request)
      modifies available, allocation, need
      ensures Valid()
      ensures status == OK || status == REFUSED
      ensures status == OK <==> Grantable(old(Snapshot()), customer, request)
      ensures Snapshot() == if status == OK then Grant(old(Snapshot()), customer, request) else old(Snapshot())
    {
      ghost var s := Snapshot();
      for i := 0 to numberOfResources
        invariant forall j :: 0 <= j < i ==> request[j] <= need[customer, j]
      {
        if request[i] > need[customer, i] {
          return REFUSED;
        }
      }
      for i := 0 to numberOfResources
        invariant forall j :: 0 <= j < i ==> request[j] <= available[j]
      {
        if request[i] > available[i] {
          return REFUSED;
        }
      }
      assert AtMost(request, s.need[customer]) && AtMost(request, s.available);

      // Tentative allocation.
      Take(available, allocation, need, customer, request);
      assert Snapshot() == Grant(s, customer, request);
      GrantKeepsConsistent(s, total, customer, request);

      var safe := CheckSafeState();
      if !safe {
        // Roll the tentative allocation back.
        Give(available, allocation, need, customer, request);
        ReleaseUndoesGrant(s, customer, request);
        assert Snapshot() == s;
        return REFUSED;
      }
      return OK;
    }

    /**
     * A release is refused (-1), with nothing changed, when it exceeds what
     * the customer holds of some resource class; otherwise it is applied
     * (0).  Either way the invariants and safety are kept.
     */
    method ReleaseResources(customer: nat, release: seq<int>) returns (status: int)
      requires Valid()
      requires customer < numberOfCustomers && |release| == numberOfResources && NonNegative(release)
      modifies available, allocation, need
      ensures Valid()
      ensures status == (if AtMost(release, old(Snapshot()).allocation[customer]) then OK else REFUSED)
      ensures Snapshot() == if status == OK then Release(old(Snapshot()), customer, release) else old(Snapshot())
    {
      ghost var s := Snapshot();
      for i := 0 to numberOfResources
        invariant forall j :: 0 <= j < i ==> release[j] <= allocation[customer, j]
      {
        if release[i] > allocation[customer, i] {
          return REFUSED;
        }
      }
      assert AtMost(release, s.allocation[customer]);

      Give(available, allocation, need, customer, release);
      assert Snapshot() == Release(s, customer, release);
      ReleaseConsistentIff(s, total, customer, release);
      ReleasePreservesSafety(s, customer, release);
      return OK;
    }
  }
}
