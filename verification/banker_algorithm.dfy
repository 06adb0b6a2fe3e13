/**
 * The Java banker (BankerAlgorithm.java): one object owning the
 * `available` vector and the `maximum`, `allocation` and `need` tables,
 * with `request_resources`, `release_resources` and the private
 * `isSafeState`.  Each operation is modelled as one atomic step (the
 * source holds a lock around it).
 */
module JavaBanker {
  import opened Vectors
  import opened Tables
  import opened Safety
  import opened SafetyCheck

  class BankerAlgorithm {
    /** N (NUMBER_OF_CUSTOMERS, 5 in the source). */
    const numberOfCustomers: nat
    /** M (NUMBER_OF_RESOURCES, 3 in the source). */
    const numberOfResources: nat
    const available: array<int>
    const maximum: array2<int>
    const allocation: array2<int>
    const need: array2<int>
    /** The total of each resource class handed to the constructor. */
    ghost const total: seq<int>

    /** The arrays have their fixed sizes and are distinct objects. */
    ghost predicate Shaped()
    {
      available.Length == numberOfResources && |total| == numberOfResources &&
      maximum.Length0 == numberOfCustomers && maximum.Length1 == numberOfResources &&
      allocation.Length0 == numberOfCustomers && allocation.Length1 == numberOfResources &&
      need.Length0 == numberOfCustomers && need.Length1 == numberOfResources &&
      maximum != allocation && maximum != need && allocation != need
    }

    /** The current contents of the four arrays, as a value. */
    ghost function Snapshot(): (s: State)
      requires Shaped()
      reads available, maximum, allocation, need
      ensures WellShaped(s) && s.Customers() == numberOfCustomers && s.Resources() == numberOfResources
    {
      State(available[..], Rows(maximum), Rows(allocation), Rows(need))
    }

    /** The object invariant: the table invariants hold and the state is safe. */
    ghost predicate Valid()
      reads available, maximum, allocation, need
    {
      Shaped() && Consistent(Snapshot(), total) && Safe(Snapshot())
    }

    /**
     * `available` is a copy of `resources`; `maximum` is filled with the
     * caller's `claims` (the source draws each one at random from
     * [0, resources[j]]), `need` starts equal to it and `allocation` at zero.
     */
    constructor (customers: nat, resources: seq<int>, claims: seq<seq<int>>)
      requires NonNegative(resources)
      requires |claims| == customers
      requires forall i :: 0 <= i < customers ==> |claims[i]| == |resources|
      requires forall i :: 0 <= i < customers ==> NonNegative(claims[i]) && AtMost(claims[i], resources)
      ensures Valid()
      ensures fresh(available) && fresh(maximum) && fresh(allocation) && fresh(need)
      ensures total == resources
      ensures Snapshot() == InitialState(resources, claims)
    {
      var m := |resources|;
      numberOfCustomers := customers;
      numberOfResources := m;
      available := new int[m](j requires 0 <= j < m => resources[j]);
      maximum := new int[customers, m];
      allocation := new int[customers, m]((i, j) => 0);
      need := new int[customers, m];
      total := resources;
      new;
      for i := 0 to customers
        invariant available[..] == resources
        invariant forall k, j :: 0 <= k < customers && 0 <= j < m ==> allocation[k, j] == 0
        invariant forall k, j :: 0 <= k < i && 0 <= j < m ==> maximum[k, j] == claims[k][j]
        invariant forall k, j :: 0 <= k < i && 0 <= j < m ==> need[k, j] == claims[k][j]
      {
        for j := 0 to m
          invariant available[..] == resources
          invariant forall k, l :: 0 <= k < customers && 0 <= l < m ==> allocation[k, l] == 0
          invariant forall k, l :: 0 <= k < i && 0 <= l < m ==> maximum[k, l] == claims[k][l]
          invariant forall k, l :: 0 <= k < i && 0 <= l < m ==> need[k, l] == claims[k][l]
          invariant forall l :: 0 <= l < j ==> maximum[i, l] == claims[i][l] && need[i, l] == claims[i][l]
        {
          maximum[i, j] := claims[i][j];
          need[i, j] := maximum[i, j];
        }
      }
      var init := InitialState(resources, claims);
      RowsAre(maximum, init.maximum);
      RowsAre(allocation, init.allocation);
      RowsAre(need, init.need);
      InitialStateConsistent(resources, claims);
      InitialStateSafe(resources, claims);
    }

    /**
     * The safety algorithm on the current arrays: a private `work` copy of
     * `available` and `finish` flags, N passes over the customers, each
     * finishing every customer whose need fits in `work` and adding its
     * allocation into `work`; safe when every customer finished.  With no
     * negative allocation this answers exactly whether a safe sequence exists.
     */
    method IsSafeState() returns (safe: bool)
      requires Shaped() && NonNegativeAllocation(Snapshot())
      ensures safe == Safe(Snapshot())
    {
      ghost var s := Snapshot();
      var work := new int[available.Length](j requires 0 <= j < available.Length reads available => available[j]);
      var finish := new bool[numberOfCustomers](i => false);
      ghost var order: seq<int> := [];
      ReductionStart(s, finish[..]);

      for count := 0 to numberOfCustomers
        invariant Reduction(s, order, work[..], finish[..])
        invariant Safe(s) ==> count <= |order|
      {
        order := FinishReadyCustomers(work, finish, s, order);
      }

      ReductionDecides(s, order, work[..], finish[..]);
      for i := 0 to numberOfCustomers
        invariant forall k :: 0 <= k < i ==> finish[k]
      {
        if !finish[i] {
          return false;
        }
      }
      return true;
    }

    /**
     * One pass of the safety algorithm over the customers in index order:
     * every unfinished customer whose need fits in `work` is marked finished
     * and its allocation added into `work`.  In a safe state a pass that
     * starts with some customer unfinished finishes at least one more.
     */
    method FinishReadyCustomers(work: array<int>, finish: array<bool>, ghost s: State, ghost order: seq<int>)
      returns (ghost order': seq<int>)
      requires Shaped() && s == Snapshot() && NonNegativeAllocation(s)
      requires work != available && work.Length == numberOfResources
      requires Reduction(s, order, work[..], finish[..])
      modifies work, finish
      ensures Reduction(s, order', work[..], finish[..])
      ensures order <= order'
      ensures |order'| == |order| ==> order' == order
      ensures Safe(s) && |order| < numberOfCustomers ==> |order| < |order'|
    {
      ghost var ready := -1;
      if Safe(s) && |order| < numberOfCustomers {
        var safeOrder :| IsSafeSequence(s, safeOrder);
        ReadyCustomerExists(s, safeOrder, order);
        ready :| 0 <= ready < numberOfCustomers && ready !in order && AtMost(s.need[ready], Work(s, order));
      }
      order' := order;
      for i := 0 to numberOfCustomers
        invariant Reduction(s, order', work[..], finish[..])
        invariant order <= order'
        invariant |order'| == |order| ==> order' == order
        invariant 0 <= ready < i ==> |order| < |order'|
      {
        ghost var before := order';
        var finished;
        finished, order' := FinishIfReady(need, allocation, work, finish, i, s, order');
        assert i == ready && before == order ==> finished;
      }
    }

    /**
     * A request is refused, with nothing changed, when it exceeds the
     * customer's need or what is available; otherwise it is applied, and
     * kept if the resulting state is safe or rolled back exactly if not.
     */
    method RequestResources(customer: nat, request: seq<int>) returns (granted: bool)
      requires Valid()
      requires customer < numberOfCustomers && |request| == numberOfResources && NonNegative(request)
      modifies available, allocation, need
      ensures Valid()
      ensures granted == Grantable(old(Snapshot()), customer, request)
      ensures Snapshot() == if granted then Grant(old(Snapshot()), customer, request) else old(Snapshot())
    {
      ghost var s := Snapshot();
      for i := 0 to numberOfResources
        invariant forall j :: 0 <= j < i ==> request[j] <= need[customer, j] && request[j] <= available[j]
      {
        if request[i] > need[customer, i] || request[i] > available[i] {
          return false;
        }
      }
      assert AtMost(request, s.need[customer]) && AtMost(request, s.available);

      // Tentative allocation.
      Take(available, allocation, need, customer, request);
      assert Snapshot() == Grant(s, customer, request);
      GrantKeepsConsistent(s, total, customer, request);

      var safe := IsSafeState();
      if !safe {
        // Roll the tentative allocation back.
        Give(available, allocation, need, customer, request);
        ReleaseUndoesGrant(s, customer, request);
        assert Snapshot() == s;
        return false;
      }
      return true;
    }

    /**
     * Gives back `release` from the customer without any check.  The same
     * amount moves through all three arrays, so the bookkeeping stays
     * balanced and a safe state stays safe whatever the amount; from a valid
     * state, the other invariants survive exactly when the customer held at
     * least that much.
     */
    method ReleaseResources(customer: nat, release: seq<int>)
      requires Shaped() && Balanced(Snapshot(), total) && Safe(Snapshot())
      requires customer < numberOfCustomers && |release| == numberOfResources && NonNegative(release)
      modifies available, allocation, need
      ensures Snapshot() == Release(old(Snapshot()), customer, release)
      ensures Balanced(Snapshot(), total) && Safe(Snapshot())
      ensures old(Valid()) ==> (Valid() <==> AtMost(release, old(Snapshot()).allocation[customer]))
    {
      ghost var s := Snapshot();
      Give(available, allocation, need, customer, release);
      assert Snapshot() == Release(s, customer, release);
      ReleaseKeepsBalanced(s, total, customer, release);
      ReleasePreservesSafety(s, customer, release);
      if Consistent(s, total) {
        ReleaseConsistentIff(s, total, customer, release);
      }
    }
  }
}
