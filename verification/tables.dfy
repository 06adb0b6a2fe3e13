/**
 * The banker's state as values: `available` (one entry per resource class)
 * and the `maximum`, `allocation` and `need` tables (one row per customer),
 * the two protocol updates on it, and the invariants that every committed
 * state keeps: `need == maximum - allocation`, no negative entry, and
 * conservation of every resource class's total.
 */
module Tables {
  import opened Vectors

  datatype State = State(
    available: seq<int>,
    maximum: seq<seq<int>>,
    allocation: seq<seq<int>>,
    need: seq<seq<int>>)
  {
    /** N, the number of customers. */
    function Customers(): nat { |allocation| }

    /** M, the number of resource classes. */
    function Resources(): nat { |available| }
  }

  /** Every table has one row per customer and one column per resource class. */
  predicate WellShaped(s: State)
  {
    |s.maximum| == |s.allocation| && |s.need| == |s.allocation| &&
    forall i :: 0 <= i < |s.allocation| ==>
      |s.maximum[i]| == |s.available| && |s.allocation[i]| == |s.available| && |s.need[i]| == |s.available|
  }

  /** The sum of column `j` of a table: the units of class `j` held by all customers. */
  function ColumnSum(t: seq<seq<int>>, j: nat): int
    requires forall i :: 0 <= i < |t| ==> j < |t[i]|
  {
    if t == [] then 0 else ColumnSum(t[..|t| - 1], j) + t[|t| - 1][j]
  }

  /** Replacing one row changes a column sum by the change in that row's cell. */
  lemma {:induction false} ColumnSumUpdate(t: seq<seq<int>>, j: nat, c: nat, row: seq<int>)
    requires forall i :: 0 <= i < |t| ==> j < |t[i]|
    requires c < |t| && j < |row|
    ensures ColumnSum(t[c := row], j) == ColumnSum(t, j) - t[c][j] + row[j]
  {
    var n := |t| - 1;
    if c == n {
      assert t[c := row][..n] == t[..n];
    } else {
      ColumnSumUpdate(t[..n], j, c, row);
      assert t[c := row][..n] == t[..n][c := row];
    }
  }

  /** A table with every cell zero sums to zero in every column. */
  lemma {:induction false} ColumnSumOfZeros(t: seq<seq<int>>, j: nat)
    requires forall i :: 0 <= i < |t| ==> j < |t[i]| && t[i][j] == 0
    ensures ColumnSum(t, j) == 0
  {
    if t != [] {
      ColumnSumOfZeros(t[..|t| - 1], j);
    }
  }

  /**
   * The bookkeeping invariants for the resource totals `total`: `need` is
   * `maximum - allocation`, and what is available plus what is held is the
   * total of each class.  Every update that moves the same amount through
   * all three arrays keeps them, whatever the amount.
   */
  predicate Balanced(s: State, total: seq<int>)
  {
    WellShaped(s) && |total| == s.Resources() &&
    (forall i, j :: 0 <= i < |s.allocation| && 0 <= j < |total| ==>
      s.need[i][j] == s.maximum[i][j] - s.allocation[i][j]) &&
    (forall j :: 0 <= j < |total| ==> s.available[j] + ColumnSum(s.allocation, j) == total[j])
  }

  /**
   * The invariants of a committed state: the bookkeeping is balanced, every
   * maximum claim is within the total, no customer holds more than its
   * claim or less than nothing, and nothing available is negative.
   */
  predicate Consistent(s: State, total: seq<int>)
  {
    Balanced(s, total) &&
    (forall i, j :: 0 <= i < |s.allocation| && 0 <= j < |total| ==> s.maximum[i][j] <= total[j]) &&
    (forall i, j :: 0 <= i < |s.allocation| && 0 <= j < |total| ==>
      0 <= s.allocation[i][j] <= s.maximum[i][j]) &&
    (forall j :: 0 <= j < |total| ==> 0 <= s.available[j])
  }

  /** Customer `c` takes `r`: `available -= r`, `allocation[c] += r`, `need[c] -= r`. */
  function Grant(s: State, c: nat, r: seq<int>): (g: State)
    requires WellShaped(s) && c < s.Customers() && |r| == s.Resources()
    ensures WellShaped(g) && g.Customers() == s.Customers() && g.Resources() == s.Resources()
  {
    State(Sub(s.available, r), s.maximum,
          s.allocation[c := Add(s.allocation[c], r)],
          s.need[c := Sub(s.need[c], r)])
  }

  /**
   * Customer `c` gives back `r`: `available += r`, `allocation[c] -= r`,
   * `need[c] += r`.  Both the release operation and the rollback of a
   * tentative grant perform this update.
   */
  function Release(s: State, c: nat, r: seq<int>): (u: State)
    requires WellShaped(s) && c < s.Customers() && |r| == s.Resources()
    ensures WellShaped(u) && u.Customers() == s.Customers() && u.Resources() == s.Resources()
  {
    State(Add(s.available, r), s.maximum,
          s.allocation[c := Sub(s.allocation[c], r)],
          s.need[c := Add(s.need[c], r)])
  }

  /** Rolling back a tentative grant restores the state exactly. */
  lemma ReleaseUndoesGrant(s: State, c: nat, r: seq<int>)
    requires WellShaped(s) && c < s.Customers() && |r| == s.Resources()
    ensures Release(Grant(s, c, r), c, r) == s
  {
    var u := Release(Grant(s, c, r), c, r);
    assert u.available == s.available;
    assert u.allocation[c] == s.allocation[c];
    assert u.need[c] == s.need[c];
  }

  /** Granting what was just released restores the state exactly. */
  lemma GrantUndoesRelease(s: State, c: nat, r: seq<int>)
    requires WellShaped(s) && c < s.Customers() && |r| == s.Resources()
    ensures Grant(Release(s, c, r), c, r) == s
  {
    var g := Grant(Release(s, c, r), c, r);
    assert g.available == s.available;
    assert g.allocation[c] == s.allocation[c];
    assert g.need[c] == s.need[c];
  }

  /** A grant that passed validation (within need and within available) keeps the invariants. */
  lemma GrantKeepsConsistent(s: State, total: seq<int>, c: nat, r: seq<int>)
    requires Consistent(s, total) && c < s.Customers() && |r| == s.Resources()
    requires NonNegative(r) && AtMost(r, s.need[c]) && AtMost(r, s.available)
    ensures Consistent(Grant(s, c, r), total)
  {
    var g := Grant(s, c, r);
    forall i, j | 0 <= i < s.Customers() && 0 <= j < s.Resources()
      ensures 0 <= g.allocation[i][j] <= g.maximum[i][j]
      ensures g.need[i][j] == g.maximum[i][j] - g.allocation[i][j]
    {
      assert 0 <= s.allocation[i][j] <= s.maximum[i][j];
      assert s.need[i][j] == s.maximum[i][j] - s.allocation[i][j];
      if i == c {
        assert r[j] <= s.need[c][j];
      }
    }
    forall j | 0 <= j < s.Resources()
      ensures g.available[j] + ColumnSum(g.allocation, j) == total[j]
    {
      ColumnSumUpdate(s.allocation, j, c, g.allocation[c]);
    }
  }

  /** A release of any amount, even more than the customer holds, keeps the bookkeeping balanced. */
  lemma ReleaseKeepsBalanced(s: State, total: seq<int>, c: nat, r: seq<int>)
    requires Balanced(s, total) && c < s.Customers() && |r| == s.Resources()
    ensures Balanced(Release(s, c, r), total)
  {
    var u := Release(s, c, r);
    forall i, j | 0 <= i < s.Customers() && 0 <= j < s.Resources()
      ensures u.need[i][j] == u.maximum[i][j] - u.allocation[i][j]
    {
      assert s.need[i][j] == s.maximum[i][j] - s.allocation[i][j];
    }
    forall j | 0 <= j < s.Resources()
      ensures u.available[j] + ColumnSum(u.allocation, j) == total[j]
    {
      ColumnSumUpdate(s.allocation, j, c, u.allocation[c]);
    }
  }

  /**
   * A release keeps the invariants exactly when it does not exceed what the
   * customer holds; an over-release drives an allocation below zero.
   */
  lemma ReleaseConsistentIff(s: State, total: seq<int>, c: nat, r: seq<int>)
    requires Consistent(s, total) && c < s.Customers() && |r| == s.Resources()
    requires NonNegative(r)
    ensures Consistent(Release(s, c, r), total) <==> AtMost(r, s.allocation[c])
  {
    var u := Release(s, c, r);
    ReleaseKeepsBalanced(s, total, c, r);
    if AtMost(r, s.allocation[c]) {
      forall i, j | 0 <= i < s.Customers() && 0 <= j < s.Resources()
        ensures 0 <= u.allocation[i][j] <= u.maximum[i][j]
        ensures u.need[i][j] == u.maximum[i][j] - u.allocation[i][j]
      {
        assert 0 <= s.allocation[i][j] <= s.maximum[i][j];
        assert s.need[i][j] == s.maximum[i][j] - s.allocation[i][j];
        if i == c {
          assert r[j] <= s.allocation[c][j];
        }
      }
    } else {
      var j :| 0 <= j < s.Resources() && r[j] > s.allocation[c][j];
      assert u.allocation[c][j] < 0;
    }
  }

  /**
   * The state right after construction: all of `totals` available, nothing
   * allocated, and every customer's need equal to its maximum claim.
   */
  function InitialState(totals: seq<int>, claims: seq<seq<int>>): (s: State)
    requires forall i :: 0 <= i < |claims| ==> |claims[i]| == |totals|
    ensures WellShaped(s) && s.Customers() == |claims| && s.Resources() == |totals|
  {
    State(totals, claims, seq(|claims|, i => Zeros(|totals|)), claims)
  }

  /** When every claim lies between zero and the totals, the initial state meets the invariants. */
  lemma InitialStateConsistent(totals: seq<int>, claims: seq<seq<int>>)
    requires NonNegative(totals)
    requires forall i :: 0 <= i < |claims| ==> |claims[i]| == |totals|
    requires forall i :: 0 <= i < |claims| ==> NonNegative(claims[i]) && AtMost(claims[i], totals)
    ensures Consistent(InitialState(totals, claims), totals)
  {
    var s := InitialState(totals, claims);
    forall j | 0 <= j < |totals|
      ensures ColumnSum(s.allocation, j) == 0
    {
      ColumnSumOfZeros(s.allocation, j);
    }
  }
}
