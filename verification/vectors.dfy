/**
 * Resource vectors: one integer per resource class, as kept in the
 * banker's `available`, `work` and table rows.  Also the array view of an
 * N x M table and the two inner loops the safety check runs on one row.
 */
module Vectors {

  /** Every entry is at least zero. */
  predicate NonNegative(v: seq<int>)
  {
    forall j :: 0 <= j < |v| ==> 0 <= v[j]
  }

  /** `a` is componentwise at most `b` (and both have the same length). */
  predicate AtMost(a: seq<int>, b: seq<int>)
  {
    |a| == |b| && forall j :: 0 <= j < |a| ==> a[j] <= b[j]
  }

  /** Componentwise sum. */
  function Add(a: seq<int>, b: seq<int>): (c: seq<int>)
    requires |a| == |b|
    ensures |c| == |a| && forall j :: 0 <= j < |a| ==> c[j] == a[j] + b[j]
  {
    seq(|a|, j requires 0 <= j < |a| => a[j] + b[j])
  }

  /** Componentwise difference. */
  function Sub(a: seq<int>, b: seq<int>): (c: seq<int>)
    requires |a| == |b|
    ensures |c| == |a| && forall j :: 0 <= j < |a| ==> c[j] == a[j] - b[j]
  {
    seq(|a|, j requires 0 <= j < |a| => a[j] - b[j])
  }

  /** The vector of `m` zeros. */
  function Zeros(m: nat): (z: seq<int>)
    ensures |z| == m
  {
    seq(m, j => 0)
  }

  lemma AtMostTransitive(a: seq<int>, b: seq<int>, c: seq<int>)
    requires AtMost(a, b) && AtMost(b, c)
    ensures AtMost(a, c)
  {
  }

  /** The rows of a two-dimensional table, as a sequence of vectors. */
  ghost function Rows(t: array2<int>): (rows: seq<seq<int>>)
    reads t
    ensures |rows| == t.Length0
    ensures forall i :: 0 <= i < t.Length0 ==> |rows[i]| == t.Length1
    ensures forall i, j :: 0 <= i < t.Length0 && 0 <= j < t.Length1 ==> rows[i][j] == t[i, j]
  {
    seq(t.Length0, i requires 0 <= i < t.Length0 reads t =>
      seq(t.Length1, j requires 0 <= j < t.Length1 reads t => t[i, j]))
  }

  /** A table whose cells agree with `rows` has exactly those rows. */
  lemma RowsAre(t: array2<int>, rows: seq<seq<int>>)
    requires |rows| == t.Length0
    requires forall i :: 0 <= i < |rows| ==> |rows[i]| == t.Length1
    requires forall i, j :: 0 <= i < t.Length0 && 0 <= j < t.Length1 ==> t[i, j] == rows[i][j]
    ensures Rows(t) == rows
  {
    forall i | 0 <= i < |rows|
      ensures Rows(t)[i] == rows[i]
    {
    }
  }

  /**
   * Whether row `i` of `t` fits within `work`: the scan of one customer's
   * need against the work vector, leaving at the first resource that does
   * not fit.
   */
  method FitsWithin(t: array2<int>, i: nat, work: array<int>) returns (fits: bool)
    requires i < t.Length0 && t.Length1 == work.Length
    ensures fits == AtMost(Rows(t)[i], work[..])
  {
    fits := true;
    for j := 0 to work.Length
      invariant forall k :: 0 <= k < j ==> t[i, k] <= work[k]
    {
      if t[i, j] > work[j] {
        fits := false;
        break;
      }
    }
  }

  /** Adds row `i` of `t` into `work`, one resource at a time. */
  method AddRowInto(work: array<int>, t: array2<int>, i: nat)
    requires i < t.Length0 && t.Length1 == work.Length
    modifies work
    ensures work[..] == Add(old(work[..]), Rows(t)[i])
  {
    for j := 0 to work.Length
      invariant forall k :: 0 <= k < j ==> work[k] == old(work[k]) + t[i, k]
      invariant forall k :: j <= k < work.Length ==> work[k] == old(work[k])
    {
      work[j] := work[j] + t[i, j];
    }
  }

  /**
   * Customer `c` takes `amount`, one resource class at a time:
   * `available -= amount`, `allocation[c] += amount`, `need[c] -= amount`.
   */
  method Take(available: array<int>, allocation: array2<int>, need: array2<int>, c: nat, amount: seq<int>)
    requires available.Length == |amount| && allocation.Length1 == |amount| && need.Length1 == |amount|
    requires c < allocation.Length0 && c < need.Length0 && allocation != need
    modifies available, allocation, need
    ensures available[..] == Sub(old(available[..]), amount)
    ensures Rows(allocation) == old(Rows(allocation))[c := Add(old(Rows(allocation))[c], amount)]
    ensures Rows(need) == old(Rows(need))[c := Sub(old(Rows(need))[c], amount)]
  {
    ghost var a0, n0 := Rows(allocation), Rows(need);
    for i := 0 to |amount|
      invariant forall j :: 0 <= j < |amount| ==>
        available[j] == old(available[j]) - (if j < i then amount[j] else 0)
      invariant forall k, j :: 0 <= k < allocation.Length0 && 0 <= j < |amount| ==>
        allocation[k, j] == a0[k][j] + (if k == c && j < i then amount[j] else 0)
      invariant forall k, j :: 0 <= k < need.Length0 && 0 <= j < |amount| ==>
        need[k, j] == n0[k][j] - (if k == c && j < i then amount[j] else 0)
    {
      available[i] := available[i] - amount[i];
      allocation[c, i] := allocation[c, i] + amount[i];
      need[c, i] := need[c, i] - amount[i];
    }
    RowsAre(allocation, a0[c := Add(a0[c], amount)]);
    RowsAre(need, n0[c := Sub(n0[c], amount)]);
  }

  /**
   * Customer `c` gives back `amount`, one resource class at a time:
   * `available += amount`, `allocation[c] -= amount`, `need[c] += amount`.
   */
  method Give(available: array<int>, allocation: array2<int>, need: array2<int>, c: nat, amount: seq<int>)
    requires available.Length == |amount| && allocation.Length1 == |amount| && need.Length1 == |amount|
    requires c < allocation.Length0 && c < need.Length0 && allocation != need
    modifies available, allocation, need
    ensures available[..] == Add(old(available[..]), amount)
    ensures Rows(allocation) == old(Rows(allocation))[c := Sub(old(Rows(allocation))[c], amount)]
    ensures Rows(need) == old(Rows(need))[c := Add(old(Rows(need))[c], amount)]
  {
    ghost var a0, n0 := Rows(allocation), Rows(need);
    for i := 0 to |amount|
      invariant forall j :: 0 <= j < |amount| ==>
        available[j] == old(available[j]) + (if j < i then amount[j] else 0)
      invariant forall k, j :: 0 <= k < allocation.Length0 && 0 <= j < |amount| ==>
        allocation[k, j] == a0[k][j] - (if k == c && j < i then amount[j] else 0)
      invariant forall k, j :: 0 <= k < need.Length0 && 0 <= j < |amount| ==>
        need[k, j] == n0[k][j] + (if k == c && j < i then amount[j] else 0)
    {
      available[i] := available[i] + amount[i];
      allocation[c, i] := allocation[c, i] - amount[i];
      need[c, i] := need[c, i] + amount[i];
    }
    RowsAre(allocation, a0[c := Sub(a0[c], amount)]);
    RowsAre(need, n0[c := Add(n0[c], amount)]);
  }
}
