# Banker's algorithm, Java and C variants

This project models the core of a deadlock-avoidance arbiter built on
Dijkstra's banker's algorithm. There are N customers and M resource
classes. The arbiter keeps four integer tables:

- `available`, of length M.
- `maximum`, `allocation` and `need`, each N x M.

It offers three operations:

- **request**: validate the request, apply it tentatively, run the safety
  check, then either keep the change or roll it back exactly.
- **release**: give held units back.
- **safety check**: the greedy reduction over a private `work` vector and
  `finish` flags.

The repository has two independent implementations, and both are modelled:

- `JavaBanker.BankerAlgorithm` (`banker_algorithm.dfy`) follows
  `BankerAlgorithm.java`.
  - Its safety check always runs N passes.
  - Its release checks nothing.
- `CBanker.Bank` (`main_c.dfy`) follows `main.c`.
  - Its global arrays become the fields of one object.
  - Its safety check stops as soon as a pass finishes nobody.
  - Its request and release return `0` or `-1`.
  - Its release refuses to give back more than the customer holds.

Both classes keep the tables in arrays: an `array<int>` for `available` and
an `array2<int>` for each table. The operations update these arrays in
place, with the source's loops. A ghost `total` records the totals the bank
started with.

The meaning of the arrays is given by a pure specification shared by both
classes:

- `Vectors`: componentwise vector operations. It also holds the row view
  `Rows` of a table and the loops on one row that both implementations
  share:
  - the fit test,
  - adding a row into `work`,
  - the two transfer loops.
- `Tables`: the `State` value and the two protocol updates on it, `Grant`
  and `Release`. `Balanced` is the bookkeeping any transfer keeps:
  - `need == maximum - allocation`,
  - `available[j]` plus the column sum of `allocation` equals `total[j]`.

  `Consistent` is the invariant of a committed state. It is `Balanced`
  plus three bounds:
  - every maximum claim is within the totals,
  - `0 <= allocation <= maximum`,
  - `available >= 0`.
- `Safety`: `Work(s, order)` is what is available once the customers in
  `order` have finished and returned their allocations. `IsSafeSequence`
  says that every customer occurs once and can have its need met in turn.
  `Safe(s)` holds when such a sequence exists.
- `SafetyCheck`: the step both safety checks take for one customer during a
  pass.

Each class's `Valid()` says three things:

- the arrays have their shapes,
- the state is `Consistent` for `total`,
- the state is `Safe`.

Both safety checks are proved to answer exactly `Safe(Snapshot())`. Soundness
holds because the order in which the check marks customers is itself a safe
sequence. Completeness holds because, in a safe state with no negative
allocation, every pass finishes at least one more customer. So N fixed passes
(Java) are enough. A pass that finishes nobody (C) proves the state unsafe.
Requests then keep `Valid()`:

- A granted request is exactly `Grant` of the old state, and the new state
  is safe.
- A refused request, whether refused by validation or rolled back, leaves
  every array as it was.

The model follows the code where it departs from the usual description of
the algorithm:

- The Java `release_resources` has no over-release guard, and the model
  does not ask the caller for one. It needs only a balanced, safe state,
  not a valid one. It proves that every release keeps conservation,
  `need == maximum - allocation` and safety, over-release included. From a
  valid state, the remaining invariants hold afterwards exactly when the
  customer held at least what it gave back. An over-release leaves a
  negative allocation.
- Neither implementation rejects zero customers or zero resource classes, so
  N and M may be 0.
- Neither implementation reports a customer index out of range, a vector of
  the wrong length or a negative entry. These are preconditions here.

## Model

| member | source | states |
|---|---|---|
| JavaBanker.BankerAlgorithm.constructor | BankerAlgorithm.java:17-32 | `available` is a copy of the totals, `maximum` holds the given claims, `allocation` is zero and `need` equals `maximum`; the new state meets the invariants and is safe |
| JavaBanker.BankerAlgorithm.IsSafeState | BankerAlgorithm.java:93-127 | N fixed passes of the greedy check answer true exactly when a safe sequence exists (given no negative allocation); writes only its own `work` and `finish` |
| JavaBanker.BankerAlgorithm.FinishReadyCustomers | BankerAlgorithm.java:99-119 | one pass extends the finishing order (the old order is a prefix of the new one, equal to it when no customer finished), and in a safe state with an unfinished customer it finishes at least one more |
| JavaBanker.BankerAlgorithm.RequestResources | BankerAlgorithm.java:35-73 | returns true exactly when the request is within need and available and the granted state is safe; then the arrays hold exactly the grant, otherwise they are unchanged (rejected or rolled back); the invariants and safety hold afterwards |
| JavaBanker.BankerAlgorithm.ReleaseResources | BankerAlgorithm.java:76-90 | the arrays change by exactly the release deltas, unguarded; conservation, `need == maximum - allocation` and safety hold afterwards for every release, over-release included; from a valid state the object stays valid exactly when the release does not exceed the customer's allocation |
| CBanker.Bank.constructor | main.c:167-176 | `available` takes the totals, `maximum` the given claims, `allocation` is zeroed and `need` equals `maximum`; the new state meets the invariants and is safe |
| CBanker.Bank.CheckSafeState | main.c:19-56 | the check with `count` and `found`, leaving early when a pass finds nobody, answers true exactly when a safe sequence exists (given no negative allocation); terminates, and writes no global |
| CBanker.Bank.FinishReadyCustomers | main.c:31-50 | one pass: the old finishing order is a prefix of the new one, `count` tracks the finished customers, `found` is set exactly when the pass finished someone, and in a safe state with an unfinished customer someone is found |
| CBanker.Bank.RequestResources | main.c:58-93 | returns 0 exactly when the request is within need, within available and the granted state is safe, and then the arrays hold exactly the grant; otherwise returns -1 with every array unchanged; the invariants and safety hold afterwards |
| CBanker.Bank.ReleaseResources | main.c:95-114 | returns -1 with nothing changed when the release exceeds the customer's allocation somewhere, otherwise 0 with exactly the release deltas applied; the invariants and safety always hold afterwards |
| Vectors.FitsWithin | BankerAlgorithm.java:101-109 | the scan with early exit is true exactly when the customer's need is componentwise at most `work` (also main.c:34-40) |
| Vectors.AddRowInto | BankerAlgorithm.java:113-115 | `work` becomes `work + allocation[i]` (also main.c:43-44) |
| Vectors.Take | BankerAlgorithm.java:49-53 | `available -= r`, `allocation[c] += r`, `need[c] -= r`, every other row untouched (also main.c:75-79) |
| Vectors.Give | BankerAlgorithm.java:58-62 | `available += r`, `allocation[c] -= r`, `need[c] += r`, every other row untouched (also the release loops at BankerAlgorithm.java:82-86 and main.c:82-86, 105-109) |
| SafetyCheck.FinishIfReady | BankerAlgorithm.java:100-118 | an unfinished customer whose need fits `work` is appended to the finishing order, its allocation added into `work` and its flag set; nothing changes otherwise (also main.c:33-49) |
| Tables.ReleaseUndoesGrant | BankerAlgorithm.java:56-65 | the rollback restores the pre-request state exactly (also main.c:81-89) |
| Tables.GrantUndoesRelease | main.c:105-109 | the release update is exactly inverted by granting the same amount back |
| Tables.GrantKeepsConsistent | BankerAlgorithm.java:41-53 | a request within need and within available keeps conservation, `need == maximum - allocation` and `0 <= allocation <= maximum` |
| Tables.ReleaseKeepsBalanced | BankerAlgorithm.java:82-86 | a release of any amount, even more than the customer holds, keeps conservation and `need == maximum - allocation` |
| Tables.ReleaseConsistentIff | BankerAlgorithm.java:82-86 | the release update keeps the invariants if and only if the amount is within the customer's allocation |
| Tables.InitialStateConsistent | BankerAlgorithm.java:18-31 | the initial tables meet the invariants when every claim lies between 0 and the totals |
| Tables.ColumnSumUpdate | BankerAlgorithm.java:51 | changing one customer's allocation changes each column total by exactly that change, which is what makes conservation hold |
| Safety.InitialStateSafe | BankerAlgorithm.java:26-31 | the initial state, with nothing allocated and every claim within the totals, is safe (customers in index order) |
| Safety.ReleasePreservesSafety | BankerAlgorithm.java:82-86 | giving units back never makes a safe state unsafe |
| Safety.WorkAfterRelease | BankerAlgorithm.java:84 | after a release, the work along any order is unchanged if the customer is in the order, and otherwise grows by the released amount |
| Safety.MarkFinished | BankerAlgorithm.java:112-117 | marking a ready customer finished and adding its allocation into `work` extends a valid finishing order |
| Safety.ExtendOrder | BankerAlgorithm.java:105-116 | appending a customer whose need fits the current work keeps a valid finishing order and adds its allocation to the work |
| Safety.ReadyCustomerExists | BankerAlgorithm.java:98-100 | in a safe state with no negative allocation, while not every customer has finished, some unfinished customer's need fits the current work |
| Safety.WorkMonotone | BankerAlgorithm.java:114 | with no negative allocation, work only grows as more customers finish, in whatever order |
| Safety.ReductionComplete | main.c:52-55 | all `finish` flags are set exactly when the finishing order is a safe sequence |
| Safety.ReductionDecides | BankerAlgorithm.java:122-126 | after the passes, all flags are set exactly when the state is safe |
| Safety.OrderLength | main.c:29-30 | a finishing order holds at most N customers, and exactly N when it holds all of them, so `count` never exceeds N |

## Left out

- The `ReentrantLock` and the `pthread_mutex`/`pthread_cond` calls are not modelled, nor thread creation and joining. Each operation is one atomic step, which is what the lock provides. The `pthread_cond_broadcast` in `release_resources` wakes nobody the model knows of.
- The driver loops are not modelled: the Java `main` and the C `customer` thread. They only generate random load.
- Random maximum claims are not modelled. `Random.nextInt` and `rand()` become the constructor argument `claims`, which must satisfy `0 <= claims[i][j] <= resources[j]`.
- Console output is not modelled: `System.out.println`, `printf` and `arrayToString`.
- Environment handling is not modelled: `argv`/`atoi` parsing, the argument-count check in `main`, `sleep` and `perror`. The totals arrive as a non-negative sequence.
- Integers are mathematical. 32-bit overflow of the Java `int` and C `int` arithmetic is not modelled.
- The request and release vectors are Dafny sequences, not arrays. Aliasing between such a vector and the bank's own arrays is not modelled.
- Both implementations' three-array transfer loops are shared methods (`Vectors.Take`, `Vectors.Give`). So is the body of the inner loop over customers (`SafetyCheck.FinishIfReady`). Each class calls them where its source has the loop. In the C pass, `found` and `count` are therefore updated right after that step, not inside it.
- JavaBanker.BankerAlgorithm.IsSafeState, CBanker.Bank.CheckSafeState: exactness needs non-negative allocations, so both require them. With a negative allocation the greedy check can disagree with the existence of a safe sequence. That can happen only after an unguarded Java over-release.
- N and M are fields fixed at construction: the customer count and the length of the totals. The sources fix them at compile time (N=5, M=3 in Java; N=3, M=3 in C).
- JavaBanker.BankerAlgorithm.RequestResources: requires `Valid()`. So a request made after an unguarded over-release is not modelled. The Java object accepts such a request, but its greedy check no longer need agree with the existence of a safe sequence. Further releases are still modelled.
