/** internal/replication/budget.go and dispatcher.go: byte budget and replication plans. */
module Replication {
  import opened BackupModel
  import opened Formats
  import opened Journal
  import opened Ordering

  const MAX64: int := 0x7fff_ffff_ffff_ffff
  const TWO64: int := 0x1_0000_0000_0000_0000

  /** The value of an int64 expression whose exact result is `x`. */
  function Wrap64(x: int): int {
    (x + MAX64 + 1) % TWO64 - MAX64 - 1
  }

  predicate IsInt64(x: int) {
    -MAX64 - 1 <= x <= MAX64
  }

  type Int64 = x: int | IsInt64(x)

  // ---------- sums over reservations ----------

  ghost function Sum(m: map<string, int>): int {
    if m == map[] then 0
    else
      var k :| k in m;
      m[k] + Sum(m - {k})
  }

  lemma {:induction false} SumWithout(m: map<string, int>, k: string)
    requires k in m
    ensures Sum(m) == m[k] + Sum(m - {k})
    decreases |m|
  {
    var j :| j in m && Sum(m) == m[j] + Sum(m - {j});
    if j != k {
      SumWithout(m - {j}, k);
      SumWithout(m - {k}, j);
      assert (m - {j}) - {k} == (m - {k}) - {j};
    }
  }

  lemma SumWith(m: map<string, int>, k: string, v: int)
    requires k !in m
    ensures Sum(m[k := v]) == Sum(m) + v
  {
    SumWithout(m[k := v], k);
    assert m[k := v] - {k} == m;
  }

  lemma {:induction false} SumIsPositive(m: map<string, int>)
    requires forall k :: k in m ==> m[k] > 0
    ensures Sum(m) >= 0
    ensures forall k :: k in m ==> m[k] <= Sum(m)
    decreases |m|
  {
    forall k | k in m ensures m[k] <= Sum(m) {
      SumWithout(m, k);
      SumIsPositive(m - {k});
    }
    if k :| k in m {
      assert m[k] <= Sum(m);
    }
  }

  // ---------- the budget ----------

  datatype Budget = Budget(limit: int, reservations: map<string, int>, used: int)

  predicate Reservable(b: Budget, planID: string, bytes: int) {
    planID != "" && bytes > 0 && planID !in b.reservations && Wrap64(b.used + bytes) <= b.limit
  }

  function Reserved(b: Budget, planID: string, bytes: int): Budget {
    if !Reservable(b, planID, bytes) then b
    else b.(reservations := b.reservations[planID := bytes], used := Wrap64(b.used + bytes))
  }

  function ReservedBytes(b: Budget, planID: string): int {
    if planID in b.reservations then b.reservations[planID] else 0
  }

  function ReleasedBudget(b: Budget, planID: string): Budget {
    var bytes := ReservedBytes(b, planID);
    if bytes == 0 then b
    else
      var used := Wrap64(b.used - bytes);
      b.(reservations := b.reservations - {planID}, used := if used < 0 then 0 else used)
  }

  /** Used bytes are the outstanding reservations and lie within the limit. */
  ghost predicate Balanced(b: Budget) {
    && (forall p :: p in b.reservations ==> p != "" && b.reservations[p] > 0)
    && b.used == Sum(b.reservations)
    && b.used <= b.limit <= MAX64
  }

  lemma BalancedBounds(b: Budget)
    requires Balanced(b)
    ensures 0 <= b.used <= b.limit
    ensures forall p :: p in b.reservations ==> b.reservations[p] <= b.used
  {
    SumIsPositive(b.reservations);
  }

  /** A new plan is granted exactly if it fits the limit, or overflows an int64. */
  lemma ReserveDecides(b: Budget, planID: string, bytes: Int64)
    requires 0 <= b.used <= MAX64 && 0 <= b.limit <= MAX64
    ensures Reservable(b, planID, bytes) <==>
      planID != "" && bytes > 0 && planID !in b.reservations && !(b.limit < b.used + bytes <= MAX64)
  {
    assert IsInt64(bytes);
    if 0 < bytes {
      assert Wrap64(b.used + bytes) == if b.used + bytes <= MAX64 then b.used + bytes else b.used + bytes - TWO64;
    }
  }

  /** `Reserve` keeps the budget balanced exactly when the sum it compares fits an int64, or the
      request is refused on other grounds. */
  lemma ReserveBalance(b: Budget, planID: string, bytes: int)
    requires Balanced(b) && IsInt64(bytes)
    ensures Balanced(Reserved(b, planID, bytes)) <==>
            planID == "" || bytes <= 0 || planID in b.reservations || b.used + bytes <= MAX64
  {
    BalancedBounds(b);
    if Reservable(b, planID, bytes) {
      SumWith(b.reservations, planID, bytes);
      if b.used + bytes <= MAX64 {
        assert Wrap64(b.used + bytes) == b.used + bytes;
      } else {
        assert Wrap64(b.used + bytes) == b.used + bytes - TWO64;
      }
    }
  }

  /** A concrete budget and request for which the sum wraps: the reservation is granted although it
      exceeds the limit, and the books no longer balance. */
  lemma ReserveCanWrap()
    ensures var b := Budget(MAX64, map["a" := 1], 1);
            Balanced(b) && Reservable(b, "b", MAX64) && !Balanced(Reserved(b, "b", MAX64))
  {
    var b := Budget(MAX64, map["a" := 1], 1);
    SumWith(map[], "a", 1);
    assert map[]["a" := 1] == b.reservations;
    assert Wrap64(1 + MAX64) == -MAX64 - 1;
    ReserveBalance(b, "b", MAX64);
  }

  /** Releasing keeps the balance, gives back exactly the reservation, and never needs the clamp. */
  lemma ReleaseBalance(b: Budget, planID: string)
    requires Balanced(b)
    ensures Balanced(ReleasedBudget(b, planID))
    ensures b.used - ReservedBytes(b, planID) >= 0
    ensures ReleasedBudget(b, planID).used == b.used - ReservedBytes(b, planID)
    ensures ReleasedBudget(b, planID).reservations == b.reservations - {planID}
  {
    BalancedBounds(b);
    if planID in b.reservations {
      SumWithout(b.reservations, planID);
      var bytes := b.reservations[planID];
      assert Wrap64(b.used - bytes) == b.used - bytes;
    }
  }

  /** Undoing a reservation restores the budget, wrapped or not, exactly when it was not negative
      before; a negative sum is what a granted overflow leaves behind. */
  lemma ReserveThenRelease(b: Budget, planID: string, bytes: Int64)
    requires IsInt64(b.used) && Reservable(b, planID, bytes)
    ensures ReleasedBudget(Reserved(b, planID, bytes), planID) == b <==> b.used >= 0
  {
    var r := Reserved(b, planID, bytes);
    assert r.reservations - {planID} == b.reservations;
    WrapBack(b.used, bytes);
  }

  lemma WrapBack(used: Int64, bytes: Int64)
    ensures Wrap64(Wrap64(used + bytes) - bytes) == used
  {
    assert IsInt64(used) && IsInt64(bytes);
    var sum := used + bytes;
    if sum > MAX64 {
      assert Wrap64(sum) == sum - TWO64 && Wrap64(used - TWO64) == used;
    } else if sum < -MAX64 - 1 {
      assert Wrap64(sum) == sum + TWO64 && Wrap64(used + TWO64) == used;
    } else {
      assert Wrap64(sum) == sum && Wrap64(used) == used;
    }
  }

  class BudgetStore {
    const limit: int
    var reservations: map<string, int>
    var used: int

    ghost function Contents(): Budget
      reads this
    {
      Budget(limit, reservations, used)
    }

    constructor (limit: int)
      requires IsInt64(limit)
      ensures Contents() == Budget(if limit < 0 then 0 else limit, map[], 0) && Balanced(Contents())
    {
      this.limit := if limit < 0 then 0 else limit;
      reservations, used := map[], 0;
    }

    method Reserve(planID: string, bytes: int) returns (ok: bool)
      modifies this
      ensures Contents() == Reserved(old(Contents()), planID, bytes)
      ensures ok <==> planID != "" && bytes > 0 && planID !in old(reservations) && Wrap64(old(used) + bytes) <= limit
    {
      if planID == "" || bytes <= 0 {
        return false;
      }
      if planID in reservations {
        return false;
      }
      if Wrap64(used + bytes) > limit {
        return false;
      }
      reservations := reservations[planID := bytes];
      used := Wrap64(used + bytes);
      ok := true;
    }

    method Release(planID: string) returns (bytes: int)
      modifies this
      ensures Contents() == ReleasedBudget(old(Contents()), planID)
      ensures bytes == ReservedBytes(old(Contents()), planID)
    {
      bytes := if planID in reservations then reservations[planID] else 0;
      if bytes == 0 {
        return 0;
      }
      reservations := reservations - {planID};
      used := Wrap64(used - bytes);
      if used < 0 {
        used := 0;
      }
    }
  }

  // ---------- plans ----------

  datatype Destination = Destination(capacity: int, healthy: bool)

  /** The known destinations by ID. */
  type Registry = map<string, Destination>

  datatype ReplicationPlan = ReplicationPlan(
    id: string, snapshotID: string, generation: nat, destinations: seq<string>, totalBytes: Int64)

  datatype PlanError =
    | IncompleteRequest | NotPlanable | InvalidChunk | NoBytes | NoDestination | DuplicateIndex
    | AlreadyReserved | QuotaExhausted | PlanJournalClosed

  datatype PlanResult = Planned(plan: ReplicationPlan) | Rejected(error: PlanError)

  /** What planning and completion share: the budget, the journal and the completed plan IDs. */
  datatype Books = Books(budget: Budget, log: Log, completed: set<string>)

  function PlanID(snapshotID: string, generation: nat): string {
    "rep-" + snapshotID + "-" + Decimal(generation)
  }

  function PlanEntry(plan: ReplicationPlan, now: int): Entry {
    Entry(0, plan.generation, "replication-plan", plan.snapshotID, plan.id,
          "destinations=" + Decimal(|plan.destinations|) + " bytes=" +
            Decimal(if plan.totalBytes < 0 then 0 else plan.totalBytes), now)
  }

  predicate Accepted(d: Books, plan: ReplicationPlan, closes: bool) {
    Reservable(d.budget, plan.id, plan.totalBytes) && !d.log.closed && !closes
  }

  /** `finishPlan`: reserve, then journal, undoing the reservation if the journal refuses. `closes` says
      that another goroutine closes the journal between the check and the append. */
  function Finished(d: Books, plan: ReplicationPlan, closes: bool, now: int): Books {
    if !Reservable(d.budget, plan.id, plan.totalBytes) then d
    else
      var reserved := Reserved(d.budget, plan.id, plan.totalBytes);
      if d.log.closed then d.(budget := ReleasedBudget(reserved, plan.id))
      else if closes then d.(budget := ReleasedBudget(reserved, plan.id), log := d.log.(closed := true))
      else d.(budget := reserved, log := Appended(d.log, PlanEntry(plan, now)))
  }

  function Completed(d: Books, planID: string): Books {
    if planID in d.completed then d
    else d.(budget := ReleasedBudget(d.budget, planID), completed := d.completed + {planID})
  }

  ghost predicate HasPlanEntry(log: Log, planID: string) {
    exists i :: 0 <= i < |log.entries| && log.entries[i].kind == "replication-plan" &&
      log.entries[i].operation == planID
  }

  /** The books balance and every outstanding reservation has been journalled. */
  ghost predicate Sound(d: Books) {
    Balanced(d.budget) && forall p :: p in d.budget.reservations ==> HasPlanEntry(d.log, p)
  }

  lemma EntriesStay(log: Log, entry: Entry, planID: string)
    requires HasPlanEntry(log, planID)
    ensures HasPlanEntry(Appended(log, entry), planID)
  {
    var i :| 0 <= i < |log.entries| && log.entries[i].kind == "replication-plan" && log.entries[i].operation == planID;
    assert Appended(log, entry).entries[i] == log.entries[i];
  }

  /** The answer of `finishPlan`, with the first thing that went wrong. */
  function FinishReply(d: Books, plan: ReplicationPlan, closes: bool): PlanResult {
    if plan.id != "" && plan.id in d.budget.reservations then Rejected(AlreadyReserved)
    else if !Reservable(d.budget, plan.id, plan.totalBytes) then Rejected(QuotaExhausted)
    else if d.log.closed || closes then Rejected(PlanJournalClosed)
    else Planned(plan)
  }

  lemma RejectionIsHarmless(d: Books, plan: ReplicationPlan, closes: bool, now: int)
    ensures FinishReply(d, plan, closes).Planned? <==> Accepted(d, plan, closes)
    ensures Sound(d) && !Accepted(d, plan, closes) ==>
      var e := Finished(d, plan, closes, now);
      e.budget == d.budget && e.log.entries == d.log.entries && e.completed == d.completed
  {
    if Sound(d) && !Accepted(d, plan, closes) {
      BalancedBounds(d.budget);
      RejectedPlanChangesNothing(d, plan, closes, now);
    }
  }

  /** A plan call that fails leaves budget, journal entries and completions as they were. */
  lemma RejectedPlanChangesNothing(d: Books, plan: ReplicationPlan, closes: bool, now: int)
    requires 0 <= d.budget.used <= MAX64 && !Accepted(d, plan, closes)
    ensures Finished(d, plan, closes, now).budget == d.budget
    ensures Finished(d, plan, closes, now).log.entries == d.log.entries
    ensures Finished(d, plan, closes, now).completed == d.completed
  {
    if Reservable(d.budget, plan.id, plan.totalBytes) {
      ReserveThenRelease(d.budget, plan.id, plan.totalBytes);
    }
  }

  lemma AcceptedPlanIsJournalled(d: Books, plan: ReplicationPlan, now: int)
    requires Sound(d) && Accepted(d, plan, false) && d.budget.used + plan.totalBytes <= MAX64
    ensures Sound(Finished(d, plan, false, now))
  {
    var e := Finished(d, plan, false, now);
    ReserveBalance(d.budget, plan.id, plan.totalBytes);
    forall p | p in e.budget.reservations ensures HasPlanEntry(e.log, p) {
      if p != plan.id {
        EntriesStay(d.log, PlanEntry(plan, now), p);
      } else {
        assert e.log.entries[|d.log.entries|].operation == p;
      }
    }
  }

  // ---------- runs ----------

  datatype Call =
    | FinishCall(plan: ReplicationPlan, closes: bool, now: int)
    | CompleteCall(planID: string)
    | JournalCall(entry: Entry)
    | SetClosedCall(closed: bool)

  function Step(d: Books, call: Call): Books {
    match call
    case FinishCall(plan, closes, now) => Finished(d, plan, closes, now)
    case CompleteCall(planID) => Completed(d, planID)
    case JournalCall(entry) => d.(log := Appended(d.log, entry))
    case SetClosedCall(closed) => d.(log := d.log.(closed := closed))
  }

  /** The books after the first n calls. */
  function After(d: Books, calls: seq<Call>, n: nat): Books
    requires n <= |calls|
  {
    if n == 0 then d else Step(After(d, calls, n - 1), calls[n - 1])
  }

  function Run(d: Books, calls: seq<Call>): Books {
    After(d, calls, |calls|)
  }

  /** Bytes a call takes from the budget, and bytes it gives back through completion. */
  function Granted(d: Books, call: Call): int {
    if call.FinishCall? && Accepted(d, call.plan, call.closes) then call.plan.totalBytes else 0
  }

  function GivenBack(d: Books, call: Call): int {
    if call.CompleteCall? && call.planID !in d.completed then ReservedBytes(d.budget, call.planID) else 0
  }

  function GrantedIn(d: Books, calls: seq<Call>, n: nat): int
    requires n <= |calls|
  {
    if n == 0 then 0 else GrantedIn(d, calls, n - 1) + Granted(After(d, calls, n - 1), calls[n - 1])
  }

  function GivenBackIn(d: Books, calls: seq<Call>, n: nat): int
    requires n <= |calls|
  {
    if n == 0 then 0 else GivenBackIn(d, calls, n - 1) + GivenBack(After(d, calls, n - 1), calls[n - 1])
  }

  /** A new plan ID, the journal open throughout, and a sum that does not fit an int64. */
  predicate Overflows(d: Books, call: Call) {
    && call.FinishCall? && call.plan.id != "" && call.plan.id !in d.budget.reservations
    && !d.log.closed && !call.closes
    && d.budget.used + call.plan.totalBytes > MAX64
  }

  lemma OverflowIsAccepted(d: Books, call: Call)
    requires Sound(d) && Overflows(d, call)
    ensures Accepted(d, call.plan, call.closes)
  {
    BalancedBounds(d.budget);
    var sum := d.budget.used + call.plan.totalBytes;
    assert Wrap64(sum) == sum - TWO64;
  }

  lemma FinishIsSound(d: Books, plan: ReplicationPlan, closes: bool, now: int)
    requires Sound(d) && !Overflows(d, FinishCall(plan, closes, now))
    ensures Sound(Finished(d, plan, closes, now)) && Finished(d, plan, closes, now).budget.limit == d.budget.limit
    ensures Finished(d, plan, closes, now).budget.used ==
            d.budget.used + if Accepted(d, plan, closes) then plan.totalBytes else 0
  {
    BalancedBounds(d.budget);
    if Accepted(d, plan, closes) {
      AcceptedPlanIsJournalled(d, plan, now);
      assert Wrap64(d.budget.used + plan.totalBytes) == d.budget.used + plan.totalBytes;
    } else {
      RejectedPlanChangesNothing(d, plan, closes, now);
      var log := Finished(d, plan, closes, now).log;
      forall p | p in d.budget.reservations ensures HasPlanEntry(log, p) {
        SameEntries(d.log, log, p);
      }
    }
  }

  lemma SameEntries(a: Log, b: Log, planID: string)
    requires a.entries == b.entries && HasPlanEntry(a, planID)
    ensures HasPlanEntry(b, planID)
  {
  }

  /** One call keeps the books sound if and only if it does not overflow. */
  lemma StepIsSound(d: Books, call: Call)
    requires Sound(d)
    ensures Sound(Step(d, call)) <==> !Overflows(d, call)
    ensures !Overflows(d, call) ==>
      && Step(d, call).budget.limit == d.budget.limit
      && Step(d, call).budget.used == d.budget.used + Granted(d, call) - GivenBack(d, call)
  {
    match call
    case FinishCall(plan, closes, now) =>
      if Overflows(d, call) {
        OverflowIsAccepted(d, call);
        ReserveBalance(d.budget, plan.id, plan.totalBytes);
      } else {
        FinishIsSound(d, plan, closes, now);
      }
    case CompleteCall(planID) => ReleaseBalance(d.budget, planID);
    case JournalCall(entry) =>
      forall p | p in d.budget.reservations ensures HasPlanEntry(Step(d, call).log, p) {
        EntriesStay(d.log, entry, p);
      }
    case SetClosedCall(_) =>
      forall p | p in d.budget.reservations ensures HasPlanEntry(Step(d, call).log, p) {
        SameEntries(d.log, Step(d, call).log, p);
      }
  }

  ghost predicate SoundUpTo(d: Books, calls: seq<Call>, n: nat)
    requires n <= |calls|
  {
    forall k :: 0 <= k <= n ==> Sound(After(d, calls, k))
  }

  ghost predicate NoOverflowUpTo(d: Books, calls: seq<Call>, n: nat)
    requires n <= |calls|
  {
    forall k :: 0 <= k < n ==> !Overflows(After(d, calls, k), calls[k])
  }

  lemma {:induction false} SoundWithoutOverflow(d: Books, calls: seq<Call>, n: nat)
    requires Sound(d) && n <= |calls|
    ensures SoundUpTo(d, calls, n) <==> NoOverflowUpTo(d, calls, n)
  {
    if n == 0 {
      SoundAtStart(d, calls);
    } else {
      SoundWithoutOverflow(d, calls, n - 1);
      SoundUpToStep(d, calls, n);
      NoOverflowUpToStep(d, calls, n);
      if SoundUpTo(d, calls, n - 1) {
        StepIsSound(After(d, calls, n - 1), calls[n - 1]);
      }
    }
  }

  lemma {:induction false} SoundIsConserved(d: Books, calls: seq<Call>, n: nat)
    requires n <= |calls| && SoundUpTo(d, calls, n)
    ensures After(d, calls, n).budget.limit == d.budget.limit
    ensures After(d, calls, n).budget.used == d.budget.used + GrantedIn(d, calls, n) - GivenBackIn(d, calls, n)
  {
    if n > 0 {
      SoundUpToStep(d, calls, n);
      SoundIsConserved(d, calls, n - 1);
      StepIsSound(After(d, calls, n - 1), calls[n - 1]);
    }
  }

  lemma SoundAtStart(d: Books, calls: seq<Call>)
    ensures SoundUpTo(d, calls, 0) <==> Sound(d)
    ensures NoOverflowUpTo(d, calls, 0)
  {
    assert After(d, calls, 0) == d;
  }

  lemma SoundUpToStep(d: Books, calls: seq<Call>, n: nat)
    requires 0 < n <= |calls|
    ensures SoundUpTo(d, calls, n) <==> SoundUpTo(d, calls, n - 1) && Sound(After(d, calls, n))
    ensures SoundUpTo(d, calls, n - 1) ==> Sound(After(d, calls, n - 1))
  {
  }

  lemma NoOverflowUpToStep(d: Books, calls: seq<Call>, n: nat)
    requires 0 < n <= |calls|
    ensures NoOverflowUpTo(d, calls, n) <==>
      NoOverflowUpTo(d, calls, n - 1) && !Overflows(After(d, calls, n - 1), calls[n - 1])
  {
  }

  /** Conservation: a run keeps the books sound throughout if and only if none of its calls overflows
      where it happens, and then what is in use is what was granted minus what completions gave back. */
  lemma BudgetIsConserved(d: Books, calls: seq<Call>)
    requires Sound(d)
    ensures SoundUpTo(d, calls, |calls|) <==> NoOverflowUpTo(d, calls, |calls|)
    ensures NoOverflowUpTo(d, calls, |calls|) ==>
      && 0 <= Run(d, calls).budget.used <= Run(d, calls).budget.limit == d.budget.limit
      && Run(d, calls).budget.used
         == d.budget.used + GrantedIn(d, calls, |calls|) - GivenBackIn(d, calls, |calls|)
  {
    SoundWithoutOverflow(d, calls, |calls|);
    if NoOverflowUpTo(d, calls, |calls|) {
      SoundIsConserved(d, calls, |calls|);
      BalancedBounds(After(d, calls, |calls|).budget);
    }
  }

  lemma {:induction false} CompletedStays(d: Books, calls: seq<Call>, n: nat, planID: string)
    requires planID in d.completed && n <= |calls|
    ensures planID in After(d, calls, n).completed
  {
    if n > 0 {
      CompletedStays(d, calls, n - 1, planID);
    }
  }

  /** A plan ID gives bytes back through `Complete` at most once: any later completion of it does nothing. */
  lemma CompleteGivesBackOnce(d: Books, planID: string, calls: seq<Call>)
    ensures var later := Run(Completed(d, planID), calls);
            GivenBack(later, CompleteCall(planID)) == 0 && Completed(later, planID) == later
  {
    CompletedStays(Completed(d, planID), calls, |calls|, planID);
  }

  /** The plan holds these bytes and has not been completed. */
  predicate Holds(d: Books, planID: string, bytes: int) {
    planID !in d.completed && planID in d.budget.reservations && d.budget.reservations[planID] == bytes
  }

  lemma {:induction false} ReservationStays(d: Books, calls: seq<Call>, n: nat, planID: string, bytes: int)
    requires Holds(d, planID, bytes) && n <= |calls|
    requires forall i :: 0 <= i < n ==> calls[i] != CompleteCall(planID)
    ensures Holds(After(d, calls, n), planID, bytes)
  {
    if n > 0 {
      ReservationStays(d, calls, n - 1, planID, bytes);
      ReservationStaysOnce(After(d, calls, n - 1), calls[n - 1], planID, bytes);
    }
  }

  lemma ReservationStaysOnce(d: Books, call: Call, planID: string, bytes: int)
    requires Holds(d, planID, bytes) && call != CompleteCall(planID)
    ensures Holds(Step(d, call), planID, bytes)
  {
  }

  /** The first completion of an accepted plan gives back exactly the plan's bytes, whatever happens to
      other plans in between, overflow included. */
  lemma FirstCompletionReturnsAll(d: Books, plan: ReplicationPlan, now: int, calls: seq<Call>)
    requires Accepted(d, plan, false) && plan.id !in d.completed
    requires forall i :: 0 <= i < |calls| ==> calls[i] != CompleteCall(plan.id)
    ensures var later := Run(Finished(d, plan, false, now), calls);
            GivenBack(later, CompleteCall(plan.id)) == plan.totalBytes
  {
    ReservationStays(Finished(d, plan, false, now), calls, |calls|, plan.id, plan.totalBytes);
  }

  // ---------- the dispatcher ----------

  /** Sum of the chunk sizes in int64 arithmetic. */
  function TotalOf(chunks: seq<Chunk>): (total: int)
    ensures IsInt64(total)
  {
    if chunks == [] then 0 else Wrap64(TotalOf(chunks[..|chunks| - 1]) + |chunks[|chunks| - 1].data|)
  }

  function DataBytes(chunks: seq<Chunk>): seq<Bytes> {
    seq(|chunks|, i requires 0 <= i < |chunks| => chunks[i].data)
  }

  /** The number of data bytes, as long as that fits an int64; beyond, what is left of it modulo 2^64. */
  lemma {:induction false} TotalCountsBytes(chunks: seq<Chunk>)
    ensures TotalOf(chunks) == Wrap64(|Flatten(DataBytes(chunks))|)
    ensures TotalOf(chunks) == |Flatten(DataBytes(chunks))| <==> |Flatten(DataBytes(chunks))| <= MAX64
  {
    if chunks != [] {
      var n := |chunks| - 1;
      TotalCountsBytes(chunks[..n]);
      assert DataBytes(chunks)[..n] == DataBytes(chunks[..n]);
      WrapSum(|Flatten(DataBytes(chunks[..n]))|, |chunks[n].data|);
    }
  }

  lemma WrapSum(a: int, b: int)
    ensures Wrap64(Wrap64(a) + b) == Wrap64(a + b)
    ensures IsInt64(Wrap64(a)) && (IsInt64(a) ==> Wrap64(a) == a)
  {
    var q := (a + MAX64 + 1) / TWO64;
    assert Wrap64(a) == a - q * TWO64;
    ModShift(a + b + MAX64 + 1, q);
  }

  lemma ModShift(x: int, q: int)
    ensures (x - q * TWO64) % TWO64 == x % TWO64
  {
    var d := x / TWO64;
    assert x - q * TWO64 == (d - q) * TWO64 + x % TWO64;
    ModUnique(x - q * TWO64, d - q, x % TWO64);
  }

  lemma ModUnique(x: int, q: int, r: int)
    requires x == q * TWO64 + r && 0 <= r < TWO64
    ensures x % TWO64 == r
  {
    var d := x / TWO64 - q;
    assert d * TWO64 == r - x % TWO64;
    assert d == 0;
  }

  ghost predicate WellFormed(chunks: seq<Chunk>) {
    forall i :: 0 <= i < |chunks| ==> chunks[i].index >= 0 && chunks[i].digest != ""
  }

  ghost predicate DistinctIndexes(chunks: seq<Chunk>) {
    forall i, j :: 0 <= i < j < |chunks| ==> chunks[i].index != chunks[j].index
  }

  predicate CanHold(d: Destination, total: int) {
    d.healthy && d.capacity >= total
  }

  ghost function EligibleIDs(registry: Registry, required: int): set<string> {
    set id | id in registry && CanHold(registry[id], required)
  }

  /** What `PlanSnapshot` asks of snapshot and destinations before it touches budget and journal, in
      the order it asks. */
  ghost function Screened(snapshot: Snapshot, registry: Registry): Screening {
    if snapshot.state == Expired then Fails(NotPlanable)
    else if !WellFormed(snapshot.chunks) then Fails(InvalidChunk)
    else if TotalOf(snapshot.chunks) <= 0 then Fails(NoBytes)
    else if snapshot.id == "" then Fails(IncompleteRequest)
    else if EligibleIDs(registry, TotalOf(snapshot.chunks)) == {} then Fails(NoDestination)
    else if !DistinctIndexes(snapshot.chunks) then Fails(DuplicateIndex)
    else Passes
  }

  lemma ScreenedPasses(snapshot: Snapshot, registry: Registry)
    ensures Screened(snapshot, registry).Passes? <==>
      && snapshot.state != Expired && snapshot.id != "" && TotalOf(snapshot.chunks) > 0
      && (forall i :: 0 <= i < |snapshot.chunks| ==> snapshot.chunks[i].index >= 0 && snapshot.chunks[i].digest != "")
      && (forall i, j :: 0 <= i < j < |snapshot.chunks| ==> snapshot.chunks[i].index != snapshot.chunks[j].index)
      && exists id :: id in registry && registry[id].healthy && registry[id].capacity >= TotalOf(snapshot.chunks)
  {
    var total := TotalOf(snapshot.chunks);
    var ids := EligibleIDs(registry, total);
    if id :| id in ids {
      assert registry[id].healthy && registry[id].capacity >= total;
    }
    if id :| id in registry && registry[id].healthy && registry[id].capacity >= total {
      assert CanHold(registry[id], total) && id in ids;
    }
    assert WellFormed(snapshot.chunks) <==>
      forall i :: 0 <= i < |snapshot.chunks| ==> snapshot.chunks[i].index >= 0 && snapshot.chunks[i].digest != "";
  }

  datatype Screening = Passes | Fails(error: PlanError)

  /** The plan of a snapshot that passes: its ID and bytes, and every eligible destination by ID. */
  ghost predicate IsPlanFor(plan: ReplicationPlan, snapshot: Snapshot, registry: Registry) {
    && plan.id == PlanID(snapshot.id, snapshot.generation)
    && plan.snapshotID == snapshot.id && plan.generation == snapshot.generation
    && plan.totalBytes == TotalOf(snapshot.chunks)
    && SortedListing(plan.destinations, EligibleIDs(registry, plan.totalBytes))
  }

  /** A plan goes to exactly the healthy destinations that can hold all the bytes. */
  lemma PlanHasEveryFit(plan: ReplicationPlan, snapshot: Snapshot, registry: Registry, id: string)
    requires IsPlanFor(plan, snapshot, registry)
    ensures plan.id == "rep-" + snapshot.id + "-" + Decimal(snapshot.generation)
    ensures id in plan.destinations <==>
              id in registry && registry[id].healthy && registry[id].capacity >= TotalOf(snapshot.chunks)
  {
    ListsMembers(plan.destinations, EligibleIDs(registry, plan.totalBytes));
  }

  method TotalSnapshotBytes(chunks: seq<Chunk>) returns (ok: bool, total: int)
    ensures ok <==> WellFormed(chunks)
    ensures ok ==> total == TotalOf(chunks)
  {
    total := 0;
    for i := 0 to |chunks|
      invariant WellFormed(chunks[..i]) && total == TotalOf(chunks[..i])
    {
      if chunks[i].index < 0 || chunks[i].digest == "" {
        return false, 0;
      }
      assert chunks[..i + 1][..i] == chunks[..i];
      total := Wrap64(total + |chunks[i].data|);
    }
    assert chunks[..|chunks|] == chunks;
    ok := true;
  }

  /** The destinations are ranged over in any order and sorted by ID in the end. */
  method Eligible(registry: Registry, required: int) returns (ids: seq<string>)
    requires required > 0
    ensures SortedListing(ids, EligibleIDs(registry, required))
  {
    ghost var eligible := EligibleIDs(registry, required);
    var found: seq<string> := [];
    var rest := registry.Keys;
    while rest != {}
      invariant rest <= registry.Keys
      invariant Lists(found, eligible - rest)
      decreases rest
    {
      var id :| id in rest;
      if CanHold(registry[id], required) {
        ListsExtend(found, eligible - rest, id);
        assert (eligible - rest) + {id} == eligible - (rest - {id});
        found := found + [id];
      } else {
        assert eligible - rest == eligible - (rest - {id});
      }
      rest := rest - {id};
    }
    assert eligible - {} == eligible;
    ids := SortStrings(found, eligible);
  }

  method CheckIndexes(chunks: seq<Chunk>) returns (ok: bool)
    ensures ok <==> DistinctIndexes(chunks)
  {
    var seen: set<int> := {};
    for i := 0 to |chunks|
      invariant forall x :: x in seen <==> exists j :: 0 <= j < i && chunks[j].index == x
      invariant forall j, k :: 0 <= j < k < i ==> chunks[j].index != chunks[k].index
    {
      if chunks[i].index in seen {
        return false;
      }
      seen := seen + {chunks[i].index};
    }
    ok := true;
  }

  class Dispatcher {
    const budget: BudgetStore
    const journal: JournalLog
    var completed: set<string>

    ghost predicate Valid()
      reads this, budget, journal
    {
      Numbered(journal.Contents())
    }

    ghost function Contents(): Books
      reads this, budget, journal
    {
      Books(budget.Contents(), journal.Contents(), completed)
    }

    constructor (budget: BudgetStore, journal: JournalLog)
      requires Numbered(journal.Contents()) && budget.Contents() == Budget(budget.limit, map[], 0) &&
        0 <= budget.limit <= MAX64
      ensures Valid() && Sound(Contents()) && this.budget == budget && this.journal == journal
    {
      this.budget, this.journal, completed := budget, journal, {};
    }

    method JournalPlan(plan: ReplicationPlan, closes: bool, now: int) returns (ok: bool)
      requires Valid()
      modifies budget, journal
      ensures Valid() && completed == old(completed)
      ensures ok <==> !old(journal.closed) && !closes
      ensures budget.Contents() == if ok then old(budget.Contents())
        else ReleasedBudget(old(budget.Contents()), plan.id)
      ensures journal.Contents() ==
              if ok then Appended(old(journal.Contents()), PlanEntry(plan, now))
              else old(journal.Contents()).(closed := true)
    {
      if journal.closed {
        var _ := budget.Release(plan.id);
        return false;
      }
      if closes {
        journal.SetClosed(true);
      }
      var appended := journal.Append(PlanEntry(plan, now));
      if appended.Err? {
        var _ := budget.Release(plan.id);
        return false;
      }
      ok := true;
    }

    method FinishPlan(plan: ReplicationPlan, closes: bool, now: int) returns (r: PlanResult)
      requires Valid()
      modifies budget, journal
      ensures Valid() && Contents() == Finished(old(Contents()), plan, closes, now)
      ensures r == FinishReply(old(Contents()), plan, closes)
    {
      if plan.id != "" && plan.id in budget.reservations {
        return Rejected(AlreadyReserved);
      }
      var reserved := budget.Reserve(plan.id, plan.totalBytes);
      if !reserved {
        return Rejected(QuotaExhausted);
      }
      var journalled := JournalPlan(plan, closes, now);
      r := if journalled then Planned(plan) else Rejected(PlanJournalClosed);
    }

    /** A snapshot that fails a check changes nothing and gets the first failing check as its error;
        one that passes gets its plan reserved and journalled, or the error of that. */
    method PlanSnapshot(snapshot: Snapshot, registry: Registry, closes: bool, now: int)
      returns (r: PlanResult, ghost plan: ReplicationPlan)
      requires Valid()
      modifies budget, journal
      ensures Valid()
      ensures Screened(snapshot, registry).Fails? ==>
                r == Rejected(Screened(snapshot, registry).error) && Contents() == old(Contents())
      ensures Screened(snapshot, registry).Passes? ==>
                && IsPlanFor(plan, snapshot, registry)
                && r == FinishReply(old(Contents()), plan, closes)
                && Contents() == Finished(old(Contents()), plan, closes, now)
      ensures r.Rejected? && old(Sound(Contents())) ==>
                && budget.Contents() == old(budget.Contents())
                && journal.entries == old(journal.entries) && completed == old(completed)
    {
      plan := ReplicationPlan("", "", 0, [], 0);
      if snapshot.state == Expired {
        return Rejected(NotPlanable), plan;
      }
      var ok, total := TotalSnapshotBytes(snapshot.chunks);
      if !ok {
        return Rejected(InvalidChunk), plan;
      }
      if total <= 0 {
        return Rejected(NoBytes), plan;
      }
      if snapshot.id == "" {
        return Rejected(IncompleteRequest), plan;
      }
      var destinations := Eligible(registry, total);
      ListsMembers(destinations, EligibleIDs(registry, total));
      if |destinations| == 0 {
        return Rejected(NoDestination), plan;
      }
      var distinct := CheckIndexes(snapshot.chunks);
      if !distinct {
        return Rejected(DuplicateIndex), plan;
      }
      var built := ReplicationPlan(
        PlanID(snapshot.id, snapshot.generation), snapshot.id, snapshot.generation, destinations, total);
      plan := built;
      RejectionIsHarmless(Contents(), built, closes, now);
      r := FinishPlan(built, closes, now);
    }

    method Complete(planID: string)
      requires Valid()
      modifies this`completed, budget
      ensures Valid() && Contents() == Completed(old(Contents()), planID)
    {
      if planID in completed {
        return;
      }
      completed := completed + {planID};
      var _ := budget.Release(planID);
    }
  }
}
