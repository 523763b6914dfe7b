/** internal/retry/queue.go and internal/service/worker.go: scheduled retries and their workers. */
module RetryQueue {
  import opened Ordering

  datatype RetryTask = RetryTask(id: string, snapshotID: string, generation: nat, attempt: int, dueAt: int)

  datatype State = State(tasks: map<string, RetryTask>, cancelled: map<string, nat>)

  function CancelledTo(q: State, snapshotID: string): nat {
    if snapshotID in q.cancelled then q.cancelled[snapshotID] else 0
  }

  predicate Refused(q: State, task: RetryTask) {
    CancelledTo(q, task.snapshotID) >= task.generation
  }

  // ---------- one store call is one step ----------

  function Scheduled(q: State, task: RetryTask): State {
    if Refused(q, task) then q else q.(tasks := q.tasks[task.id := task])
  }

  function Cancelled(q: State, snapshotID: string, generation: nat): State {
    State(
      map id | id in q.tasks && !(q.tasks[id].snapshotID == snapshotID && q.tasks[id].generation <= generation)
        :: q.tasks[id],
      if generation > CancelledTo(q, snapshotID) then q.cancelled[snapshotID := generation] else q.cancelled)
  }

  function Completed(q: State, task: RetryTask): State {
    q.(tasks := q.tasks - {task.id})
  }

  function Rescheduled(q: State, task: RetryTask, due: int): State {
    if Refused(q, task) then q.(tasks := q.tasks - {task.id})
    else q.(tasks := q.tasks[task.id := task.(attempt := task.attempt + 1, dueAt := due)])
  }

  function DueTasks(q: State, now: int): map<string, RetryTask> {
    map id | id in q.tasks && q.tasks[id].dueAt <= now && !Refused(q, q.tasks[id]) :: q.tasks[id]
  }

  ghost function DueSet(q: State, now: int): set<RetryTask> {
    DueTasks(q, now).Values
  }

  predicate DueOrder(a: RetryTask, b: RetryTask) {
    a.dueAt < b.dueAt || (a.dueAt == b.dueAt && LexLeq(a.id, b.id))
  }

  lemma DueOrderIsTotal()
    ensures TotalPreorder(DueOrder)
  {
    forall a, b ensures DueOrder(a, b) || DueOrder(b, a) { LexTrichotomy(a.id, b.id); }
    forall a, b, c | DueOrder(a, b) && DueOrder(b, c) ensures DueOrder(a, c) {
      if a.dueAt == b.dueAt == c.dueAt { LexLeqTransitive(a.id, b.id, c.id); }
    }
  }

  /** Every task is filed under its own ID and is above the cancellation mark of its snapshot. */
  ghost predicate Inv(q: State) {
    forall id :: id in q.tasks ==> q.tasks[id].id == id && !Refused(q, q.tasks[id])
  }

  /** `Due` has one possible answer: the due tasks in (DueAt, ID) order. */
  ghost predicate IsDueList(q: State, now: int, due: seq<RetryTask>) {
    Lists(due, DueSet(q, now)) && Ascending(due, DueOrder)
  }

  lemma DueListIsUnique(q: State, now: int, a: seq<RetryTask>, b: seq<RetryTask>)
    requires Inv(q) && IsDueList(q, now, a) && IsDueList(q, now, b)
    ensures a == b
  {
    DueOrderIsTotal();
    ListsMembers(a, DueSet(q, now));
    forall x, y | x in a && y in a && DueOrder(x, y) && DueOrder(y, x) ensures x == y {
      LexTrichotomy(x.id, y.id);
    }
    SortedIsUnique(a, b, DueOrder);
  }

  class Queue {
    var tasks: map<string, RetryTask>
    var cancelled: map<string, nat>

    ghost function Contents(): State
      reads this
    {
      State(tasks, cancelled)
    }

    constructor ()
      ensures Contents() == State(map[], map[]) && Inv(Contents())
    {
      tasks, cancelled := map[], map[];
    }

    method Schedule(task: RetryTask) returns (ok: bool)
      requires Inv(Contents())
      modifies this
      ensures Inv(Contents()) && Contents() == Scheduled(old(Contents()), task)
      ensures ok <==> !Refused(old(Contents()), task)
    {
      var generation := if task.snapshotID in cancelled then cancelled[task.snapshotID] else 0;
      if generation >= task.generation {
        return false;
      }
      tasks := tasks[task.id := task];
      ok := true;
    }

    method Cancel(snapshotID: string, generation: nat)
      requires Inv(Contents())
      modifies this
      ensures Inv(Contents()) && Contents() == Cancelled(old(Contents()), snapshotID, generation)
    {
      var current := if snapshotID in cancelled then cancelled[snapshotID] else 0;
      if generation > current {
        cancelled := cancelled[snapshotID := generation];
      }
      var pending := tasks.Keys;
      while pending != {}
        invariant pending <= tasks.Keys <= old(tasks).Keys
        invariant cancelled == Cancelled(old(Contents()), snapshotID, generation).cancelled
        invariant forall id :: id in tasks ==> tasks[id] == old(tasks)[id]
        invariant forall id :: id in old(tasks) && id !in pending ==>
          (id in tasks <==> !(old(tasks)[id].snapshotID == snapshotID && old(tasks)[id].generation <= generation))
        decreases pending
      {
        var id :| id in pending;
        pending := pending - {id};
        if tasks[id].snapshotID == snapshotID && tasks[id].generation <= generation {
          tasks := tasks - {id};
        }
      }
      assert tasks == Cancelled(old(Contents()), snapshotID, generation).tasks;
    }

    method Due(now: int) returns (due: seq<RetryTask>)
      requires Inv(Contents())
      ensures IsDueList(Contents(), now, due)
    {
      var ready := DueTasks(State(tasks, cancelled), now);
      due := Values(ready);
      DueOrderIsTotal();
      due := Sort(due, DueOrder);
    }

    method Complete(task: RetryTask)
      requires Inv(Contents())
      modifies this
      ensures Inv(Contents()) && Contents() == Completed(old(Contents()), task)
    {
      tasks := tasks - {task.id};
    }

    method RescheduleAfterFailure(task: RetryTask, due: int) returns (ok: bool)
      requires Inv(Contents())
      modifies this
      ensures Inv(Contents()) && Contents() == Rescheduled(old(Contents()), task, due)
      ensures ok <==> !Refused(old(Contents()), task)
    {
      var generation := if task.snapshotID in cancelled then cancelled[task.snapshotID] else 0;
      if generation >= task.generation {
        tasks := tasks - {task.id};
        return false;
      }
      tasks := tasks[task.id := task.(attempt := task.attempt + 1, dueAt := due)];
      ok := true;
    }
  }

  datatype RetryOutcome = NothingDue | Sent(task: RetryTask) | PutBack(task: RetryTask, accepted: bool)

  /** `RunRetry` when nothing interferes: the first due task is sent, then completed or put back. */
  method RunRetry(queue: Queue, now: int, sendSucceeds: bool, later: int) returns (r: RetryOutcome)
    requires Inv(queue.Contents())
    modifies queue
    ensures Inv(queue.Contents())
    ensures r.NothingDue? <==> DueSet(old(queue.Contents()), now) == {}
    ensures r.NothingDue? ==> queue.Contents() == old(queue.Contents())
    ensures !r.NothingDue? ==> FirstDue(old(queue.Contents()), now, r.task)
    ensures !r.NothingDue? ==>
              queue.Contents() == if sendSucceeds then Completed(old(queue.Contents()), r.task)
                                  else Rescheduled(old(queue.Contents()), r.task, later)
  {
    var due := queue.Due(now);
    ListsMembers(due, DueSet(queue.Contents(), now));
    if |due| == 0 {
      return NothingDue;
    }
    var task := due[0];
    assert task in due;
    if !sendSucceeds {
      var accepted := queue.RescheduleAfterFailure(task, later);
      return PutBack(task, accepted);
    }
    queue.Complete(task);
    r := Sent(task);
  }

  // ---------- workers, one store call at a time ----------

  /** `RunRetry` split into its atomic parts: `Take` (the `Due` call and choosing its first task) and
      `Report` (completion or rescheduling after the send). Other calls may fall in between. */
  datatype Call =
    | ScheduleCall(task: RetryTask)
    | CancelCall(snapshotID: string, generation: nat)
    | Take(worker: int, now: int)
    | Report(worker: int, sent: bool, due: int)

  datatype World = World(queue: State, held: map<int, RetryTask>)

  ghost predicate FirstDue(q: State, now: int, task: RetryTask) {
    exists due :: IsDueList(q, now, due) && due != [] && due[0] == task
  }

  /** The worker holds the first due task, or nothing if there is none. */
  ghost predicate Next(w: World, call: Call, w': World) {
    match call
    case ScheduleCall(task) => w' == w.(queue := Scheduled(w.queue, task))
    case CancelCall(s, g) => w' == w.(queue := Cancelled(w.queue, s, g))
    case Take(worker, now) =>
      w'.queue == w.queue &&
      if DueSet(w.queue, now) == {} then w'.held == w.held - {worker}
      else worker in w'.held && w'.held == w.held[worker := w'.held[worker]] && FirstDue(w.queue, now, w'.held[worker])
    case Report(worker, sent, due) =>
      if worker !in w.held then w' == w
      else w' == World(
        if sent then Completed(w.queue, w.held[worker]) else Rescheduled(w.queue, w.held[worker], due),
        w.held - {worker})
  }

  ghost predicate Run(worlds: seq<World>, calls: seq<Call>) {
    |worlds| == |calls| + 1 && forall i :: 0 <= i < |calls| ==> Next(worlds[i], calls[i], worlds[i + 1])
  }

  /** Generations up to `g` of snapshot `s` are out of the queue for good. */
  ghost predicate Fenced(q: State, s: string, g: nat) {
    CancelledTo(q, s) >= g && forall id :: id in q.tasks && q.tasks[id].snapshotID == s ==> q.tasks[id].generation > g
  }

  lemma CancelFences(q: State, s: string, g: nat)
    ensures Fenced(Cancelled(q, s, g), s, g)
  {
  }

  lemma NextKeepsFence(w: World, call: Call, w': World, s: string, g: nat)
    requires Next(w, call, w') && Fenced(w.queue, s, g)
    ensures Fenced(w'.queue, s, g)
  {
  }

  lemma {:induction false} RunKeepsFence(worlds: seq<World>, calls: seq<Call>, s: string, g: nat, i: nat, j: nat)
    requires Run(worlds, calls) && i <= j <= |calls| && Fenced(worlds[i].queue, s, g)
    ensures Fenced(worlds[j].queue, s, g)
    decreases j
  {
    if i < j {
      RunKeepsFence(worlds, calls, s, g, i, j - 1);
      NextKeepsFence(worlds[j - 1], calls[j - 1], worlds[j], s, g);
    }
  }

  /** However workers interleave, after `Cancel(s, g)` no `Due` call returns, and no worker takes, a
      task of `s` with generation at most `g`: not even one that a worker had taken before the
      cancellation and puts back on failure. */
  lemma CancellationIsPermanent(worlds: seq<World>, calls: seq<Call>, i: nat, j: nat, s: string, g: nat, now: int)
    requires Run(worlds, calls) && i < j <= |calls| && calls[i] == CancelCall(s, g)
    ensures forall t :: t in DueSet(worlds[j].queue, now) && t.snapshotID == s ==> t.generation > g
    ensures j < |calls| && calls[j].Take? && calls[j].worker in worlds[j + 1].held ==>
              var t := worlds[j + 1].held[calls[j].worker]; t.snapshotID == s ==> t.generation > g
  {
    CancelFences(worlds[i].queue, s, g);
    RunKeepsFence(worlds, calls, s, g, i + 1, j);
    if j < |calls| && calls[j].Take? && calls[j].worker in worlds[j + 1].held {
      var q := worlds[j].queue;
      if DueSet(q, calls[j].now) != {} {
        var t := worlds[j + 1].held[calls[j].worker];
        var due :| IsDueList(q, calls[j].now, due) && due != [] && due[0] == t;
        ListsMembers(due, DueSet(q, calls[j].now));
        assert t in DueSet(q, calls[j].now);
      }
    }
  }

  // ---------- what is due, and what leaves the queue ----------

  /** The list holds exactly the tasks due by `now` above their cancellation mark, earlier due times
      first, and by ID among equal times. */
  lemma DueListIsOrdered(q: State, now: int, due: seq<RetryTask>)
    requires Inv(q) && IsDueList(q, now, due)
    ensures forall t :: t in due <==>
      t.id in q.tasks && q.tasks[t.id] == t && t.dueAt <= now && CancelledTo(q, t.snapshotID) < t.generation
    ensures forall i, j :: 0 <= i < j < |due| ==>
      due[i].dueAt < due[j].dueAt || (due[i].dueAt == due[j].dueAt && LexLess(due[i].id, due[j].id))
  {
    ListsMembers(due, DueSet(q, now));
    forall t ensures t in due <==>
      t.id in q.tasks && q.tasks[t.id] == t && t.dueAt <= now && CancelledTo(q, t.snapshotID) < t.generation
    {
      DueSetHas(q, now, t);
    }
    forall i, j | 0 <= i < j < |due|
      ensures due[i].dueAt < due[j].dueAt || (due[i].dueAt == due[j].dueAt && LexLess(due[i].id, due[j].id))
    {
      ListsDistinct(due, DueSet(q, now), i, j);
      assert DueOrder(due[i], due[j]);
      assert due[i] in due && due[j] in due;
      LexTrichotomy(due[i].id, due[j].id);
    }
  }

  lemma DueSetHas(q: State, now: int, t: RetryTask)
    requires Inv(q)
    ensures t in DueSet(q, now) <==>
      t.id in q.tasks && q.tasks[t.id] == t && t.dueAt <= now && CancelledTo(q, t.snapshotID) < t.generation
  {
    if t.id in q.tasks && q.tasks[t.id] == t && t.dueAt <= now && CancelledTo(q, t.snapshotID) < t.generation {
      assert DueTasks(q, now)[t.id] == t;
    }
  }

  /** A call that does not touch the task filed under this ID. */
  predicate LeavesTask(w: World, call: Call, t: RetryTask) {
    match call
    case ScheduleCall(task) => task.id != t.id
    case CancelCall(s, g) => s == t.snapshotID ==> g < t.generation
    case Take(_, _) => true
    case Report(worker, _, _) => worker in w.held ==> w.held[worker].id != t.id
  }

  predicate Filed(q: State, t: RetryTask) {
    t.id in q.tasks && q.tasks[t.id] == t && CancelledTo(q, t.snapshotID) < t.generation
  }

  lemma NextKeepsFiled(w: World, call: Call, w': World, t: RetryTask)
    requires Next(w, call, w') && LeavesTask(w, call, t) && Filed(w.queue, t)
    ensures Filed(w'.queue, t)
  {
  }

  lemma {:induction false} FiledStays(worlds: seq<World>, calls: seq<Call>, i: nat, j: nat, t: RetryTask)
    requires Run(worlds, calls) && i <= j <= |calls| && Filed(worlds[i].queue, t)
    requires forall k :: i <= k < j ==> LeavesTask(worlds[k], calls[k], t)
    ensures Filed(worlds[j].queue, t)
    decreases j
  {
    if i < j {
      FiledStays(worlds, calls, i, j - 1, t);
      NextKeepsFiled(worlds[j - 1], calls[j - 1], worlds[j], t);
    }
  }

  /** A task scheduled above its cancellation mark is due exactly from its due time on, in every
      interleaving that does not cancel, replace or report it; one that is not above changes nothing. */
  lemma ScheduledIsDue(worlds: seq<World>, calls: seq<Call>, i: nat, j: nat, t: RetryTask, now: int)
    requires Run(worlds, calls) && i < j <= |calls| && calls[i] == ScheduleCall(t) && Inv(worlds[j].queue)
    requires forall k :: i < k < j ==> LeavesTask(worlds[k], calls[k], t)
    ensures if CancelledTo(worlds[i].queue, t.snapshotID) >= t.generation then worlds[i + 1] == worlds[i]
            else t in DueSet(worlds[j].queue, now) <==> t.dueAt <= now
  {
    assert Next(worlds[i], calls[i], worlds[i + 1]);
    if CancelledTo(worlds[i].queue, t.snapshotID) < t.generation {
      FiledStays(worlds, calls, i + 1, j, t);
      DueSetHas(worlds[j].queue, now, t);
    }
  }

  /** A call that files a task under this ID: scheduling it, or putting back a task taken before. */
  predicate Files(w: World, call: Call, id: string) {
    match call
    case ScheduleCall(task) => task.id == id
    case CancelCall(_, _) => false
    case Take(_, _) => false
    case Report(worker, sent, _) => worker in w.held && w.held[worker].id == id && !sent
  }

  lemma {:induction false} AbsentStays(worlds: seq<World>, calls: seq<Call>, i: nat, j: nat, id: string)
    requires Run(worlds, calls) && i <= j <= |calls| && id !in worlds[i].queue.tasks
    requires forall k :: i <= k < j ==> !Files(worlds[k], calls[k], id)
    ensures id !in worlds[j].queue.tasks
    decreases j
  {
    if i < j {
      AbsentStays(worlds, calls, i, j - 1, id);
      assert Next(worlds[j - 1], calls[j - 1], worlds[j]) && !Files(worlds[j - 1], calls[j - 1], id);
    }
  }

  /** A task reported as sent is gone, and stays gone in every interleaving that neither schedules its ID
      again nor puts back a copy another worker took. */
  lemma SentTaskIsGone(worlds: seq<World>, calls: seq<Call>, i: nat, j: nat, now: int)
    requires Run(worlds, calls) && i < j <= |calls| && Inv(worlds[j].queue)
    requires calls[i].Report? && calls[i].sent && calls[i].worker in worlds[i].held
    requires forall k :: i < k < j ==> !Files(worlds[k], calls[k], worlds[i].held[calls[i].worker].id)
    ensures var id := worlds[i].held[calls[i].worker].id;
      id !in worlds[j].queue.tasks && forall t :: t in DueSet(worlds[j].queue, now) ==> t.id != id
  {
    var id := worlds[i].held[calls[i].worker].id;
    assert Next(worlds[i], calls[i], worlds[i + 1]);
    AbsentStays(worlds, calls, i + 1, j, id);
    forall t | t in DueSet(worlds[j].queue, now) ensures t.id != id {
      DueSetHas(worlds[j].queue, now, t);
    }
  }

  /** A failed task above its mark is filed again under its ID, one attempt later, and falls due exactly
      from the new time on; otherwise it is gone. */
  lemma PutBackIsDueLater(w: World, worker: int, due: int, w': World, now: int)
    requires Inv(w.queue) && worker in w.held && Next(w, Report(worker, false, due), w')
    ensures var t := w.held[worker];
      var again := RetryTask(t.id, t.snapshotID, t.generation, t.attempt + 1, due);
      if CancelledTo(w.queue, t.snapshotID) >= t.generation then t.id !in w'.queue.tasks
      else Inv(w'.queue) && w'.queue.tasks[t.id] == again && (again in DueSet(w'.queue, now) <==> due <= now)
  {
    var t := w.held[worker];
    if CancelledTo(w.queue, t.snapshotID) < t.generation {
      DueSetHas(w'.queue, now, RetryTask(t.id, t.snapshotID, t.generation, t.attempt + 1, due));
    }
  }
}
