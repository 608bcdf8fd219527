/** The task record of `TaskManager` and the task list with its id counter,
    plus the lookups the operations share. */
module Tasks {
  import opened Options

  datatype Priority = High | Medium | Low

  datatype Status = Pending | Completed

  /** One entry of the list. Timestamps are opaque millisecond instants;
      `completedAt` is `None` where the browser code stores `null`. */
  datatype Task = Task(
    id: int,
    title: string,
    description: string,
    priority: Priority,
    status: Status,
    createdAt: int,
    completedAt: Option<int>)

  /** The manager's state: the task list in display order, and the id the
      next added task receives. */
  datatype Store = Store(tasks: seq<Task>, counter: int)

  predicate IsCompleted(t: Task) {
    t.status == Completed
  }

  predicate IsPending(t: Task) {
    t.status == Pending
  }

  /** The status a checkbox click switches to. */
  function Flip(st: Status): (r: Status)
    ensures r != st
  {
    if st == Completed then Pending else Completed
  }

  /** `completedAt` is set exactly when the task is completed: what every
      task the manager itself creates or toggles satisfies. */
  predicate CompletionConsistent(t: Task) {
    t.completedAt.Some? <==> t.status == Completed
  }

  predicate HasId(ts: seq<Task>, id: int) {
    exists j :: 0 <= j < |ts| && ts[j].id == id
  }

  /** `tasks.find(t => t.id === id)`, as the position of the FIRST task with
      that id, or `None` when no task has it. */
  function FindIndex(ts: seq<Task>, id: int): (r: Option<nat>)
    ensures r.Some? ==> r.value < |ts| && ts[r.value].id == id
    ensures r.Some? ==> forall j :: 0 <= j < r.value ==> ts[j].id != id
    ensures r.None? <==> !HasId(ts, id)
  {
    if |ts| == 0 then None
    else if ts[0].id == id then Some(0)
    else match FindIndex(ts[1..], id)
      case None => None
      case Some(i) => Some(i + 1)
  }

  /** `Math.max(...ids, 0)`: the largest id, and 0 when there is none or all
      ids are negative. */
  function MaxId(ts: seq<Task>): (r: int)
    ensures r >= 0
    ensures forall j :: 0 <= j < |ts| ==> ts[j].id <= r
    ensures r == 0 || HasId(ts, r)
  {
    if |ts| == 0 then 0
    else
      var m := MaxId(ts[1..]);
      if ts[0].id > m then ts[0].id else m
  }

  /** Every id in the list is below the counter, so the next add cannot
      collide with an existing task. */
  ghost predicate IdsBelowCounter(s: Store) {
    forall j :: 0 <= j < |s.tasks| ==> s.tasks[j].id < s.counter
  }

  ghost predicate UniqueIds(ts: seq<Task>) {
    forall i, j :: 0 <= i < j < |ts| ==> ts[i].id != ts[j].id
  }

  /** Two lists carry the same ids at the same positions. */
  ghost predicate SameIds(a: seq<Task>, b: seq<Task>) {
    |a| == |b| && forall j :: 0 <= j < |a| ==> a[j].id == b[j].id
  }

}
