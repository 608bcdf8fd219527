/** The state transitions of `TaskManager` with the page taken away: each
    handler becomes a pure function from the store (and the answers the
    page would have supplied: form fields, dialog results, the clock) to
    the new store and the notification it raises. */
module TaskManager {
  import opened Options
  import opened Text
  import opened Seqs
  import opened Tasks

  datatype NoteKind = Success | Error

  /** The messages the manager's handlers show. Toggle shows one of two,
      depending on the status it switches to. */
  datatype Message =
    | TitleRequired      // add with a blank title
    | TaskAdded
    | TaskCompleted
    | TaskReopened
    | TaskDeleted
    | ValidTitleRequired // edit with a blank title
    | TaskUpdated
    | ExportSucceeded
    | ImportSucceeded
    | ImportFailed

  datatype Note = Note(kind: NoteKind, message: Message)

  /** The outcome of one handler: the new store and the notification, if any. */
  datatype Step = Step(store: Store, note: Option<Note>)

  /** The outcome of an export: the snapshot offered for download and the
      notification shown alongside it. */
  datatype Exported = Exported(snapshot: seq<Task>, note: Note)

  /** What the import file decoded to: an array of task records, or
      anything else (including text that is not valid JSON). */
  datatype Payload = TaskArray(tasks: seq<Task>) | NotAnArray

  /** `handleAddTask`: a blank title is refused with an error and nothing
      changes; otherwise a pending task with the counter's id and the trimmed
      texts is appended and the counter moves on by one. */
  function Add(s: Store, titleInput: string, descriptionInput: string,
               priority: Priority, now: int): (r: Step)
    ensures Blank(titleInput) ==> r == Step(s, Some(Note(Error, TitleRequired)))
    ensures !Blank(titleInput) ==>
      && r.note == Some(Note(Success, TaskAdded))
      && r.store.counter == s.counter + 1
      && |r.store.tasks| == |s.tasks| + 1
      && r.store.tasks[..|s.tasks|] == s.tasks
      && var t := r.store.tasks[|s.tasks|];
         && t.id == s.counter
         && t.title == Trim(titleInput) && t.title != []
         && t.description == Trim(descriptionInput)
         && t.priority == priority
         && t.status == Pending && t.completedAt == None
         && t.createdAt == now
  {
    var title := Trim(titleInput);
    if title == [] then
      Step(s, Some(Note(Error, TitleRequired)))
    else
      var t := Task(s.counter, title, Trim(descriptionInput), priority, Pending, now, None);
      Step(Store(s.tasks + [t], s.counter + 1), Some(Note(Success, TaskAdded)))
  }

  /** Two tasks agree on everything but status and completion time. */
  predicate SameExceptCompletion(a: Task, b: Task) {
    && a.id == b.id && a.title == b.title && a.description == b.description
    && a.priority == b.priority && a.createdAt == b.createdAt
  }

  /** `toggleTaskStatus`: an unknown id changes nothing and shows nothing;
      otherwise only the first task with the id flips its status, with
      `completedAt` set to `now` when it becomes completed and cleared when
      it becomes pending. */
  function Toggle(s: Store, id: int, now: int): (r: Step)
    ensures r.store.counter == s.counter
    ensures |r.store.tasks| == |s.tasks|
    ensures !HasId(s.tasks, id) ==> r == Step(s, None)
    ensures HasId(s.tasks, id) ==>
      var i := FindIndex(s.tasks, id).value;
      && (forall j :: 0 <= j < |s.tasks| && j != i ==> r.store.tasks[j] == s.tasks[j])
      && SameExceptCompletion(r.store.tasks[i], s.tasks[i])
      && r.store.tasks[i].status != s.tasks[i].status
      && CompletionConsistent(r.store.tasks[i])
      && (r.store.tasks[i].status == Completed ==> r.store.tasks[i].completedAt == Some(now))
      && r.note == Some(Note(Success, if r.store.tasks[i].status == Completed
                                      then TaskCompleted else TaskReopened))
  {
    match FindIndex(s.tasks, id)
    case None => Step(s, None)
    case Some(i) =>
      var t := s.tasks[i];
      var st := Flip(t.status);
      var t' := t.(status := st, completedAt := if st == Completed then Some(now) else None);
      Step(s.(tasks := s.tasks[i := t']),
           Some(Note(Success, if st == Completed then TaskCompleted else TaskReopened)))
  }

  /** The predicate `t => t.id !== id` of the delete handler. */
  function Other(id: int): Task -> bool {
    (t: Task) => t.id != id
  }

  /** The complement of `Other(id)`: the tasks a delete of `id` removes. */
  function Carries(id: int): Task -> bool {
    (t: Task) => t.id == id
  }

  /** The data step of `deleteTask`: every task with the id is removed, the
      rest keep their order, and the counter is left alone. */
  function Delete(s: Store, id: int): (r: Step)
    ensures r.store.counter == s.counter
    ensures !HasId(r.store.tasks, id)
    ensures forall j :: 0 <= j < |s.tasks| && s.tasks[j].id != id ==> s.tasks[j] in r.store.tasks
    ensures forall j :: 0 <= j < |r.store.tasks| ==> r.store.tasks[j] in s.tasks
    ensures IsSubsequence(r.store.tasks, s.tasks)
    ensures |r.store.tasks| + |Filter(s.tasks, Carries(id))| == |s.tasks|
    ensures !HasId(s.tasks, id) ==> r.store == s
    ensures r.note == Some(Note(Success, TaskDeleted))
  {
    var kept := Filter(s.tasks, Other(id));
    FilterIsSubsequence(s.tasks, Other(id));
    FilterPartition(s.tasks, Other(id), Carries(id));
    var r := Step(s.(tasks := kept), Some(Note(Success, TaskDeleted)));
    if HasId(s.tasks, id) then r
    else FilterKeepsAll(s.tasks, Other(id)); r
  }

  /** `editTask`, with the two `prompt` answers passed in (`None` for a
      cancelled dialog). An unknown id, a cancelled title, a blank title and a
      cancelled description all leave the store as it is (only the blank
      title raises an error); otherwise the first task with the id gets the
      trimmed title and description and keeps everything else. */
  function Edit(s: Store, id: int, titleAnswer: Option<string>,
                descriptionAnswer: Option<string>): (r: Step)
    ensures r.store.counter == s.counter
    ensures |r.store.tasks| == |s.tasks|
    ensures !HasId(s.tasks, id) || titleAnswer.None? ==> r == Step(s, None)
    ensures HasId(s.tasks, id) && titleAnswer.Some? && Blank(titleAnswer.value) ==>
      r == Step(s, Some(Note(Error, ValidTitleRequired)))
    ensures (HasId(s.tasks, id) && titleAnswer.Some? && !Blank(titleAnswer.value)
             && descriptionAnswer.None?) ==> r == Step(s, None)
    ensures (HasId(s.tasks, id) && titleAnswer.Some? && !Blank(titleAnswer.value)
             && descriptionAnswer.Some?) ==>
      var i := FindIndex(s.tasks, id).value;
      && (forall j :: 0 <= j < |s.tasks| && j != i ==> r.store.tasks[j] == s.tasks[j])
      && r.store.tasks[i].title == Trim(titleAnswer.value)
      && r.store.tasks[i].description == Trim(descriptionAnswer.value)
      && r.store.tasks[i].id == s.tasks[i].id
      && r.store.tasks[i].priority == s.tasks[i].priority
      && r.store.tasks[i].status == s.tasks[i].status
      && r.store.tasks[i].createdAt == s.tasks[i].createdAt
      && r.store.tasks[i].completedAt == s.tasks[i].completedAt
      && r.note == Some(Note(Success, TaskUpdated))
  {
    match FindIndex(s.tasks, id)
    case None => Step(s, None)
    case Some(i) =>
      match titleAnswer
      case None => Step(s, None)
      case Some(newTitle) =>
        if Trim(newTitle) == [] then
          Step(s, Some(Note(Error, ValidTitleRequired)))
        else
          match descriptionAnswer
          case None => Step(s, None)
          case Some(newDescription) =>
            var t' := s.tasks[i].(title := Trim(newTitle), description := Trim(newDescription));
            Step(s.(tasks := s.tasks[i := t']), Some(Note(Success, TaskUpdated)))
  }

  /** `exportTasks` without the download and the JSON text: a snapshot that
      an import turns back into the same list, with a counter above every id
      in it, and the success notification. */
  function Export(s: Store): (r: Exported)
    ensures forall current: Store :: Import(current, TaskArray(r.snapshot)).store.tasks == s.tasks
    ensures forall current: Store :: IdsBelowCounter(Import(current, TaskArray(r.snapshot)).store)
    ensures r.note == Note(Success, ExportSucceeded)
  {
    Exported(s.tasks, Note(Success, ExportSucceeded))
  }

  /** The `onload` step of `importTasks`: anything but an array is refused
      with an error and changes nothing; an array replaces the task list and
      the counter becomes one more than the largest id (ids below 0 count as
      0), so it exceeds every imported id and is 1 for an empty array. */
  function Import(s: Store, payload: Payload): (r: Step)
    ensures payload.NotAnArray? ==> r == Step(s, Some(Note(Error, ImportFailed)))
    ensures payload.TaskArray? ==>
      && r.store.tasks == payload.tasks
      && IdsBelowCounter(r.store)
      && r.store.counter >= 1
      && (r.store.counter == 1 || HasId(payload.tasks, r.store.counter - 1))
      && r.note == Some(Note(Success, ImportSucceeded))
  {
    match payload
    case NotAnArray => Step(s, Some(Note(Error, ImportFailed)))
    case TaskArray(ts) => Step(Store(ts, MaxId(ts) + 1), Some(Note(Success, ImportSucceeded)))
  }

  /** The three demonstration tasks `loadTasks` returns for empty storage,
      all created at `now`. */
  function Seed(now: int): (r: seq<Task>)
    ensures |r| == 3
    ensures forall j :: 0 <= j < 3 ==> r[j].id == j + 1 && r[j].createdAt == now
    ensures forall j :: 0 <= j < 3 ==> CompletionConsistent(r[j]) && r[j].title != []
    ensures r[0].priority == High && r[0].status == Pending
    ensures r[1].priority == Medium && r[1].status == Pending
    ensures r[2].priority == Low && r[2].status == Completed
  {
    [ Task(1, "تصميم الواجهة الرئيسية",
           "الانتهاء من تصميم الواجهة الرئيسية للموقع وتضمين جميع العناصر الأساسية.",
           High, Pending, now, None),
      Task(2, "تطوير النظام الخلفي",
           "بناء واجهات برمجة التطبيقات (APIs) اللازمة لإدارة المهام وتخزين البيانات.",
           Medium, Pending, now, None),
      Task(3, "اختبار التطبيق",
           "إجراء اختبارات شاملة لجميع وظائف التطبيق والتأكد من خلوه من الأخطاء.",
           Low, Completed, now, Some(now)) ]
  }

  /** The list `loadTasks` starts from: the saved list, or the seed when
      nothing is saved or the saved list is empty. */
  function LoadedTasks(saved: Option<seq<Task>>, now: int): (ts: seq<Task>)
    ensures saved.None? || saved.value == [] ==> ts == Seed(now)
    ensures saved.Some? && saved.value != [] ==> ts == saved.value
  {
    match saved
    case Some(saved) => if |saved| == 0 then Seed(now) else saved
    case None => Seed(now)
  }

  /** The constructor's `loadTasks` + `getNextTaskId`, AS WRITTEN: the counter
      is the saved one, or 1 when none is saved, whatever the list holds. */
  function Load(saved: Option<seq<Task>>, savedCounter: Option<int>, now: int): (s: Store)
    ensures s.tasks == LoadedTasks(saved, now)
    ensures savedCounter.None? ==> s.counter == 1
    ensures savedCounter.Some? ==> s.counter == savedCounter.value
  {
    Store(LoadedTasks(saved, now), savedCounter.ValueOr(1))
  }

  /** Loading as the id-counter invariant requires: the same list, and a
      counter that is at least the saved one (or 1) and above every id. */
  function LoadFixed(saved: Option<seq<Task>>, savedCounter: Option<int>, now: int): (s: Store)
    ensures s.tasks == LoadedTasks(saved, now)
    ensures IdsBelowCounter(s)
    ensures s.counter >= savedCounter.ValueOr(1)
    ensures s.counter == savedCounter.ValueOr(1) || s.counter == MaxId(s.tasks) + 1
  {
    var ts := LoadedTasks(saved, now);
    var c := savedCounter.ValueOr(1);
    Store(ts, if c > MaxId(ts) then c else MaxId(ts) + 1)
  }
}
