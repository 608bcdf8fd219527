/** Properties that relate several operations of the task manager: the id
    invariant each one keeps or breaks, inverse pairs, how the summary
    counts move, and the start-up scenarios. */
module TaskProperties {
  import opened Options
  import opened Text
  import opened Seqs
  import opened Tasks
  import opened TaskManager
  import opened TaskView

  // ---------------------------------------------------------------------
  // The id counter

  /** An add keeps every id below the counter when that held before. */
  lemma AddKeepsIdsBelowCounter(s: Store, title: string, description: string,
                                priority: Priority, now: int)
    requires IdsBelowCounter(s)
    ensures IdsBelowCounter(Add(s, title, description, priority, now).store)
  {
  }

  /** Given the counter invariant, an add cannot introduce a duplicate id. */
  lemma AddKeepsIdsUnique(s: Store, title: string, description: string,
                          priority: Priority, now: int)
    requires IdsBelowCounter(s) && UniqueIds(s.tasks)
    ensures UniqueIds(Add(s, title, description, priority, now).store.tasks)
  {
  }

  /** The ids of two lists with the same ids in the same places are below
      the same counters and are unique together. */
  lemma SameIdsSameInvariants(a: seq<Task>, b: seq<Task>, counter: int)
    requires SameIds(a, b)
    ensures IdsBelowCounter(Store(a, counter)) ==> IdsBelowCounter(Store(b, counter))
    ensures UniqueIds(a) ==> UniqueIds(b)
  {
  }

  /** Toggle never touches an id: the ids stay where they were, so it keeps
      them below the counter and unique. */
  lemma ToggleKeepsIds(s: Store, id: int, now: int)
    ensures SameIds(Toggle(s, id, now).store.tasks, s.tasks)
    ensures IdsBelowCounter(s) ==> IdsBelowCounter(Toggle(s, id, now).store)
    ensures UniqueIds(s.tasks) ==> UniqueIds(Toggle(s, id, now).store.tasks)
  {
    var r := Toggle(s, id, now).store;
    assert SameIds(s.tasks, r.tasks);
    SameIdsSameInvariants(s.tasks, r.tasks, s.counter);
  }

  /** Edit never touches an id either, and keeps the same invariants. */
  lemma EditKeepsIds(s: Store, id: int, titleAnswer: Option<string>,
                     descriptionAnswer: Option<string>)
    ensures SameIds(Edit(s, id, titleAnswer, descriptionAnswer).store.tasks, s.tasks)
    ensures IdsBelowCounter(s) ==> IdsBelowCounter(Edit(s, id, titleAnswer, descriptionAnswer).store)
    ensures UniqueIds(s.tasks) ==> UniqueIds(Edit(s, id, titleAnswer, descriptionAnswer).store.tasks)
  {
    var r := Edit(s, id, titleAnswer, descriptionAnswer).store;
    assert SameIds(s.tasks, r.tasks);
    SameIdsSameInvariants(s.tasks, r.tasks, s.counter);
  }

  /** Deleting keeps every remaining id below the unchanged counter. */
  lemma DeleteKeepsIdsBelowCounter(s: Store, id: int)
    requires IdsBelowCounter(s)
    ensures IdsBelowCounter(Delete(s, id).store)
  {
  }

  /** A successful add is an append of one task and a counter increment. */
  lemma AddAppends(s: Store, title: string, description: string,
                   priority: Priority, now: int) returns (t: Task)
    requires !Blank(title)
    ensures Add(s, title, description, priority, now).store == Store(s.tasks + [t], s.counter + 1)
    ensures t.id == s.counter && t.status == Pending
  {
    var a := Add(s, title, description, priority, now).store;
    t := a.tasks[|s.tasks|];
    assert a.tasks == a.tasks[..|s.tasks|] + [t];
  }

  /** Deleting the id an add has just handed out restores the task list;
      only the counter remembers the add. */
  lemma DeleteUndoesAdd(s: Store, title: string, description: string,
                        priority: Priority, now: int)
    requires IdsBelowCounter(s) && !Blank(title)
    ensures Delete(Add(s, title, description, priority, now).store, s.counter).store
            == Store(s.tasks, s.counter + 1)
  {
    var t := AddAppends(s, title, description, priority, now);
    var keep := Other(s.counter);
    FilterConcat(s.tasks, [t], keep);
    FilterKeepsAll(s.tasks, keep);
    assert Filter([t], keep) == [];
    DeleteIsFilter(Store(s.tasks + [t], s.counter + 1), s.counter);
  }

  /** The data step of delete is the filter on the other ids. */
  lemma DeleteIsFilter(s: Store, id: int)
    ensures Delete(s, id).store == Store(Filter(s.tasks, Other(id)), s.counter)
  {
  }

  /** Importing the list an export produced gives the same list back, with a
      counter that exceeds every id and that, where the counter invariant
      held, is no larger than the counter in force at export time. */
  lemma ImportOwnExport(s: Store, current: Store)
    ensures Import(current, TaskArray(Export(s).snapshot)).store.tasks == s.tasks
    ensures IdsBelowCounter(Import(current, TaskArray(Export(s).snapshot)).store)
    ensures IdsBelowCounter(s) && s.counter >= 1 ==>
            Import(current, TaskArray(Export(s).snapshot)).store.counter <= s.counter
  {
  }

  // ---------------------------------------------------------------------
  // Toggle

  /** Toggling the same id twice restores the status and everything else;
      `completedAt` ends up consistent with the status, which restores its
      presence whenever it was consistent before, and restores a pending
      task exactly. */
  lemma ToggleTwice(s: Store, id: int, now1: int, now2: int)
    requires HasId(s.tasks, id)
    ensures var s2 := Toggle(Toggle(s, id, now1).store, id, now2).store;
            var i := FindIndex(s.tasks, id).value;
            && s2.counter == s.counter
            && |s2.tasks| == |s.tasks|
            && (forall j :: 0 <= j < |s.tasks| && j != i ==> s2.tasks[j] == s.tasks[j])
            && s2.tasks[i].status == s.tasks[i].status
            && SameExceptCompletion(s2.tasks[i], s.tasks[i])
            && CompletionConsistent(s2.tasks[i])
            && (CompletionConsistent(s.tasks[i]) ==>
                  s2.tasks[i].completedAt.Some? == s.tasks[i].completedAt.Some?)
            && (CompletionConsistent(s.tasks[i]) && s.tasks[i].status == Pending ==> s2 == s)
  {
  }

  // ---------------------------------------------------------------------
  // Edit

  /** Giving the same answers to a second edit of the same id changes
      nothing further. */
  lemma EditIdempotent(s: Store, id: int, titleAnswer: Option<string>,
                       descriptionAnswer: Option<string>)
    ensures var s1 := Edit(s, id, titleAnswer, descriptionAnswer).store;
            Edit(s1, id, titleAnswer, descriptionAnswer).store == s1
  {
  }

  // ---------------------------------------------------------------------
  // Statistics

  /** Replacing one element changes a filter's size by what the old and the
      new element contribute. */
  lemma {:induction false} FilterUpdateSize<T>(s: seq<T>, i: nat, x: T, p: T -> bool)
    requires i < |s|
    ensures |Filter(s[i := x], p)|
            == |Filter(s, p)| - (if p(s[i]) then 1 else 0) + (if p(x) then 1 else 0)
  {
    var u := s[i := x];
    assert s == s[..i] + [s[i]] + s[i + 1..];
    assert u == s[..i] + [x] + s[i + 1..];
    FilterConcat(s[..i] + [s[i]], s[i + 1..], p);
    FilterConcat(s[..i], [s[i]], p);
    FilterConcat(s[..i] + [x], s[i + 1..], p);
    FilterConcat(s[..i], [x], p);
  }

  /** A successful add adds one to the total and to the pending count. */
  lemma StatsAfterAdd(s: Store, title: string, description: string,
                      priority: Priority, now: int)
    requires !Blank(title)
    ensures var before := Stats(s.tasks);
            var after := Stats(Add(s, title, description, priority, now).store.tasks);
            after == Statistics(before.total + 1, before.completed, before.pending + 1)
  {
    var a := Add(s, title, description, priority, now).store;
    var t := a.tasks[|s.tasks|];
    assert a.tasks == s.tasks + [t] by {
      assert a.tasks == a.tasks[..|s.tasks|] + [t];
    }
    FilterConcat(s.tasks, [t], IsCompleted);
    assert Filter([t], IsCompleted) == [];
  }

  /** Toggling a known id moves one task between the completed and the
      pending count and keeps the total. */
  lemma StatsAfterToggle(s: Store, id: int, now: int)
    requires HasId(s.tasks, id)
    ensures var before := Stats(s.tasks);
            var after := Stats(Toggle(s, id, now).store.tasks);
            && after.total == before.total
            && (s.tasks[FindIndex(s.tasks, id).value].status == Pending ==>
                  after.completed == before.completed + 1 && after.pending + 1 == before.pending)
            && (s.tasks[FindIndex(s.tasks, id).value].status == Completed ==>
                  after.completed + 1 == before.completed && after.pending == before.pending + 1)
  {
    var i := FindIndex(s.tasks, id).value;
    var r := Toggle(s, id, now).store;
    assert r.tasks == s.tasks[i := r.tasks[i]];
    FilterUpdateSize(s.tasks, i, r.tasks[i], IsCompleted);
  }

  /** The counts see nothing but the statuses: two lists with the same
      statuses in the same places have the same statistics. An edit keeps
      every status, so it never moves the counts. */
  lemma {:induction false} StatsSeeOnlyStatuses(ts: seq<Task>, us: seq<Task>)
    requires |ts| == |us|
    requires forall j :: 0 <= j < |ts| ==> ts[j].status == us[j].status
    ensures Stats(ts) == Stats(us)
  {
    if |ts| > 0 {
      StatsSeeOnlyStatuses(ts[1..], us[1..]);
    }
  }

  // ---------------------------------------------------------------------
  // Start-up

  /** Removing id 1 from four tasks of which the first and the last carry it
      leaves the middle two. */
  lemma {:induction false} DropFirstAndLast(ts: seq<Task>)
    requires |ts| == 4 && ts[0].id == 1 && ts[3].id == 1 && ts[1].id != 1 && ts[2].id != 1
    ensures Filter(ts, Other(1)) == [ts[1], ts[2]]
  {
    var p := Other(1);
    assert ts == [ts[0]] + [ts[1], ts[2]] + [ts[3]];
    FilterConcat([ts[0]] + [ts[1], ts[2]], [ts[3]], p);
    FilterConcat([ts[0]], [ts[1], ts[2]], p);
    FilterKeepsAll([ts[1], ts[2]], p);
    assert Filter([ts[0]], p) == [];
    assert Filter([ts[3]], p) == [];
  }

  /** Loading from empty storage seeds ids 1 to 3 but leaves the counter at
      1, below the seeded ids. */
  lemma SeedLeavesCounterBehind(now: int)
    ensures var s := Load(None, None, now);
            s.counter == 1 && s.tasks[0].id == 1 && !IdsBelowCounter(s)
  {
  }

  /** So the first add after seeding hands out id 1 again: the ids stop
      being unique, and toggling id 1 reaches the seed task, not the new one. */
  lemma FirstAddAfterSeedReusesId(now: int, title: string, description: string,
                                  priority: Priority, later: int)
    requires !Blank(title)
    ensures var a := Add(Load(None, None, now), title, description, priority, later).store;
            && a.tasks[3].id == 1 && a.tasks[0].id == 1
            && !UniqueIds(a.tasks)
            && Toggle(a, 1, later).store.tasks[3] == a.tasks[3]
  {
  }

  /** And deleting id 1 then removes both the seed task and the new one. */
  lemma DeleteAfterSeedRemovesBoth(now: int, title: string, description: string,
                                   priority: Priority, later: int)
    requires !Blank(title)
    ensures var a := Add(Load(None, None, now), title, description, priority, later).store;
            |Delete(a, 1).store.tasks| == 2
  {
    var s := Load(None, None, now);
    var t := AddAppends(s, title, description, priority, later);
    var a := Store(s.tasks + [t], 2);
    assert a.tasks[0] == s.tasks[0] && a.tasks[1] == s.tasks[1] && a.tasks[2] == s.tasks[2];
    DropFirstAndLast(a.tasks);
  }

  /** Filtering out an id that exactly one task carries drops one task. */
  lemma {:induction false} DropUniqueId(ts: seq<Task>, id: int)
    requires UniqueIds(ts) && HasId(ts, id)
    ensures |Filter(ts, Other(id))| == |ts| - 1
  {
    if ts[0].id == id {
      FilterKeepsAll(ts[1..], Other(id));
    } else {
      var k :| 0 <= k < |ts| && ts[k].id == id;
      assert ts[1..][k - 1].id == id;
      DropUniqueId(ts[1..], id);
    }
  }

  /** With unique ids, deleting an id that is present removes exactly one
      task; in the corrected start-up scenario below, deleting id 1 thus
      leaves three tasks, none with id 1. */
  lemma DeleteUniqueIdRemovesOne(s: Store, id: int)
    requires UniqueIds(s.tasks) && HasId(s.tasks, id)
    ensures |Delete(s, id).store.tasks| == |s.tasks| - 1
  {
    DropUniqueId(s.tasks, id);
  }

  /** After the corrected start-up from empty storage, the first add
      appends id 4 behind the seeded ids 1 to 3, and the ids are unique. */
  lemma FixedSeedThenAdd(now: int, title: string, description: string, later: int)
    requires !Blank(title)
    ensures var s := LoadFixed(None, None, now);
            var a := Add(s, title, description, Low, later).store;
            && s.counter == 4 && |a.tasks| == 4
            && a.tasks[0].id == 1 && a.tasks[3].id == 4 && a.tasks[3].status == Pending
            && UniqueIds(a.tasks)
  {
    var s := LoadFixed(None, None, now);
    var seed := Seed(now);
    assert s.tasks == seed;
    assert UniqueIds(seed) by {
      forall i, j | 0 <= i < j < 3
        ensures seed[i].id != seed[j].id
      {
        assert seed[i].id == i + 1 && seed[j].id == j + 1;
      }
    }
    assert MaxId(seed) == 3 by {
      assert seed[2].id == 3;
    }
    AddKeepsIdsUnique(s, title, description, Low, later);
    var t := AddAppends(s, title, description, Low, later);
  }

  /** With the counter raised above the seeded ids, the start-up scenario
      behaves as the id invariant promises: the first add gets id 4,
      toggling it completes it, the ids stay unique, and deleting id 1 then
      leaves three tasks (none with id 1, by the contract of `Delete`). */
  lemma SeedScenarioFixed(now: int, title: string, description: string, later: int)
    requires !Blank(title)
    ensures var a := Add(LoadFixed(None, None, now), title, description, Low, later).store;
            var b := Toggle(a, 4, later).store;
            && a.tasks[3].id == 4 && a.tasks[3].status == Pending
            && b.tasks[3].status == Completed && b.tasks[3].completedAt == Some(later)
            && UniqueIds(b.tasks)
            && |Delete(b, 1).store.tasks| == 3
  {
    var a := Add(LoadFixed(None, None, now), title, description, Low, later).store;
    FixedSeedThenAdd(now, title, description, later);
    ToggleAfterFixedSeed(a, later);
  }

  /** The toggle and delete steps of the scenario, on any four tasks with
      unique ids where the first carries id 1 and the last id 4. */
  lemma ToggleAfterFixedSeed(a: Store, later: int)
    requires |a.tasks| == 4 && a.tasks[0].id == 1 && a.tasks[3].id == 4
    requires a.tasks[3].status == Pending && UniqueIds(a.tasks)
    ensures var b := Toggle(a, 4, later).store;
            && b.tasks[3].status == Completed && b.tasks[3].completedAt == Some(later)
            && UniqueIds(b.tasks)
            && |Delete(b, 1).store.tasks| == 3
  {
    assert FindIndex(a.tasks, 4) == Some(3);
    var b := Toggle(a, 4, later).store;
    ToggleKeepsIds(a, 4, later);
    assert b.tasks[0].id == 1;
    DeleteUniqueIdRemovesOne(b, 1);
  }

  /** `formatDate` as written labels a task rendered in the very millisecond
      it was created "0 days ago"; the corrected labelling reads "today". */
  lemma SameInstantIsZeroDaysAgo()
    ensures RelativeDate(0) == DaysAgo(0)
    ensures RelativeDateFixed(0) == Today
  {
  }
}
