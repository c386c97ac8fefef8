/** TaskService: the task store and its lifecycle operations. Each operation is one atomic step on the
    store (a transaction); the store is the table of the repository, keyed by id. */
module Services {
  import opened Wrappers
  import opened Models
  import opened Paging
  import opened Repositories
  import opened TaskResponseDto
  import opened Exceptions

  /** What the store always satisfies: rows keyed by their own id, ids below the next one to be
      generated, and deletedAt set exactly on soft-deleted rows. */
  predicate StoreInvariant(store: Store, nextId: TaskId) {
    && nextId >= 1
    && forall id | id in store ::
         && store[id].id == id
         && 1 <= id < nextId
         && (store[id].deletedAt.Some? <==> store[id].deleted)
  }

  /** Soft-deleted rows are never touched again. */
  predicate DeletedRowsFrozen(before: Store, after: Store) {
    forall id | id in before && before[id].deleted :: id in after && after[id] == before[id]
  }

  /** createNewTaskObject, persisted under `id`: status PENDING whatever the request, priority MEDIUM
      when the request has none, and the creation stamps set to `now`. */
  function NewTask(id: TaskId, draft: TaskDraft, now: Timestamp): (t: Task)
    ensures t.id == id && t.title == draft.title && t.description == draft.description
    ensures t.dueDateTime == draft.dueDateTime
    ensures t.status == PENDING
    ensures t.priority == draft.priority.GetOr(MEDIUM)
    ensures !t.deleted && t.deletedAt.None? && t.createdAt == now && t.updatedAt == now
  {
    var priority := if draft.priority.Some? then draft.priority.value else MEDIUM;
    Task(id, draft.title, draft.description, PENDING, priority, draft.dueDateTime, now, now, false, None)
  }

  /** A new task due now or later is not overdue when created. */
  lemma NewTaskNotOverdue(id: TaskId, draft: TaskDraft, now: Timestamp)
    requires draft.dueDateTime >= now
    ensures !IsOverdue(NewTask(id, draft, now), now)
    ensures !FromEntity(NewTask(id, draft, now), now).overdue
  {
  }

  /** The store after saving one new task per draft under consecutive ids from `first`: the old rows
      untouched and the new rows in draft order. */
  ghost predicate StoresDrafts(before: Store, first: TaskId, drafts: seq<TaskDraft>, now: Timestamp, after: Store, next: TaskId) {
    && next == first + |drafts|
    && (forall id :: id in after <==> id in before || first <= id < next)
    && (forall id :: id in before ==> after[id] == before[id])
    && (forall i :: 0 <= i < |drafts| ==> first + i in after && after[first + i] == NewTask(first + i, drafts[i], now))
  }

  /** Saving a changed row refreshes its update stamp. */
  function Saved(t: Task, now: Timestamp): Task {
    t.(updatedAt := now)
  }

  /** updateTask's effect: the five request fields replaced, everything else kept. */
  function Updated(t: Task, u: TaskUpdate, now: Timestamp): (r: Task)
    ensures r.id == t.id && r.createdAt == t.createdAt && r.deleted == t.deleted && r.deletedAt == t.deletedAt
    ensures r.title == u.title && r.description == u.description && r.dueDateTime == u.dueDateTime
    ensures r.status == u.status && r.priority == u.priority && r.updatedAt == now
  {
    Task(t.id, u.title, u.description, u.status, u.priority, u.dueDateTime, t.createdAt, now, t.deleted, t.deletedAt)
  }

  /** updateTaskStatus's effect: only the status (and the update stamp) change. */
  function StatusChanged(t: Task, status: TaskStatus, now: Timestamp): (r: Task)
    ensures r.status == status && r.updatedAt == now
    ensures r.(status := t.status, updatedAt := t.updatedAt) == t
  {
    t.(status := status, updatedAt := now)
  }

  /** deleteTask's effect: the row is marked deleted at `now`. */
  function SoftDeleted(t: Task, now: Timestamp): (r: Task)
    ensures r.deleted && r.deletedAt == Some(now) && r.updatedAt == now
    ensures r.(deleted := t.deleted, deletedAt := t.deletedAt, updatedAt := t.updatedAt) == t
  {
    t.(deleted := true, deletedAt := Some(now), updatedAt := now)
  }

  /** The ids a bulk operation acts on: listed, present and live. */
  function Affected(store: Store, ids: seq<TaskId>): (a: set<TaskId>)
    ensures forall id :: id in a <==> id in ids && id in store && !store[id].deleted
  {
    set id | id in ids && id in store && !store[id].deleted
  }

  /** The store with `f` applied to the rows whose ids are in `done`. */
  function ApplyTo(store: Store, done: set<TaskId>, f: Task -> Task): (s: Store)
    ensures s.Keys == store.Keys
    ensures forall id | id in store :: s[id] == if id in done then f(store[id]) else store[id]
  {
    map id | id in store :: if id in done then f(store[id]) else store[id]
  }

  /** Applying `f` to one more row is one more map update. */
  lemma ApplyToStep(store: Store, done: set<TaskId>, x: TaskId, f: Task -> Task)
    requires x in store && x !in done
    ensures ApplyTo(store, done + {x}, f) == ApplyTo(store, done, f)[x := f(store[x])]
  {
  }

  lemma ApplyToNothing(store: Store, f: Task -> Task)
    ensures ApplyTo(store, {}, f) == store
  {
  }

  /** deleteTasks's effect on the store: every affected row soft-deleted at the same instant. */
  function BulkDeleted(store: Store, ids: seq<TaskId>, now: Timestamp): (s: Store)
    ensures s.Keys == store.Keys
  {
    ApplyTo(store, Affected(store, ids), (t: Task) => SoftDeleted(t, now))
  }

  /** updateTasksStatus's effect on the store. */
  function BulkStatusChanged(store: Store, ids: seq<TaskId>, status: TaskStatus, now: Timestamp): (s: Store)
    ensures s.Keys == store.Keys
  {
    ApplyTo(store, Affected(store, ids), (t: Task) => StatusChanged(t, status, now))
  }

  // ---------------------------------------------------------------- properties of the effects

  lemma {:induction false} SetOfSeqBound(ids: seq<TaskId>)
    ensures |set id | id in ids| <= |ids|
  {
    if ids != [] {
      SetOfSeqBound(ids[1..]);
      assert (set id | id in ids) == {ids[0]} + (set id | id in ids[1..]);
    }
  }

  /** A bulk operation affects at most as many rows as ids were given, and none for an empty list. */
  lemma AffectedBounds(store: Store, ids: seq<TaskId>)
    ensures |Affected(store, ids)| <= |ids|
    ensures ids == [] ==> Affected(store, ids) == {}
  {
    SetOfSeqBound(ids);
    assert Affected(store, ids) <= set id | id in ids;
    SubsetCardinality(Affected(store, ids), set id | id in ids);
  }

  lemma SubsetCardinality<T>(a: set<T>, b: set<T>)
    requires a <= b
    ensures |a| <= |b|
  {
    assert b == a + (b - a);
  }

  lemma {:induction false} DistinctSeqSetSize(ids: seq<TaskId>)
    requires forall i, j :: 0 <= i < j < |ids| ==> ids[i] != ids[j]
    ensures |set id | id in ids| == |ids|
  {
    if ids != [] {
      DistinctSeqSetSize(ids[1..]);
      assert (set id | id in ids) == {ids[0]} + (set id | id in ids[1..]);
      assert ids[0] !in ids[1..];
    }
  }

  /** The listed ids that a bulk operation skips: unknown or already deleted. */
  function Skipped(store: Store, ids: seq<TaskId>): (k: set<TaskId>)
    ensures forall id :: id in k <==> id in ids && (id !in store || store[id].deleted)
  {
    set id | id in ids && (id !in store || store[id].deleted)
  }

  /** With distinct ids, the count is the number of ids minus the skipped ones. */
  lemma AffectedOfDistinctIds(store: Store, ids: seq<TaskId>)
    requires forall i, j :: 0 <= i < j < |ids| ==> ids[i] != ids[j]
    ensures |Affected(store, ids)| == |ids| - |Skipped(store, ids)|
  {
    DistinctSeqSetSize(ids);
    var a := Affected(store, ids);
    var k := Skipped(store, ids);
    assert a + k == set id | id in ids;
    assert a * k == {};
  }

  /** The rows a bulk operation loads are exactly the affected ones, one per id, so its count is |Affected|. */
  lemma FoundRowsAreAffected(store: Store, nextId: TaskId, ids: seq<TaskId>)
    requires StoreInvariant(store, nextId)
    ensures var found := FindByIdInAndDeletedFalse(TableScan(store, 1, nextId), ids);
            && IdSet(found) == Affected(store, ids)
            && |found| == |Affected(store, ids)|
            && forall t :: t in found ==> store[t.id] == t
  {
    var found := FindByIdInAndDeletedFalse(TableScan(store, 1, nextId), ids);
    forall id | id in Affected(store, ids) ensures id in IdSet(found) {
      assert store[id] in found;
    }
    DistinctRowsCount(found);
  }

  lemma BulkDeletedKeepsInvariant(store: Store, nextId: TaskId, ids: seq<TaskId>, now: Timestamp)
    requires StoreInvariant(store, nextId)
    ensures StoreInvariant(BulkDeleted(store, ids, now), nextId)
    ensures DeletedRowsFrozen(store, BulkDeleted(store, ids, now))
  {
  }

  lemma BulkStatusChangedKeepsInvariant(store: Store, nextId: TaskId, ids: seq<TaskId>, status: TaskStatus, now: Timestamp)
    requires StoreInvariant(store, nextId)
    ensures StoreInvariant(BulkStatusChanged(store, ids, status, now), nextId)
    ensures DeletedRowsFrozen(store, BulkStatusChanged(store, ids, status, now))
  {
  }

  /** After a bulk delete none of the listed ids can be found, every affected row carries the same
      deletedAt, and repeating the delete affects nothing. */
  lemma BulkDeleteHidesAll(store: Store, ids: seq<TaskId>, now: Timestamp)
    ensures var after := BulkDeleted(store, ids, now);
            && (forall id :: id in ids ==> FindByIdAndDeletedFalse(after, id).None?)
            && (forall id :: id in Affected(store, ids) ==> after[id].deletedAt == Some(now))
            && Affected(after, ids) == {}
  {
    var after := BulkDeleted(store, ids, now);
    forall id | id in ids && id in after ensures after[id].deleted {
    }
    assert forall id :: id !in Affected(after, ids);
  }

  /** A bulk status change moves every affected row to the status and leaves all other rows alone. */
  lemma BulkStatusReachesAll(store: Store, ids: seq<TaskId>, status: TaskStatus, now: Timestamp)
    ensures var after := BulkStatusChanged(store, ids, status, now);
            && (forall id :: id in Affected(store, ids) ==> after[id].status == status)
            && (forall id | id in store && id !in Affected(store, ids) :: after[id] == store[id])
            && Affected(after, ids) == Affected(store, ids)
  {
    var after := BulkStatusChanged(store, ids, status, now);
    forall id | id in store ensures after[id].deleted == store[id].deleted {
    }
    assert forall id :: id in Affected(after, ids) <==> id in Affected(store, ids);
  }

  /** After a soft delete the id is not found again, so a second delete fails. */
  lemma DeleteThenNotFound(store: Store, id: TaskId, now: Timestamp)
    requires id in store
    ensures FindByIdAndDeletedFalse(store[id := SoftDeleted(store[id], now)], id).None?
  {
  }

  /** Every id in the store was generated and later ids are free. */
  lemma FreshIdIsFree(store: Store, nextId: TaskId)
    requires StoreInvariant(store, nextId)
    ensures forall k :: k >= nextId ==> k !in store
  {
  }

  /** The page mapped through TaskResponse.fromEntity at `now`. */
  function Project(tasks: Page<Task>, now: Timestamp): (p: Page<TaskResponse>)
    ensures p.number == tasks.number && p.size == tasks.size && p.totalElements == tasks.totalElements
    ensures p.totalPages == tasks.totalPages && p.first == tasks.first && p.last == tasks.last
    ensures p.hasNext == tasks.hasNext && p.hasPrevious == tasks.hasPrevious
    ensures |p.content| == |tasks.content|
    ensures forall i :: 0 <= i < |p.content| ==> p.content[i] == FromEntity(tasks.content[i], now)
  {
    MapPage(tasks, (t: Task) => FromEntity(t, now))
  }

  /** The sort key of Repositories.SortKey, read from a projected task. */
  function ResponseSortKey(r: TaskResponse, sort: Sort): int {
    match sort
    case Unsorted => 0
    case SortBy(p, d) =>
      var v := match p
               case Id => r.id
               case DueDateTime => r.dueDateTime
               case CreatedAt => r.createdAt
               case UpdatedAt => r.updatedAt;
      if d == ASC then v else -v
  }

  /** Projecting keeps every sort key, so a sorted page stays sorted. */
  lemma ProjectKeepsOrder(tasks: Page<Task>, sort: Sort, now: Timestamp)
    requires SortedBy(tasks.content, sort)
    ensures var p := Project(tasks, now);
            forall i, j :: 0 <= i < j < |p.content| ==>
              ResponseSortKey(p.content[i], sort) <= ResponseSortKey(p.content[j], sort)
  {
    var p := Project(tasks, now);
    forall k | 0 <= k < |p.content| ensures ResponseSortKey(p.content[k], sort) == SortKey(tasks.content[k], sort) {
    }
  }

  // ---------------------------------------------------------------- the service

  class TaskService {
    var store: Store
    var nextId: TaskId

    predicate Valid()
      reads this
    {
      StoreInvariant(store, nextId)
    }

    constructor()
      ensures Valid() && store == map[] && nextId == 1
    {
      store := map[];
      nextId := 1;
    }

    /** The table's rows in id order. */
    function Rows(): (rows: seq<Task>)
      reads this
      requires Valid()
      ensures forall t :: t in rows <==> t.id in store && store[t.id] == t
    {
      TableScan(store, 1, nextId)
    }

    /** createTask: a new PENDING task under a fresh id. */
    method CreateTask(draft: TaskDraft, now: Timestamp) returns (t: Task)
      requires Valid()
      modifies this
      ensures Valid() && DeletedRowsFrozen(old(store), store)
      ensures t == NewTask(old(nextId), draft, now) && t.id !in old(store)
      ensures store == old(store)[t.id := t] && nextId == old(nextId) + 1
    {
      t := NewTask(nextId, draft, now);
      store := store[nextId := t];
      nextId := nextId + 1;
    }

    /** createTasks: one new PENDING task per draft, in order, under consecutive fresh ids. An empty
        list creates nothing. */
    method CreateTasks(drafts: seq<TaskDraft>, now: Timestamp) returns (ts: seq<Task>)
      requires Valid()
      modifies this
      ensures Valid() && DeletedRowsFrozen(old(store), store)
      ensures |ts| == |drafts| && nextId == old(nextId) + |drafts|
      ensures forall i :: 0 <= i < |ts| ==> ts[i] == NewTask(old(nextId) + i, drafts[i], now)
      ensures forall id :: id in store <==> id in old(store) || old(nextId) <= id < nextId
      ensures forall id :: id in old(store) ==> store[id] == old(store)[id]
      ensures forall i :: 0 <= i < |ts| ==> ts[i].id in store && store[ts[i].id] == ts[i]
      ensures StoresDrafts(old(store), old(nextId), drafts, now, store, nextId)
    {
      ts := [];
      var i := 0;
      while i < |drafts|
        invariant 0 <= i <= |drafts| && |ts| == i
        invariant Valid() && nextId == old(nextId) + i
        invariant forall k :: 0 <= k < i ==> ts[k] == NewTask(old(nextId) + k, drafts[k], now)
        invariant forall id :: id in store <==> id in old(store) || old(nextId) <= id < nextId
        invariant forall id :: id in old(store) ==> store[id] == old(store)[id]
        invariant forall k :: 0 <= k < i ==> old(nextId) + k in store && store[old(nextId) + k] == ts[k]
      {
        var t := NewTask(nextId, drafts[i], now);
        store := store[nextId := t];
        nextId := nextId + 1;
        ts := ts + [t];
        i := i + 1;
      }
    }

    /** getTaskById: the task when it exists and is not deleted, not-found otherwise. */
    function GetTaskById(id: TaskId): (r: Result<Task, TaskNotFound>)
      reads this
      ensures r.Ok? <==> id in store && !store[id].deleted
      ensures r.Ok? ==> r.value == store[id]
      ensures r.Err? ==> r.error == TaskNotFound(id)
    {
      match FindByIdAndDeletedFalse(store, id)
      case Some(t) => Ok(t)
      case None => Err(TaskNotFound(id))
    }

    /** getAllTasks: every live task and no deleted one. */
    function GetAllTasks(): (ts: seq<Task>)
      reads this
      requires Valid()
      ensures forall t :: t in ts <==> t.id in store && store[t.id] == t && !t.deleted
    {
      FindByDeletedFalseList(Rows())
    }

    /** getTasksWithFilters: a page of projections of live tasks satisfying every given filter. */
    function GetTasksWithFilters(status: Option<TaskStatus>, priority: Option<TaskPriority>, search: Option<string>,
                                 pageable: Pageable, now: Timestamp): (p: Page<TaskResponse>)
      reads this
      requires Valid() && pageable.size >= 1
      ensures p == Project(FindWithFilters(Rows(), status, priority, search, pageable), now)
      ensures p.totalElements == |Filter(Rows(), (t: Task) => MatchesFilters(t, status, priority, search))|
      ensures p.number == pageable.page && p.size == pageable.size
      ensures forall i :: 0 <= i < |p.content| ==> ProjectsMatchingTask(p.content[i], store, status, priority, search, now)
      ensures forall i, j :: 0 <= i < j < |p.content| ==>
                ResponseSortKey(p.content[i], pageable.sort) <= ResponseSortKey(p.content[j], pageable.sort)
    {
      var tasks := FindWithFilters(Rows(), status, priority, search, pageable);
      var p := Project(tasks, now);
      ProjectKeepsOrder(tasks, pageable.sort, now);
      FilteredPageMatches(tasks, p, store, status, priority, search, now);
      p
    }

    /** getOverdueTasks: a page of live tasks, every one flagged overdue. */
    function GetOverdueTasks(pageable: Pageable, now: Timestamp): (p: Page<TaskResponse>)
      reads this
      requires Valid() && pageable.size >= 1
      ensures p == Project(FindOverdueTasks(Rows(), now, pageable), now)
      ensures p.totalElements == |Filter(Rows(), (t: Task) => IsOverdue(t, now))|
      ensures p.number == pageable.page && p.size == pageable.size
      ensures forall i :: 0 <= i < |p.content| ==>
                p.content[i].overdue && p.content[i].id in store && !store[p.content[i].id].deleted
      ensures forall i, j :: 0 <= i < j < |p.content| ==>
                ResponseSortKey(p.content[i], pageable.sort) <= ResponseSortKey(p.content[j], pageable.sort)
    {
      var tasks := FindOverdueTasks(Rows(), now, pageable);
      var p := Project(tasks, now);
      ProjectKeepsOrder(tasks, pageable.sort, now);
      OverduePageIsOverdue(tasks, p, store, now);
      p
    }

    /** updateTask: replaces the five request fields of a live task; fails not-found and changes
        nothing when the task is missing or deleted. */
    method UpdateTask(id: TaskId, u: TaskUpdate, now: Timestamp) returns (r: Result<Task, TaskNotFound>)
      requires Valid()
      modifies this
      ensures Valid() && DeletedRowsFrozen(old(store), store) && nextId == old(nextId)
      ensures r.Ok? <==> id in old(store) && !old(store)[id].deleted
      ensures r.Ok? ==> r.value == Updated(old(store)[id], u, now) && store == old(store)[id := r.value]
      ensures r.Err? ==> r.error == TaskNotFound(id) && store == old(store)
    {
      var found := GetTaskById(id);
      if found.Err? {
        return Err(found.error);
      }
      var task := found.value;
      task := task.(title := u.title);
      task := task.(description := u.description);
      task := task.(dueDateTime := u.dueDateTime);
      task := task.(status := u.status);
      task := task.(priority := u.priority);
      task := Saved(task, now);
      store := store[id := task];
      r := Ok(task);
    }

    /** updateTaskStatus: changes only the status of a live task. */
    method UpdateTaskStatus(id: TaskId, status: TaskStatus, now: Timestamp) returns (r: Result<Task, TaskNotFound>)
      requires Valid()
      modifies this
      ensures Valid() && DeletedRowsFrozen(old(store), store) && nextId == old(nextId)
      ensures r.Ok? <==> id in old(store) && !old(store)[id].deleted
      ensures r.Ok? ==> r.value == StatusChanged(old(store)[id], status, now) && store == old(store)[id := r.value]
      ensures r.Err? ==> r.error == TaskNotFound(id) && store == old(store)
    {
      var found := GetTaskById(id);
      if found.Err? {
        return Err(found.error);
      }
      var task := found.value;
      task := task.(status := status);
      task := Saved(task, now);
      store := store[id := task];
      r := Ok(task);
    }

    /** deleteTask: soft-deletes a live task; fails not-found and changes nothing otherwise. */
    method DeleteTask(id: TaskId, now: Timestamp) returns (r: Outcome<TaskNotFound>)
      requires Valid()
      modifies this
      ensures Valid() && DeletedRowsFrozen(old(store), store) && nextId == old(nextId)
      ensures r.Pass? <==> id in old(store) && !old(store)[id].deleted
      ensures r.Pass? ==> store == old(store)[id := SoftDeleted(old(store)[id], now)]
      ensures r.Fail? ==> r.error == TaskNotFound(id) && store == old(store)
    {
      var found := FindByIdAndDeletedFalse(store, id);
      if found.None? {
        return Fail(TaskNotFound(id));
      }
      var task := found.value;
      task := task.(deleted := true);
      task := task.(deletedAt := Some(now));
      task := Saved(task, now);
      store := store[id := task];
      r := Pass;
    }

    /** deleteTasks: soft-deletes every live task whose id is listed, all at the same instant, skips the
        rest, and returns how many were deleted. */
    method DeleteTasks(ids: seq<TaskId>, now: Timestamp) returns (count: nat)
      requires Valid()
      modifies this
      ensures Valid() && DeletedRowsFrozen(old(store), store) && nextId == old(nextId)
      ensures store == BulkDeleted(old(store), ids, now)
      ensures count == |Affected(old(store), ids)|
    {
      var tasks := FindByIdInAndDeletedFalse(Rows(), ids);
      FoundRowsAreAffected(store, nextId, ids);
      BulkDeletedKeepsInvariant(store, nextId, ids, now);
      var saved := MarkDeleted(store, tasks, now);
      store := saved;
      count := |tasks|;
    }

    /** updateTasksStatus: sets the status of every live task whose id is listed, skips the rest, and
        returns how many were changed. */
    method UpdateTasksStatus(ids: seq<TaskId>, status: TaskStatus, now: Timestamp) returns (count: nat)
      requires Valid()
      modifies this
      ensures Valid() && DeletedRowsFrozen(old(store), store) && nextId == old(nextId)
      ensures store == BulkStatusChanged(old(store), ids, status, now)
      ensures count == |Affected(old(store), ids)|
    {
      var tasks := FindByIdInAndDeletedFalse(Rows(), ids);
      FoundRowsAreAffected(store, nextId, ids);
      BulkStatusChangedKeepsInvariant(store, nextId, ids, status, now);
      var saved := MarkStatus(store, tasks, status, now);
      store := saved;
      count := |tasks|;
    }

  }

  /** One row of a bulk loop: saving the changed row extends the set of changed rows by its id. */
  lemma MarkStep(store: Store, tasks: seq<Task>, i: nat, saved: Store, f: Task -> Task)
    requires StrictlyIncreasingIds(tasks) && i < |tasks|
    requires forall t :: t in tasks ==> t.id in store && store[t.id] == t
    requires saved == ApplyTo(store, IdSet(tasks[..i]), f)
    ensures saved[tasks[i].id := f(tasks[i])] == ApplyTo(store, IdSet(tasks[..i + 1]), f)
  {
    IdSetStep(tasks, i);
    assert tasks[i] in tasks;
    ApplyToStep(store, IdSet(tasks[..i]), tasks[i].id, f);
  }

  /** The loop of deleteTasks over the rows it loaded: each marked deleted at the same `now`; the
      table then holds the saved rows. */
  method MarkDeleted(store: Store, tasks: seq<Task>, now: Timestamp) returns (saved: Store)
    requires StrictlyIncreasingIds(tasks)
    requires forall t :: t in tasks ==> t.id in store && store[t.id] == t
    ensures saved == ApplyTo(store, IdSet(tasks), (t: Task) => SoftDeleted(t, now))
  {
    ghost var f := (t: Task) => SoftDeleted(t, now);
    saved := store;
    assert IdSet(tasks[..0]) == {};
    ApplyToNothing(store, f);
    var i := 0;
    while i < |tasks|
      invariant 0 <= i <= |tasks|
      invariant saved == ApplyTo(store, IdSet(tasks[..i]), f)
    {
      var task := tasks[i];
      task := task.(deleted := true);
      task := task.(deletedAt := Some(now));
      task := Saved(task, now);
      MarkStep(store, tasks, i, saved, f);
      assert task == f(tasks[i]);
      saved := saved[task.id := task];
      i := i + 1;
    }
    assert tasks[..|tasks|] == tasks;
  }

  /** The loop of updateTasksStatus over the rows it loaded: each given the new status. */
  method MarkStatus(store: Store, tasks: seq<Task>, status: TaskStatus, now: Timestamp) returns (saved: Store)
    requires StrictlyIncreasingIds(tasks)
    requires forall t :: t in tasks ==> t.id in store && store[t.id] == t
    ensures saved == ApplyTo(store, IdSet(tasks), (t: Task) => StatusChanged(t, status, now))
  {
    ghost var f := (t: Task) => StatusChanged(t, status, now);
    saved := store;
    assert IdSet(tasks[..0]) == {};
    ApplyToNothing(store, f);
    var i := 0;
    while i < |tasks|
      invariant 0 <= i <= |tasks|
      invariant saved == ApplyTo(store, IdSet(tasks[..i]), f)
    {
      var task := tasks[i];
      task := task.(status := status);
      task := Saved(task, now);
      MarkStep(store, tasks, i, saved, f);
      assert task == f(tasks[i]);
      saved := saved[task.id := task];
      i := i + 1;
    }
    assert tasks[..|tasks|] == tasks;
  }

  /** getTasksWithFilters misses nothing: every live stored task passing the filters is projected on
      some page of the listing. */
  lemma FilteredListingIsComplete(svc: TaskService, status: Option<TaskStatus>, priority: Option<TaskPriority>,
                                  search: Option<string>, size: nat, sort: Sort, now: Timestamp, id: TaskId)
    requires svc.Valid() && size >= 1
    requires id in svc.store && MatchesFilters(svc.store[id], status, priority, search)
    ensures exists k :: && 0 <= k < svc.GetTasksWithFilters(status, priority, search, Pageable(0, size, sort), now).totalPages
                        && FromEntity(svc.store[id], now) in svc.GetTasksWithFilters(status, priority, search, Pageable(k, size, sort), now).content
  {
    var t, rows := svc.store[id], svc.Rows();
    FindWithFiltersIsComplete(rows, status, priority, search, size, sort, t);
    var k :| && 0 <= k < FindWithFilters(rows, status, priority, search, Pageable(0, size, sort)).totalPages
             && t in FindWithFilters(rows, status, priority, search, Pageable(k, size, sort)).content;
    var first := svc.GetTasksWithFilters(status, priority, search, Pageable(0, size, sort), now);
    var page := svc.GetTasksWithFilters(status, priority, search, Pageable(k, size, sort), now);
    var tasks := FindWithFilters(rows, status, priority, search, Pageable(k, size, sort));
    assert first.totalPages == FindWithFilters(rows, status, priority, search, Pageable(0, size, sort)).totalPages;
    var i :| 0 <= i < |tasks.content| && tasks.content[i] == t;
    assert page == Project(tasks, now);
    assert page.content[i] == FromEntity(t, now);
  }

  /** getOverdueTasks misses nothing: every overdue stored task is projected on some page of the listing. */
  lemma OverdueListingIsComplete(svc: TaskService, size: nat, sort: Sort, now: Timestamp, id: TaskId)
    requires svc.Valid() && size >= 1
    requires id in svc.store && IsOverdue(svc.store[id], now)
    ensures exists k :: && 0 <= k < svc.GetOverdueTasks(Pageable(0, size, sort), now).totalPages
                        && FromEntity(svc.store[id], now) in svc.GetOverdueTasks(Pageable(k, size, sort), now).content
  {
    var t, rows := svc.store[id], svc.Rows();
    FindOverdueTasksIsComplete(rows, now, size, sort, t);
    var k :| && 0 <= k < FindOverdueTasks(rows, now, Pageable(0, size, sort)).totalPages
             && t in FindOverdueTasks(rows, now, Pageable(k, size, sort)).content;
    var first := svc.GetOverdueTasks(Pageable(0, size, sort), now);
    var page := svc.GetOverdueTasks(Pageable(k, size, sort), now);
    var tasks := FindOverdueTasks(rows, now, Pageable(k, size, sort));
    assert first.totalPages == FindOverdueTasks(rows, now, Pageable(0, size, sort)).totalPages;
    var i :| 0 <= i < |tasks.content| && tasks.content[i] == t;
    assert page == Project(tasks, now);
    assert page.content[i] == FromEntity(t, now);
  }

  /** `r` is the projection of a stored task that satisfies the filters. */
  predicate ProjectsMatchingTask(r: TaskResponse, store: Store, status: Option<TaskStatus>,
                                 priority: Option<TaskPriority>, search: Option<string>, now: Timestamp) {
    exists id | id in store :: MatchesFilters(store[id], status, priority, search) && r == FromEntity(store[id], now)
  }

  lemma FilteredPageMatches(tasks: Page<Task>, p: Page<TaskResponse>, store: Store, status: Option<TaskStatus>,
                            priority: Option<TaskPriority>, search: Option<string>, now: Timestamp)
    requires forall t :: t in tasks.content ==> t.id in store && store[t.id] == t && MatchesFilters(t, status, priority, search)
    requires |p.content| == |tasks.content|
    requires forall i :: 0 <= i < |p.content| ==> p.content[i] == FromEntity(tasks.content[i], now)
    ensures forall i :: 0 <= i < |p.content| ==> ProjectsMatchingTask(p.content[i], store, status, priority, search, now)
  {
    forall i | 0 <= i < |p.content|
      ensures ProjectsMatchingTask(p.content[i], store, status, priority, search, now)
    {
      var t := tasks.content[i];
      assert t in tasks.content;
      assert store[t.id] == t;
    }
  }

  lemma OverduePageIsOverdue(tasks: Page<Task>, p: Page<TaskResponse>, store: Store, now: Timestamp)
    requires forall t :: t in tasks.content ==> t.id in store && store[t.id] == t && IsOverdue(t, now)
    requires |p.content| == |tasks.content|
    requires forall i :: 0 <= i < |p.content| ==> p.content[i] == FromEntity(tasks.content[i], now)
    ensures forall i :: 0 <= i < |p.content| ==>
              p.content[i].overdue && p.content[i].id in store && !store[p.content[i].id].deleted
  {
    forall i | 0 <= i < |p.content|
      ensures p.content[i].overdue && p.content[i].id in store && !store[p.content[i].id].deleted
    {
      assert tasks.content[i] in tasks.content;
    }
  }

  /** One more row of a strictly ordered scan adds one new id. */
  lemma IdSetStep(rows: seq<Task>, i: nat)
    requires StrictlyIncreasingIds(rows) && i < |rows|
    ensures IdSet(rows[..i + 1]) == IdSet(rows[..i]) + {rows[i].id}
    ensures rows[i].id !in IdSet(rows[..i])
  {
    assert rows[..i + 1] == rows[..i] + [rows[i]];
    forall t | t in rows[..i] ensures t.id != rows[i].id {
      var k :| 0 <= k < i && rows[k] == t;
    }
  }
}
