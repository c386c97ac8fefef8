/** TaskController: each handler validates its request body first (standing in for @Valid), calls the
    service, and wraps the result or the failure in an envelope with its HTTP status. */
module Controllers {
  import opened Wrappers
  import opened Strings
  import opened Models
  import opened Paging
  import opened Repositories
  import opened Requests
  import opened ApiResponses
  import opened PagedDataDto
  import opened TaskResponseDto
  import opened Exceptions
  import opened Services

  const OK := 200
  const CREATED := 201

  const AT_LEAST_ONE_TASK := "At least one task is required"

  datatype BulkOperationResult = BulkOperationResult(affected: int, requested: int)

  /** The "%d <text>" messages of the bulk handlers. */
  function CountMessage(count: nat, text: string): (m: string)
    ensures |m| > |text| && m[|m| - |text|..] == text
    ensures ParseLong(m[..|m| - |text|]) == Some(count)
  {
    var digits := LongToString(count);
    LongToStringRoundTrip(count);
    assert (digits + text)[..|digits|] == digits;
    digits + text
  }

  /** The paging request parameters. Absent or out-of-range values fall back as Spring Data's pageable
      resolver does: page to 0, size to the default (below 1) or to 2000 (above 2000), and a sort that is
      absent or unsorted to the handler's default sort, which the resolver keeps unless the request sorts. */
  datatype PageRequest = PageRequest(page: Option<int>, size: Option<int>, sort: Option<Sort>)

  const DEFAULT_PAGE_SIZE := 20
  const MAX_PAGE_SIZE := 2000

  function ResolvePageable(req: PageRequest, defaultSort: Sort): (p: Pageable)
    ensures 1 <= p.size <= MAX_PAGE_SIZE
    ensures req.page.Some? && req.page.value >= 0 ==> p.page == req.page.value
    ensures req.size.Some? && 1 <= req.size.value <= MAX_PAGE_SIZE ==> p.size == req.size.value
    ensures req.page.None? || req.page.value < 0 ==> p.page == 0
    ensures req.size.None? || req.size.value < 1 ==> p.size == DEFAULT_PAGE_SIZE
    ensures req.size.Some? && req.size.value > MAX_PAGE_SIZE ==> p.size == MAX_PAGE_SIZE
    ensures req.sort.Some? && req.sort.value.SortBy? ==> p.sort == req.sort.value
    ensures req.sort.None? || req.sort.value.Unsorted? ==> p.sort == defaultSort
    ensures req == PageRequest(None, None, None) ==> p == Pageable(0, DEFAULT_PAGE_SIZE, defaultSort)
  {
    var page := if req.page.Some? && req.page.value >= 0 then req.page.value else 0;
    var size := if req.size.None? || req.size.value < 1 then DEFAULT_PAGE_SIZE
                else if req.size.value > MAX_PAGE_SIZE then MAX_PAGE_SIZE
                else req.size.value;
    Pageable(page, size, if req.sort.Some? && req.sort.value.SortBy? then req.sort.value else defaultSort)
  }

  /** The defaults of the listing (createdAt, newest first) and of the overdue listing (due first). */
  const LISTING_SORT := SortBy(CreatedAt, DESC)
  const OVERDUE_SORT := SortBy(DueDateTime, ASC)

  class TaskController {
    const service: TaskService

    constructor(service: TaskService)
      ensures this.service == service
    {
      this.service := service;
    }

    predicate Valid()
      reads this, service
    {
      service.Valid()
    }

    /** POST /api/v1/tasks: 201 with the new PENDING task, or 400 with the failing fields and no change. */
    method CreateTask(req: CreateTaskRequest, now: Timestamp) returns (r: ResponseEntity<ApiResponse<TaskResponse>>)
      requires Valid()
      modifies service
      ensures Valid()
      ensures r.status == CREATED <==> ValidateCreate(req, now).Ok?
      ensures ValidateCreate(req, now).Err? ==>
                r == Handle(Validation(ValidateCreate(req, now).error), now) && service.store == old(service.store)
      ensures r.status == CREATED ==>
                && service.store == old(service.store)[old(service.nextId) := NewTask(old(service.nextId), ValidateCreate(req, now).value, now)]
                && r.body == CreatedWith(FromEntity(service.store[old(service.nextId)], now), "Task created successfully", now)
    {
      var v := ValidateCreate(req, now);
      if v.Err? {
        return Handle(Validation(v.error), now);
      }
      var task := service.CreateTask(v.value, now);
      r := ResponseEntity(CREATED, CreatedWith(FromEntity(task, now), "Task created successfully", now));
    }

    /** POST /api/v1/tasks/bulk: all or nothing. Every element is validated first (@Valid), and one invalid
        element refuses the whole list with the validation response. A null or empty list is refused
        before the service runs; otherwise 201 with one projection per request, in order, and the count in
        the message. Over HTTP a missing body never reaches the handler (it is a malformed request), so the
        null case is the handler's own guard only. */
    method CreateTasks(reqs: Option<seq<CreateTaskRequest>>, now: Timestamp)
      returns (r: ResponseEntity<ApiResponse<seq<TaskResponse>>>)
      requires Valid()
      modifies service
      ensures Valid()
      ensures r.status == CREATED <==> reqs.Some? && reqs.value != [] && ValidateCreateList(reqs.value, now).Ok?
      ensures r.status != CREATED ==> service.store == old(service.store) && service.nextId == old(service.nextId)
      ensures reqs.Some? && ValidateCreateList(reqs.value, now).Err? ==>
                r == Handle(Validation(ValidateCreateList(reqs.value, now).error), now)
      ensures reqs.None? || reqs.value == [] ==> r == Handle(IllegalArgument(Some(AT_LEAST_ONE_TASK)), now)
      ensures r.status == CREATED ==>
                var drafts, first := ValidateCreateList(reqs.value, now).value, old(service.nextId);
                && r.body.success
                && r.body.message == Some(CountMessage(|drafts|, " task(s) created successfully"))
                && r.body.data.Some? && |r.body.data.value| == |drafts|
                && (forall i :: 0 <= i < |drafts| ==> r.body.data.value[i] == FromEntity(NewTask(first + i, drafts[i], now), now))
                && StoresDrafts(old(service.store), first, drafts, now, service.store, service.nextId)
    {
      if reqs.Some? && ValidateCreateList(reqs.value, now).Err? {
        return Handle(Validation(ValidateCreateList(reqs.value, now).error), now);
      }
      if reqs.None? || reqs.value == [] {
        return Handle(IllegalArgument(Some(AT_LEAST_ONE_TASK)), now);
      }
      r := SaveDrafts(ValidateCreateList(reqs.value, now).value, now);
    }

    /** The bulk create once every element is valid: the drafts are saved in one batch and projected. */
    method SaveDrafts(drafts: seq<TaskDraft>, now: Timestamp) returns (r: ResponseEntity<ApiResponse<seq<TaskResponse>>>)
      requires Valid()
      modifies service
      ensures Valid()
      ensures r.status == CREATED && r.body.success
      ensures r.body.message == Some(CountMessage(|drafts|, " task(s) created successfully"))
      ensures r.body.data.Some? && |r.body.data.value| == |drafts|
      ensures forall i :: 0 <= i < |drafts| ==>
                r.body.data.value[i] == FromEntity(NewTask(old(service.nextId) + i, drafts[i], now), now)
      ensures StoresDrafts(old(service.store), old(service.nextId), drafts, now, service.store, service.nextId)
    {
      var tasks := service.CreateTasks(drafts, now);
      var responses := seq(|tasks|, i requires 0 <= i < |tasks| => FromEntity(tasks[i], now));
      r := ResponseEntity(CREATED, CreatedWith(responses, CountMessage(|responses|, " task(s) created successfully"), now));
    }

    /** GET /api/v1/tasks/{id}: 200 with the live task, or 404 naming the id. */
    function GetTaskById(id: TaskId, now: Timestamp): (r: ResponseEntity<ApiResponse<TaskResponse>>)
      reads this, service
      ensures r.status == OK <==> id in service.store && !service.store[id].deleted
      ensures r.status == OK ==> r.body.data == Some(FromEntity(service.store[id], now))
                                 && r.body.message == Some("Task retrieved successfully")
      ensures r.status != OK ==> r == Handle(NotFound(TaskNotFound(id)), now)
    {
      match service.GetTaskById(id)
      case Ok(task) => ResponseEntity(OK, SuccessWith(FromEntity(task, now), "Task retrieved successfully", now))
      case Err(e) => Handle(NotFound(e), now)
    }

    /** GET /api/v1/tasks: a page of live tasks satisfying every given filter, newest first by default. */
    function GetAllTasks(status: Option<TaskStatus>, priority: Option<TaskPriority>, search: Option<string>,
                         paging: PageRequest, now: Timestamp): (r: ResponseEntity<ApiResponse<PagedData<TaskResponse>>>)
      reads this, service
      requires Valid()
      ensures r.status == OK && r.body.success && r.body.message == Some("Tasks retrieved successfully")
      ensures r.body.data.Some?
      ensures r.body.data.value == From(service.GetTasksWithFilters(status, priority, search, ResolvePageable(paging, LISTING_SORT), now))
      ensures var d, pageable := r.body.data.value, ResolvePageable(paging, LISTING_SORT);
              && d.page == pageable.page && d.size == pageable.size
              && d.totalElements == |Filter(service.Rows(), (t: Task) => MatchesFilters(t, status, priority, search))|
              && forall i, j :: 0 <= i < j < |d.items| ==>
                   ResponseSortKey(d.items[i], pageable.sort) <= ResponseSortKey(d.items[j], pageable.sort)
      ensures var d := r.body.data.value;
              && (forall i :: 0 <= i < |d.items| ==>
                    ProjectsMatchingTask(d.items[i], service.store, status, priority, search, now))
              && (paging == PageRequest(None, None, None) ==> d.page == 0 && d.size == DEFAULT_PAGE_SIZE)
      ensures paging.sort.None? || paging.sort.value.Unsorted? ==>
                var d := r.body.data.value;
                forall i, j :: 0 <= i < j < |d.items| ==> d.items[i].createdAt >= d.items[j].createdAt
    {
      var pageable := ResolvePageable(paging, LISTING_SORT);
      var tasks := service.GetTasksWithFilters(status, priority, search, pageable, now);
      assert paging.sort.None? || paging.sort.value.Unsorted? ==> pageable.sort == LISTING_SORT;
      KeyOrderIsFieldOrder(tasks.content, pageable.sort);
      ResponseEntity(OK, SuccessWith(From(tasks), "Tasks retrieved successfully", now))
    }

    /** GET /api/v1/tasks/overdue: a page of overdue tasks, earliest due first by default. */
    function GetOverdueTasks(paging: PageRequest, now: Timestamp): (r: ResponseEntity<ApiResponse<PagedData<TaskResponse>>>)
      reads this, service
      requires Valid()
      ensures r.status == OK && r.body.success && r.body.message == Some("Overdue tasks retrieved successfully")
      ensures r.body.data.Some?
      ensures r.body.data.value == From(service.GetOverdueTasks(ResolvePageable(paging, OVERDUE_SORT), now))
      ensures var d, pageable := r.body.data.value, ResolvePageable(paging, OVERDUE_SORT);
              && d.page == pageable.page && d.size == pageable.size
              && d.totalElements == |Filter(service.Rows(), (t: Task) => IsOverdue(t, now))|
              && forall i, j :: 0 <= i < j < |d.items| ==>
                   ResponseSortKey(d.items[i], pageable.sort) <= ResponseSortKey(d.items[j], pageable.sort)
      ensures var d := r.body.data.value;
              && (forall i :: 0 <= i < |d.items| ==> d.items[i].overdue)
              && (paging == PageRequest(None, None, None) ==> d.page == 0 && d.size == DEFAULT_PAGE_SIZE)
      ensures paging.sort.None? || paging.sort.value.Unsorted? ==>
                var d := r.body.data.value;
                forall i, j :: 0 <= i < j < |d.items| ==> d.items[i].dueDateTime <= d.items[j].dueDateTime
    {
      var pageable := ResolvePageable(paging, OVERDUE_SORT);
      var tasks := service.GetOverdueTasks(pageable, now);
      assert paging.sort.None? || paging.sort.value.Unsorted? ==> pageable.sort == OVERDUE_SORT;
      KeyOrderIsFieldOrder(tasks.content, pageable.sort);
      ResponseEntity(OK, SuccessWith(From(tasks), "Overdue tasks retrieved successfully", now))
    }

    /** PUT /api/v1/tasks/{id}: validation comes first (400), then the lookup (404), then the update (200). */
    method UpdateTask(id: TaskId, req: UpdateTaskRequest, now: Timestamp) returns (r: ResponseEntity<ApiResponse<TaskResponse>>)
      requires Valid()
      modifies service
      ensures Valid()
      ensures ValidateUpdate(req, now).Err? ==>
                r == Handle(Validation(ValidateUpdate(req, now).error), now) && service.store == old(service.store)
      ensures ValidateUpdate(req, now).Ok? && !(id in old(service.store) && !old(service.store)[id].deleted) ==>
                r == Handle(NotFound(TaskNotFound(id)), now) && service.store == old(service.store)
      ensures r.status == OK <==> ValidateUpdate(req, now).Ok? && id in old(service.store) && !old(service.store)[id].deleted
      ensures r.status == OK ==>
                && service.store == old(service.store)[id := Updated(old(service.store)[id], ValidateUpdate(req, now).value, now)]
                && r.body == SuccessWith(FromEntity(service.store[id], now), "Task updated successfully", now)
    {
      var v := ValidateUpdate(req, now);
      if v.Err? {
        return Handle(Validation(v.error), now);
      }
      var result := service.UpdateTask(id, v.value, now);
      match result
      case Err(e) => r := Handle(NotFound(e), now);
      case Ok(task) => r := ResponseEntity(OK, SuccessWith(FromEntity(task, now), "Task updated successfully", now));
    }

    /** PATCH /api/v1/tasks/{id}/status: any status may follow any other. */
    method UpdateTaskStatus(id: TaskId, req: UpdateStatusRequest, now: Timestamp)
      returns (r: ResponseEntity<ApiResponse<TaskResponse>>)
      requires Valid()
      modifies service
      ensures Valid()
      ensures req.status.None? ==>
                r == Handle(Validation([FieldError("status", STATUS_REQUIRED)]), now) && service.store == old(service.store)
      ensures r.status == OK <==> req.status.Some? && id in old(service.store) && !old(service.store)[id].deleted
      ensures r.status == OK ==>
                && service.store == old(service.store)[id := StatusChanged(old(service.store)[id], req.status.value, now)]
                && r.body.data == Some(FromEntity(service.store[id], now))
                && r.body.data.value.status == req.status.value
                && r.body.message == Some("Task status updated successfully")
      ensures r.status != OK ==> service.store == old(service.store)
    {
      var v := ValidateUpdateStatus(req);
      if v.Err? {
        return Handle(Validation(v.error), now);
      }
      var result := service.UpdateTaskStatus(id, v.value, now);
      match result
      case Err(e) => r := Handle(NotFound(e), now);
      case Ok(task) => r := ResponseEntity(OK, SuccessWith(FromEntity(task, now), "Task status updated successfully", now));
    }

    /** PATCH /api/v1/tasks/bulk/status: 200 with (affected, requested), or 400 for a bad body. */
    method UpdateTasksStatus(req: BulkStatusUpdateRequest, now: Timestamp)
      returns (r: ResponseEntity<ApiResponse<BulkOperationResult>>)
      requires Valid()
      modifies service
      ensures Valid()
      ensures r.status == OK <==> ValidateBulkStatusUpdate(req).Ok?
      ensures r.status != OK ==>
                r == Handle(Validation(BulkStatusUpdateErrors(req)), now) && service.store == old(service.store)
      ensures r.status == OK ==>
                var count := |Affected(old(service.store), req.ids.value)|;
                && service.store == BulkStatusChanged(old(service.store), req.ids.value, req.status.value, now)
                && r.body.data == Some(BulkOperationResult(count, |req.ids.value|))
                && r.body.message == Some(CountMessage(count, " task(s) status updated successfully"))
      ensures r.status == OK ==> r.body.data.value.affected <= r.body.data.value.requested
    {
      var v := ValidateBulkStatusUpdate(req);
      if v.Err? {
        return Handle(Validation(v.error), now);
      }
      var (ids, status) := v.value;
      AffectedBounds(service.store, ids);
      var count := service.UpdateTasksStatus(ids, status, now);
      var result := BulkOperationResult(count, |ids|);
      r := ResponseEntity(OK, SuccessWith(result, CountMessage(count, " task(s) status updated successfully"), now));
    }

    /** DELETE /api/v1/tasks/{id}: 200 with no data, or 404 when the task is missing or already deleted. */
    method DeleteTask(id: TaskId, now: Timestamp) returns (r: ResponseEntity<ApiResponse<()>>)
      requires Valid()
      modifies service
      ensures Valid()
      ensures r.status == OK <==> id in old(service.store) && !old(service.store)[id].deleted
      ensures r.status == OK ==>
                && r.body == DeletedWith("Task deleted successfully", now)
                && service.store == old(service.store)[id := SoftDeleted(old(service.store)[id], now)]
      ensures r.status != OK ==> r == Handle(NotFound(TaskNotFound(id)), now) && service.store == old(service.store)
    {
      var outcome := service.DeleteTask(id, now);
      match outcome
      case Fail(e) => r := Handle(NotFound(e), now);
      case Pass => r := ResponseEntity(OK, DeletedWith("Task deleted successfully", now));
    }

    /** DELETE /api/v1/tasks/bulk: 200 with (affected, requested), or 400 for a missing or empty list. */
    method DeleteTasks(req: BulkDeleteRequest, now: Timestamp) returns (r: ResponseEntity<ApiResponse<BulkOperationResult>>)
      requires Valid()
      modifies service
      ensures Valid()
      ensures r.status == OK <==> req.ids.Some? && req.ids.value != []
      ensures r.status != OK ==>
                r == Handle(Validation([FieldError("ids", IDS_REQUIRED)]), now) && service.store == old(service.store)
      ensures r.status == OK ==>
                var count := |Affected(old(service.store), req.ids.value)|;
                && service.store == BulkDeleted(old(service.store), req.ids.value, now)
                && r.body.data == Some(BulkOperationResult(count, |req.ids.value|))
                && r.body.message == Some(CountMessage(count, " task(s) deleted successfully"))
      ensures r.status == OK ==> r.body.data.value.affected <= r.body.data.value.requested
    {
      var v := ValidateBulkDelete(req);
      if v.Err? {
        return Handle(Validation(v.error), now);
      }
      AffectedBounds(service.store, v.value);
      var count := service.DeleteTasks(v.value, now);
      var result := BulkOperationResult(count, |v.value|);
      r := ResponseEntity(OK, SuccessWith(result, CountMessage(count, " task(s) deleted successfully"), now));
    }
  }

  /** The two default orders, read off the sort keys. */
  lemma KeyOrderIsFieldOrder(items: seq<TaskResponse>, sort: Sort)
    requires forall i, j :: 0 <= i < j < |items| ==> ResponseSortKey(items[i], sort) <= ResponseSortKey(items[j], sort)
    ensures sort == LISTING_SORT ==> forall i, j :: 0 <= i < j < |items| ==> items[i].createdAt >= items[j].createdAt
    ensures sort == OVERDUE_SORT ==> forall i, j :: 0 <= i < j < |items| ==> items[i].dueDateTime <= items[j].dueDateTime
  {
  }

  /** The counts of a bulk result over a store: affected is the number of rows the id lookup loads and
      never exceeds requested, and with distinct ids it is requested minus the missing or deleted ones. */
  lemma BulkResultCounts(store: Store, nextId: TaskId, ids: seq<TaskId>)
    requires StoreInvariant(store, nextId)
    ensures var res := BulkOperationResult(|Affected(store, ids)|, |ids|);
            && 0 <= res.affected <= res.requested
            && res.affected == |FindByIdInAndDeletedFalse(TableScan(store, 1, nextId), ids)|
            && ((forall i, j :: 0 <= i < j < |ids| ==> ids[i] != ids[j]) ==> res.affected == res.requested - |Skipped(store, ids)|)
  {
    AffectedBounds(store, ids);
    FoundRowsAreAffected(store, nextId, ids);
    if forall i, j :: 0 <= i < j < |ids| ==> ids[i] != ids[j] {
      AffectedOfDistinctIds(store, ids);
    }
  }

  /** The lifecycle of one task through the API: created PENDING and not overdue, moved to CANCELLED,
      deleted, and then not found. */
  method LifecycleScenario(title: string, now: Timestamp)
    returns (created: ResponseEntity<ApiResponse<TaskResponse>>,
             patched: ResponseEntity<ApiResponse<TaskResponse>>,
             deleted: ResponseEntity<ApiResponse<()>>,
             fetched: ResponseEntity<ApiResponse<TaskResponse>>)
    requires !IsBlank(title)
    ensures created.status == CREATED && created.body.data.Some?
    ensures created.body.data.value.status == PENDING && created.body.data.value.priority == HIGH
    ensures !created.body.data.value.overdue
    ensures patched.status == OK && patched.body.data.Some? && patched.body.data.value.status == CANCELLED
    ensures deleted.status == OK && deleted.body.data.None?
    ensures fetched.status == NOT_FOUND_STATUS && fetched.body.error.Some?
    ensures fetched.body.error.value.errorType == "NOT_FOUND"
  {
    var service := new TaskService();
    var controller := new TaskController(service);
    var req := CreateTaskRequest(Some(title), None, Some(now + 86400), Some(HIGH));
    var id := 1;
    assert ValidateCreate(req, now).Ok?;
    created := controller.CreateTask(req, now);
    NewTaskNotOverdue(id, ValidateCreate(req, now).value, now);
    assert id in service.store && !service.store[id].deleted;
    patched := controller.UpdateTaskStatus(id, UpdateStatusRequest(Some(CANCELLED)), now);
    assert id in service.store && !service.store[id].deleted;
    deleted := controller.DeleteTask(id, now);
    assert id in service.store && service.store[id].deleted;
    fetched := controller.GetTaskById(id, now);
    HandleTypesAndMessages<TaskResponse>(NotFound(TaskNotFound(id)), now);
  }
}
