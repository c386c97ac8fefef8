/** The request DTOs and their bean-validation constraints, as validators that list the failing
    fields (the binding result) and the field -> message map the exception handler builds from it. */
module Requests {
  import opened Wrappers
  import opened Strings
  import opened Models

  datatype FieldError = FieldError(field: string, message: string)

  const TITLE_REQUIRED := "Title is required"
  const DUE_REQUIRED := "Due date/time is required"
  const DUE_NOT_PAST := "Due date/time must be in the present or future"
  const STATUS_REQUIRED := "Status is required"
  const PRIORITY_REQUIRED := "Priority is required"
  const IDS_REQUIRED := "Task IDs list cannot be empty"

  /** The field -> message map filled error by error: a later error on a field replaces an earlier one. */
  function FieldErrorMap(errors: seq<FieldError>): (m: map<string, string>)
    ensures m.Keys == set e | e in errors :: e.field
  {
    if errors == [] then map[]
    else
      var last := errors[|errors| - 1];
      var init := errors[..|errors| - 1];
      assert forall e :: e in errors <==> e in init || e == last;
      FieldErrorMap(init)[last.field := last.message]
  }

  /** Each field maps to the message of its last error. */
  lemma {:induction false} FieldErrorMapLastWins(errors: seq<FieldError>, i: nat)
    requires i < |errors|
    requires forall j :: i < j < |errors| ==> errors[j].field != errors[i].field
    ensures FieldErrorMap(errors)[errors[i].field] == errors[i].message
  {
    if i < |errors| - 1 {
      FieldErrorMapLastWins(errors[..|errors| - 1], i);
    }
  }

  predicate DistinctFields(errors: seq<FieldError>) {
    forall i, j :: 0 <= i < j < |errors| ==> errors[i].field != errors[j].field
  }

  /** With one error per field, the map holds exactly the listed errors. */
  lemma FieldErrorMapOfDistinct(errors: seq<FieldError>)
    requires DistinctFields(errors)
    ensures forall e :: e in errors ==> e.field in FieldErrorMap(errors) && FieldErrorMap(errors)[e.field] == e.message
  {
    forall e | e in errors
      ensures e.field in FieldErrorMap(errors) && FieldErrorMap(errors)[e.field] == e.message
    {
      var i :| 0 <= i < |errors| && errors[i] == e;
      FieldErrorMapLastWins(errors, i);
    }
  }

  /** Lists with no field in common and no field repeated join into a list with no field repeated. */
  lemma DistinctAppend(a: seq<FieldError>, b: seq<FieldError>)
    requires DistinctFields(a) && DistinctFields(b)
    requires forall x, y :: x in a && y in b ==> x.field != y.field
    ensures DistinctFields(a + b)
  {
    forall i, j | 0 <= i < j < |a + b| ensures (a + b)[i].field != (a + b)[j].field {
      if j < |a| {
      } else if i >= |a| {
        assert (a + b)[i] == b[i - |a|] && (a + b)[j] == b[j - |a|];
      } else {
        assert (a + b)[i] in a && (a + b)[j] in b;
      }
    }
  }

  /** @NotBlank: not null and not empty after trimming. */
  predicate NotBlank(s: Option<string>) {
    s.Some? && !IsBlank(s.value)
  }

  /** The due-date constraints: @NotNull, then @FutureOrPresent (which accepts null). */
  function DueDateErrors(due: Option<Timestamp>, now: Timestamp): (errs: seq<FieldError>)
    ensures |errs| <= 1 && forall e :: e in errs ==> e.field == "dueDateTime"
    ensures errs == [FieldError("dueDateTime", DUE_REQUIRED)] <==> due.None?
    ensures errs == [FieldError("dueDateTime", DUE_NOT_PAST)] <==> due.Some? && due.value < now
  {
    if due.None? then [FieldError("dueDateTime", DUE_REQUIRED)]
    else if due.value < now then [FieldError("dueDateTime", DUE_NOT_PAST)]
    else []
  }

  function TitleErrors(title: Option<string>): (errs: seq<FieldError>)
    ensures |errs| <= 1 && forall e :: e in errs ==> e.field == "title"
    ensures FieldError("title", TITLE_REQUIRED) in errs <==> !NotBlank(title)
  {
    if NotBlank(title) then [] else [FieldError("title", TITLE_REQUIRED)]
  }

  function RequiredErrors<T>(value: Option<T>, field: string, message: string): (errs: seq<FieldError>)
    ensures |errs| <= 1 && forall e :: e in errs ==> e.field == field
    ensures FieldError(field, message) in errs <==> value.None?
  {
    if value.None? then [FieldError(field, message)] else []
  }

  function NotEmptyErrors<T>(value: Option<seq<T>>, field: string, message: string): (errs: seq<FieldError>)
    ensures |errs| <= 1 && forall e :: e in errs ==> e.field == field
    ensures errs == [] <==> value.Some? && value.value != []
    ensures errs != [] ==> errs == [FieldError(field, message)]
  {
    if value.None? || value.value == [] then [FieldError(field, message)] else []
  }

  // ---------------------------------------------------------------- CreateTaskRequest

  /** A null `priority` is an explicit JSON null; an omitted one takes the field default MEDIUM. */
  datatype CreateTaskRequest = CreateTaskRequest(
    title: Option<string>,
    description: Option<string>,
    dueDateTime: Option<Timestamp>,
    priority: Option<TaskPriority>)

  /** The body as deserialized when `priority` is left out. */
  function NewCreateTaskRequest(title: Option<string>, description: Option<string>,
                                dueDateTime: Option<Timestamp>): (r: CreateTaskRequest)
    ensures r.priority == Some(MEDIUM)
    ensures r.title == title && r.description == description && r.dueDateTime == dueDateTime
  {
    CreateTaskRequest(title, description, dueDateTime, Some(MEDIUM))
  }

  function CreateTaskErrors(req: CreateTaskRequest, now: Timestamp): (errs: seq<FieldError>)
    ensures DistinctFields(errs)
    ensures FieldError("title", TITLE_REQUIRED) in errs <==> !NotBlank(req.title)
    ensures FieldError("dueDateTime", DUE_REQUIRED) in errs <==> req.dueDateTime.None?
    ensures FieldError("dueDateTime", DUE_NOT_PAST) in errs <==> req.dueDateTime.Some? && req.dueDateTime.value < now
    ensures forall e :: e in errs ==> e.field == "title" || e.field == "dueDateTime"
  {
    var title := TitleErrors(req.title);
    var due := DueDateErrors(req.dueDateTime, now);
    DistinctAppend(title, due);
    title + due
  }

  /** Validation of a create request: its draft, or the failing fields. Description and priority are
      unconstrained. */
  function ValidateCreate(req: CreateTaskRequest, now: Timestamp): (r: Result<TaskDraft, seq<FieldError>>)
    ensures r.Ok? <==> NotBlank(req.title) && req.dueDateTime.Some? && req.dueDateTime.value >= now
    ensures r.Ok? ==> r.value == TaskDraft(req.title.value, req.description, req.dueDateTime.value, req.priority)
    ensures r.Err? ==> r.error == CreateTaskErrors(req, now) && r.error != []
  {
    var errs := CreateTaskErrors(req, now);
    if errs == [] then
      Ok(TaskDraft(req.title.value, req.description, req.dueDateTime.value, req.priority))
    else
      Err(errs)
  }

  /** Element-wise validation of a list: every value in order when all elements pass, otherwise the
      error of the first element that fails. */
  function ValidateEach<A, B(==), E(==)>(xs: seq<A>, check: A -> Result<B, E>): (r: Result<seq<B>, E>)
    ensures r.Ok? <==> forall i :: 0 <= i < |xs| ==> check(xs[i]).Ok?
    ensures r.Ok? ==> |r.value| == |xs| && forall i :: 0 <= i < |xs| ==> r.value[i] == check(xs[i]).value
    ensures r.Err? ==> exists i :: && 0 <= i < |xs| && check(xs[i]).Err? && r.error == check(xs[i]).error
                                   && forall j :: 0 <= j < i ==> check(xs[j]).Ok?
  {
    if xs == [] then Ok([])
    else if check(xs[0]).Err? then Err(check(xs[0]).error)
    else
      var rest := ValidateEach(xs[1..], check);
      assert forall i :: 0 < i < |xs| ==> xs[i] == xs[1..][i - 1];
      if rest.Err? then
        var i :| && 0 <= i < |xs| - 1 && check(xs[1..][i]).Err? && rest.error == check(xs[1..][i]).error
                 && forall j :: 0 <= j < i ==> check(xs[1..][j]).Ok?;
        assert forall j :: 0 <= j < i + 1 ==> check(xs[j]).Ok?;
        Err(rest.error)
      else
        Ok([check(xs[0]).value] + rest.value)
  }

  /** Validation of a bulk create body: every element is validated as a single create body. */
  function ValidateCreateList(reqs: seq<CreateTaskRequest>, now: Timestamp): (r: Result<seq<TaskDraft>, seq<FieldError>>)
    ensures r.Ok? <==> forall i :: 0 <= i < |reqs| ==> ValidateCreate(reqs[i], now).Ok?
    ensures r.Ok? ==> |r.value| == |reqs| && forall i :: 0 <= i < |reqs| ==> r.value[i] == ValidateCreate(reqs[i], now).value
    ensures r.Err? ==> exists i :: && 0 <= i < |reqs| && ValidateCreate(reqs[i], now).Err?
                                   && r.error == ValidateCreate(reqs[i], now).error
                                   && forall j :: 0 <= j < i ==> ValidateCreate(reqs[j], now).Ok?
  {
    ValidateEach(reqs, (req: CreateTaskRequest) => ValidateCreate(req, now))
  }

  /** The field map of a create request that fails on everything. */
  lemma CreateFieldErrorsExample(now: Timestamp)
    ensures var m := FieldErrorMap(CreateTaskErrors(CreateTaskRequest(Some("  "), None, None, None), now));
            m == map["title" := TITLE_REQUIRED, "dueDateTime" := DUE_REQUIRED]
  {
    var title := FieldError("title", TITLE_REQUIRED);
    var due := FieldError("dueDateTime", DUE_REQUIRED);
    assert IsBlank("  ") by {
      assert TrimStart("  ") == [];
    }
    assert TitleErrors(Some("  ")) == [title];
    assert DueDateErrors(None, now) == [due];
    var errs := [title] + [due];
    assert errs[..1] == [title] && [title][..0] == [];
    assert FieldErrorMap([title]) == map["title" := TITLE_REQUIRED];
  }

  // ---------------------------------------------------------------- UpdateTaskRequest

  datatype UpdateTaskRequest = UpdateTaskRequest(
    title: Option<string>,
    description: Option<string>,
    dueDateTime: Option<Timestamp>,
    status: Option<TaskStatus>,
    priority: Option<TaskPriority>)

  /** The two enum fields an update must carry. */
  function StatusAndPriorityErrors(status: Option<TaskStatus>, priority: Option<TaskPriority>): (errs: seq<FieldError>)
    ensures DistinctFields(errs)
    ensures FieldError("status", STATUS_REQUIRED) in errs <==> status.None?
    ensures FieldError("priority", PRIORITY_REQUIRED) in errs <==> priority.None?
    ensures forall e :: e in errs ==> e.field == "status" || e.field == "priority"
  {
    var s := RequiredErrors(status, "status", STATUS_REQUIRED);
    var p := RequiredErrors(priority, "priority", PRIORITY_REQUIRED);
    DistinctAppend(s, p);
    s + p
  }

  function UpdateTaskErrors(req: UpdateTaskRequest, now: Timestamp): (errs: seq<FieldError>)
    ensures DistinctFields(errs)
    ensures FieldError("title", TITLE_REQUIRED) in errs <==> !NotBlank(req.title)
    ensures FieldError("dueDateTime", DUE_REQUIRED) in errs <==> req.dueDateTime.None?
    ensures FieldError("dueDateTime", DUE_NOT_PAST) in errs <==> req.dueDateTime.Some? && req.dueDateTime.value < now
    ensures FieldError("status", STATUS_REQUIRED) in errs <==> req.status.None?
    ensures FieldError("priority", PRIORITY_REQUIRED) in errs <==> req.priority.None?
    ensures forall e :: e in errs ==> e.field == "title" || e.field == "dueDateTime" || e.field == "status" || e.field == "priority"
  {
    // The title and due-date constraints are the same annotations as on a create body.
    var head := CreateTaskErrors(CreateTaskRequest(req.title, req.description, req.dueDateTime, None), now);
    var tail := StatusAndPriorityErrors(req.status, req.priority);
    DistinctAppend(head, tail);
    head + tail
  }

  /** Validation of a full update: status and priority are required, with no default. */
  function ValidateUpdate(req: UpdateTaskRequest, now: Timestamp): (r: Result<TaskUpdate, seq<FieldError>>)
    ensures r.Ok? <==> && NotBlank(req.title) && req.dueDateTime.Some? && req.dueDateTime.value >= now
                       && req.status.Some? && req.priority.Some?
    ensures r.Ok? ==> r.value == TaskUpdate(req.title.value, req.description, req.dueDateTime.value,
                                            req.status.value, req.priority.value)
    ensures r.Err? ==> r.error == UpdateTaskErrors(req, now) && r.error != []
  {
    var errs := UpdateTaskErrors(req, now);
    if errs == [] then
      Ok(TaskUpdate(req.title.value, req.description, req.dueDateTime.value, req.status.value, req.priority.value))
    else
      Err(errs)
  }

  // ---------------------------------------------------------------- UpdateStatusRequest

  datatype UpdateStatusRequest = UpdateStatusRequest(status: Option<TaskStatus>)

  /** Any of the four statuses is accepted; only a missing one is refused. */
  function ValidateUpdateStatus(req: UpdateStatusRequest): (r: Result<TaskStatus, seq<FieldError>>)
    ensures r.Ok? <==> req.status.Some?
    ensures r.Ok? ==> r.value == req.status.value
    ensures r.Err? ==> r.error == [FieldError("status", STATUS_REQUIRED)]
  {
    if req.status.Some? then Ok(req.status.value)
    else Err(RequiredErrors(req.status, "status", STATUS_REQUIRED))
  }

  // ---------------------------------------------------------------- BulkStatusUpdateRequest

  datatype BulkStatusUpdateRequest = BulkStatusUpdateRequest(ids: Option<seq<TaskId>>, status: Option<TaskStatus>)

  function BulkStatusUpdateErrors(req: BulkStatusUpdateRequest): (errs: seq<FieldError>)
    ensures DistinctFields(errs)
    ensures FieldError("ids", IDS_REQUIRED) in errs <==> req.ids.None? || req.ids.value == []
    ensures FieldError("status", STATUS_REQUIRED) in errs <==> req.status.None?
    ensures forall e :: e in errs ==> e.field in {"ids", "status"}
  {
    var ids := NotEmptyErrors(req.ids, "ids", IDS_REQUIRED);
    var status := RequiredErrors(req.status, "status", STATUS_REQUIRED);
    DistinctAppend(ids, status);
    ids + status
  }

  /** The ids' values are not checked: unknown ids pass and are skipped by the service. */
  function ValidateBulkStatusUpdate(req: BulkStatusUpdateRequest): (r: Result<(seq<TaskId>, TaskStatus), seq<FieldError>>)
    ensures r.Ok? <==> req.ids.Some? && req.ids.value != [] && req.status.Some?
    ensures r.Ok? ==> r.value == (req.ids.value, req.status.value)
    ensures r.Err? ==> r.error == BulkStatusUpdateErrors(req) && r.error != []
  {
    var errs := BulkStatusUpdateErrors(req);
    if errs == [] then Ok((req.ids.value, req.status.value)) else Err(errs)
  }

  // ---------------------------------------------------------------- BulkDeleteRequest

  datatype BulkDeleteRequest = BulkDeleteRequest(ids: Option<seq<TaskId>>)

  function ValidateBulkDelete(req: BulkDeleteRequest): (r: Result<seq<TaskId>, seq<FieldError>>)
    ensures r.Ok? <==> req.ids.Some? && req.ids.value != []
    ensures r.Ok? ==> r.value == req.ids.value
    ensures r.Err? ==> r.error == [FieldError("ids", IDS_REQUIRED)]
  {
    var errs := NotEmptyErrors(req.ids, "ids", IDS_REQUIRED);
    if errs == [] then Ok(req.ids.value) else Err(errs)
  }

  lemma BulkDeleteExample()
    ensures ValidateBulkDelete(BulkDeleteRequest(Some([1, 2, 3]))) == Ok([1, 2, 3])
    ensures ValidateBulkDelete(BulkDeleteRequest(Some([]))).Err?
  {
  }
}
