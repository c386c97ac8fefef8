/** TaskResponse: the outward projection of a task. */
module TaskResponseDto {
  import opened Wrappers
  import opened Models

  /** The representation returned to callers; it has no deleted or deletedAt field. */
  datatype TaskResponse = TaskResponse(
    id: TaskId,
    title: string,
    description: Option<string>,
    status: TaskStatus,
    priority: TaskPriority,
    dueDateTime: Timestamp,
    createdAt: Timestamp,
    updatedAt: Timestamp,
    overdue: bool)

  /** fromEntity: the stored fields copied unchanged, and `overdue` evaluated at `now`. */
  function FromEntity(t: Task, now: Timestamp): (r: TaskResponse)
    ensures r.id == t.id && r.title == t.title && r.description == t.description
    ensures r.status == t.status && r.priority == t.priority && r.dueDateTime == t.dueDateTime
    ensures r.createdAt == t.createdAt && r.updatedAt == t.updatedAt
    ensures r.overdue <==> !t.deleted && t.status != COMPLETED && t.dueDateTime < now
  {
    TaskResponse(t.id, t.title, t.description, t.status, t.priority, t.dueDateTime,
                 t.createdAt, t.updatedAt, IsOverdue(t, now))
  }

  /** The deletion timestamp never reaches the response. */
  lemma DeletedAtIsHidden(t: Task, at: Option<Timestamp>, now: Timestamp)
    ensures FromEntity(t.(deletedAt := at), now) == FromEntity(t, now)
  {
  }

  /** A task that is not yet due is not overdue, whatever its status. */
  lemma NotYetDueIsNotOverdue(t: Task, now: Timestamp)
    requires t.dueDateTime >= now
    ensures !FromEntity(t, now).overdue
  {
  }

  /** Overdue is evaluated at read time: the same live, incomplete task turns overdue once `now` passes its due time. */
  lemma OverdueDependsOnReadTime(t: Task, before: Timestamp, after: Timestamp)
    requires !t.deleted && t.status != COMPLETED && before <= t.dueDateTime < after
    ensures !FromEntity(t, before).overdue && FromEntity(t, after).overdue
  {
  }
}
