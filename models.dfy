/** The Task entity and its enumerations. The entity class itself is not part of this model; its
    fields are those the service, the repository queries and TaskResponse read and write. */
module Models {
  import opened Wrappers

  /** Instants (LocalDateTime) as integers on one clock; only their order matters. */
  type Timestamp = int

  type TaskId = int

  datatype TaskStatus = PENDING | IN_PROGRESS | COMPLETED | CANCELLED

  datatype TaskPriority = LOW | MEDIUM | HIGH | URGENT

  datatype Task = Task(
    id: TaskId,
    title: string,
    description: Option<string>,
    status: TaskStatus,
    priority: TaskPriority,
    dueDateTime: Timestamp,
    createdAt: Timestamp,
    updatedAt: Timestamp,
    deleted: bool,
    deletedAt: Option<Timestamp>)

  /** The overdue condition of the overdue-tasks query: live, not completed, due strictly before `now`.
      The entity's own `isOverdue` flag is taken to be this same predicate. */
  predicate IsOverdue(t: Task, now: Timestamp) {
    !t.deleted && t.status != COMPLETED && t.dueDateTime < now
  }

  /** The fields of a validated create request. A create request carries no status. */
  datatype TaskDraft = TaskDraft(
    title: string,
    description: Option<string>,
    dueDateTime: Timestamp,
    priority: Option<TaskPriority>)

  /** The fields of a validated full-update request. */
  datatype TaskUpdate = TaskUpdate(
    title: string,
    description: Option<string>,
    dueDateTime: Timestamp,
    status: TaskStatus,
    priority: TaskPriority)
}
