# Task management API — a Dafny model

This project models the core of a Spring Boot task-management backend. The backend keeps tasks: each has a
title, an optional description, a status (PENDING, IN_PROGRESS, COMPLETED, CANCELLED), a priority (LOW,
MEDIUM, HIGH, URGENT) and a due date/time. Deleting a task is a soft delete: the row stays in the store
with `deleted` set and a `deletedAt` stamp, and every query hides it.

The model covers:

- **Services** — `TaskService` is a class over a mutable `map<TaskId, Task>` with an id counter. It has
  create, bulk create, get, list, filter, overdue, update, status update, soft delete and the two bulk
  operations. The bulk operations loop over the found rows and mark them one by one.
- **Repositories** — the `TaskRepository` queries are pure functions over the table rows. They are built
  from a table scan, a filter, a sort on a `Pageable` and a page slice. SQL `LIKE` is modelled with its `%`
  and `_` wildcards.
- **Paging** and **PagedDataDto** — Spring's page metadata and the `PagedData.from` copy.
- **Requests** — the bean-validation annotations of the five request DTOs, as validators that return the
  validated value or the list of field errors.
- **ApiResponses**, **TaskResponseDto** and **Exceptions** — the response envelope factories, the entity
  projection, and `GlobalExceptionHandler` as one mapping from error kind to status, type, message and
  field errors.
- **Controllers** — `TaskController` as a class over the service. It covers the bulk-create guard, the bulk
  results, the status code and message of each handler, and the default page and sort.
- **JsonText** and **SeqLogging** — the `SeqAppender` log shipper:
  - the JSON string encoder, with a decoder for section 7 of RFC 8259 as its partner;
  - level mapping, exception formatting and the CLEF record (Compact Log Event Format);
  - the bounded queue, batching and flush rule, as a class with an explicit sender step.
- **RequestLogging** — the pure decisions of `RequestLoggingFilter`: which paths it skips, the client IP,
  the completion log level, and the body and slow-request thresholds.
- **Strings** and **Wrappers** — the `java.lang` string operations the source relies on, plus
  `Option`/`Result`.

Clock reads are a `now` parameter (epoch milliseconds for timestamps). Every operation of the service and
the controller is one atomic step, as under `@Transactional`.

## Model

| member | source | states |
|---|---|---|
| Services.NewTask | src/main/java/uk/gov/hmcts/reform/dev/services/TaskService.java:258-272 | A new task is PENDING whatever the request holds. It copies title, description and due time, takes the request priority or MEDIUM when absent, and starts live with no deletedAt. |
| Services.NewTaskNotOverdue | src/main/java/uk/gov/hmcts/reform/dev/services/TaskService.java:258-272 | A task created with a present-or-future due time is not overdue at creation, in the entity or in its response. |
| Services.TaskService.constructor | src/main/java/uk/gov/hmcts/reform/dev/services/TaskService.java:23-26 | The service starts with an empty store and the id counter at 1. |
| Services.TaskService.Rows | src/main/java/uk/gov/hmcts/reform/dev/repositories/TaskRepository.java:24 | The table scan holds exactly the stored rows, each under its own id. |
| Services.TaskService.CreateTask | src/main/java/uk/gov/hmcts/reform/dev/services/TaskService.java:29-43 | Stores `NewTask` under a fresh id and changes no other row. The store invariant is kept and deleted rows stay frozen. |
| Services.TaskService.CreateTasks | src/main/java/uk/gov/hmcts/reform/dev/services/TaskService.java:182-197 | One new PENDING task per draft, in draft order, with consecutive fresh ids, all stored (StoresDrafts). Existing rows are untouched and an empty list gives an empty result. |
| Services.TaskService.GetTaskById | src/main/java/uk/gov/hmcts/reform/dev/services/TaskService.java:46-58 | Found if and only if the id is stored and not deleted, and then it is that row. Otherwise the error is not-found for that id. |
| Services.TaskService.GetAllTasks | src/main/java/uk/gov/hmcts/reform/dev/services/TaskService.java:62-71 | Holds exactly the live stored tasks. |
| Services.TaskService.GetTasksWithFilters | src/main/java/uk/gov/hmcts/reform/dev/services/TaskService.java:74-95 | The page is the findWithFilters page over the stored rows, each task projected. Its total counts every live stored task passing the filters. Every item projects such a task, items are in the requested sort order, and page number and size echo the request. |
| Services.TaskService.GetOverdueTasks | src/main/java/uk/gov/hmcts/reform/dev/services/TaskService.java:98-114 | The page is the findOverdueTasks page over the stored rows, each task projected. Its total counts every overdue stored task. Every item is overdue and a live stored task, items are in sort order, and page number and size echo the request. |
| Services.TaskService.UpdateTask | src/main/java/uk/gov/hmcts/reform/dev/services/TaskService.java:117-142 | On a live task it replaces exactly title, description, due time, status and priority, keeping id, created time, deleted and deletedAt. A missing or deleted id fails not-found and leaves the store as it was. |
| Services.TaskService.UpdateTaskStatus | src/main/java/uk/gov/hmcts/reform/dev/services/TaskService.java:145-159 | On a live task only the status (and the update stamp) changes. Otherwise it fails not-found and leaves the store as it was. |
| Services.TaskService.DeleteTask | src/main/java/uk/gov/hmcts/reform/dev/services/TaskService.java:162-179 | A live task becomes deleted with deletedAt = now. A missing or already deleted id fails not-found and leaves the store as it was. |
| Services.TaskService.DeleteTasks | src/main/java/uk/gov/hmcts/reform/dev/services/TaskService.java:200-226 | The new store is `BulkDeleted` of the old one, and the count is the number of distinct live listed ids. |
| Services.TaskService.UpdateTasksStatus | src/main/java/uk/gov/hmcts/reform/dev/services/TaskService.java:229-256 | The new store is `BulkStatusChanged` of the old one, and the count is the number of distinct live listed ids. |
| Services.MarkDeleted | src/main/java/uk/gov/hmcts/reform/dev/services/TaskService.java:215-221 | The forEach loop followed by saveAll: it soft-deletes exactly the found rows and leaves every other row alone. |
| Services.MarkStatus | src/main/java/uk/gov/hmcts/reform/dev/services/TaskService.java:245-251 | The forEach loop followed by saveAll: it sets the status of exactly the found rows and leaves every other row alone. |
| Services.Updated | src/main/java/uk/gov/hmcts/reform/dev/services/TaskService.java:128-134 | The five setters replace their fields. Id, created time, deleted and deletedAt are kept. |
| Services.StatusChanged | src/main/java/uk/gov/hmcts/reform/dev/services/TaskService.java:153-154 | Only the status and the update stamp differ from the original row. |
| Services.SoftDeleted | src/main/java/uk/gov/hmcts/reform/dev/services/TaskService.java:174-176 | Only deleted, deletedAt = now and the update stamp differ from the original row. |
| Services.Affected | src/main/java/uk/gov/hmcts/reform/dev/services/TaskService.java:203-213 | An id is affected if and only if it is listed, stored and not deleted. |
| Services.ApplyTo | src/main/java/uk/gov/hmcts/reform/dev/services/TaskService.java:215-221 | Same keys as the store. The chosen rows are transformed and the others are unchanged. |
| Services.BulkDeleted | src/main/java/uk/gov/hmcts/reform/dev/services/TaskService.java:200-226 | Bulk delete keeps the store's id set. |
| Services.BulkStatusChanged | src/main/java/uk/gov/hmcts/reform/dev/services/TaskService.java:229-256 | Bulk status update keeps the store's id set. |
| Services.AffectedBounds | src/main/java/uk/gov/hmcts/reform/dev/controllers/TaskController.java:278-279 | The affected count never exceeds the number of requested ids, and an empty list affects nothing. |
| Services.Skipped | src/main/java/uk/gov/hmcts/reform/dev/services/TaskService.java:208-212 | A listed id is skipped if and only if it is unknown or already deleted. |
| Services.AffectedOfDistinctIds | src/main/java/uk/gov/hmcts/reform/dev/services/TaskService.java:208-225 | For a list without duplicates, affected = requested − skipped. |
| Services.FoundRowsAreAffected | src/main/java/uk/gov/hmcts/reform/dev/repositories/TaskRepository.java:66 | The rows `findByIdInAndDeletedFalse` returns are, by id, exactly the affected ids, one row each, and each is the stored row. |
| Services.BulkDeletedKeepsInvariant | src/main/java/uk/gov/hmcts/reform/dev/services/TaskService.java:215-221 | Bulk delete preserves the store invariant and never rewrites an already deleted row. |
| Services.BulkStatusChangedKeepsInvariant | src/main/java/uk/gov/hmcts/reform/dev/services/TaskService.java:245-251 | Bulk status update preserves the store invariant and never rewrites an already deleted row. |
| Services.BulkDeleteHidesAll | src/main/java/uk/gov/hmcts/reform/dev/services/TaskService.java:215-219 | After a bulk delete no listed id is found. Every affected row carries deletedAt = now, and repeating the call affects nothing. |
| Services.BulkStatusReachesAll | src/main/java/uk/gov/hmcts/reform/dev/services/TaskService.java:245-249 | After a bulk status update every affected row has the new status and every other row is unchanged. The same ids are affected again. |
| Services.DeleteThenNotFound | src/main/java/uk/gov/hmcts/reform/dev/services/TaskService.java:165-176 | Once a task is soft-deleted, a later get by its id finds nothing. |
| Services.FreshIdIsFree | src/main/java/uk/gov/hmcts/reform/dev/services/TaskService.java:29-43 | Under the store invariant, no id at or above the counter is in use. |
| Services.Project | src/main/java/uk/gov/hmcts/reform/dev/services/TaskService.java:94 | Page.map(fromEntity): same metadata and length, each item the projection of the task at the same position. |
| Services.ProjectKeepsOrder | src/main/java/uk/gov/hmcts/reform/dev/services/TaskService.java:94 | Projection keeps the sort order of the page. |
| Services.FilteredPageMatches | src/main/java/uk/gov/hmcts/reform/dev/services/TaskService.java:74-95 | Each projected item of a filtered page stands for a live stored task that passes the filters. |
| Services.OverduePageIsOverdue | src/main/java/uk/gov/hmcts/reform/dev/services/TaskService.java:98-114 | Each projected item of the overdue page reports overdue and stands for a live stored task. |
| Services.FilteredListingIsComplete | src/main/java/uk/gov/hmcts/reform/dev/services/TaskService.java:74-95 | Every live stored task passing the filters is projected on some page below the listing's page count. |
| Services.OverdueListingIsComplete | src/main/java/uk/gov/hmcts/reform/dev/services/TaskService.java:98-114 | Every overdue stored task is projected on some page below the overdue listing's page count. |
| Repositories.TableScan | src/main/java/uk/gov/hmcts/reform/dev/repositories/TaskRepository.java:24 | The rows are exactly the stored tasks within an id range, in strictly increasing id order. |
| Repositories.Filter | src/main/java/uk/gov/hmcts/reform/dev/repositories/TaskRepository.java:54-63 | A row is kept if and only if it is in the input and satisfies the predicate. The result is no longer than the input and keeps id order. |
| Repositories.FilterExtensional | src/main/java/uk/gov/hmcts/reform/dev/repositories/TaskRepository.java:54-63 | Two predicates that agree on the rows select the same rows. |
| Repositories.DistinctRowsCount | src/main/java/uk/gov/hmcts/reform/dev/repositories/TaskRepository.java:66 | Rows in strictly increasing id order have as many ids as rows. |
| Repositories.LikePercentMatchesAll | src/main/java/uk/gov/hmcts/reform/dev/repositories/TaskRepository.java:57 | The pattern `%` matches every string. |
| Repositories.LikePrefix | src/main/java/uk/gov/hmcts/reform/dev/repositories/TaskRepository.java:57 | `w%` matches exactly the strings with prefix w, for w without wildcards. |
| Repositories.LikeLeadingPercent | src/main/java/uk/gov/hmcts/reform/dev/repositories/TaskRepository.java:57 | `%q` matches s if and only if q matches some suffix of s. |
| Repositories.LikeContains | src/main/java/uk/gov/hmcts/reform/dev/repositories/TaskRepository.java:57 | `%w%` matches exactly the strings containing w, for w without wildcards. |
| Repositories.SearchIsCaseInsensitiveSubstring | src/main/java/uk/gov/hmcts/reform/dev/repositories/TaskRepository.java:57 | Without wildcards, the search filter holds if and only if the lower-cased search is a substring of the lower-cased title. |
| Repositories.SearchUnderscoreIsWildcard | src/main/java/uk/gov/hmcts/reform/dev/repositories/TaskRepository.java:57 | `_` in a search acts as a wildcard: "a_c" finds "ABC" although it is not a substring of "abc". |
| Repositories.SearchFindsPrefix | src/main/java/uk/gov/hmcts/reform/dev/repositories/TaskRepository.java:57 | A lower-case word that starts the title, ignoring case, is found by the search. |
| Repositories.ExampleTitleStartsWithWord | src/functionalTest/java/uk/gov/hmcts/reform/dev/TaskApiFunctionalTest.java:456-476 | "searchable" has no wildcards and starts "Searchable Unique Title" when case is ignored. |
| Repositories.SearchExample | src/functionalTest/java/uk/gov/hmcts/reform/dev/TaskApiFunctionalTest.java:456-476 | Searching "searchable" finds the title "Searchable Unique Title". |
| Repositories.CancelledCanBeOverdue | src/main/java/uk/gov/hmcts/reform/dev/repositories/TaskRepository.java:44-45 | A live CANCELLED task past its due time is overdue. A COMPLETED one never is. |
| Repositories.Insert | src/main/java/uk/gov/hmcts/reform/dev/repositories/TaskRepository.java:54-63 | Inserting into a sorted list keeps it sorted and adds exactly the one row. |
| Repositories.SortRows | src/main/java/uk/gov/hmcts/reform/dev/repositories/TaskRepository.java:54-63 | The ORDER BY of a Pageable: the result is sorted by the key and is a permutation of the input. |
| Repositories.UnsortedKeepsOrder | src/main/java/uk/gov/hmcts/reform/dev/repositories/TaskRepository.java:54-63 | An unsorted request keeps the scan order. |
| Repositories.PageOf | src/main/java/uk/gov/hmcts/reform/dev/repositories/TaskRepository.java:24 | A page reports the requested number and size and the total row count. |
| Repositories.PageOfIsSortedSubset | src/main/java/uk/gov/hmcts/reform/dev/repositories/TaskRepository.java:24 | A page holds only input rows, in the requested sort order. |
| Repositories.EveryRowOnSomePage | src/main/java/uk/gov/hmcts/reform/dev/repositories/TaskRepository.java:24 | Every row appears on some page below the reported page count. |
| Repositories.FindByIdAndDeletedFalse | src/main/java/uk/gov/hmcts/reform/dev/repositories/TaskRepository.java:21 | Present if and only if the id is stored and not deleted, and then it is the stored row. |
| Repositories.ExistsIffFound | src/main/java/uk/gov/hmcts/reform/dev/repositories/TaskRepository.java:29 | existsByIdAndDeletedFalse agrees with findByIdAndDeletedFalse. |
| Repositories.FindByDeletedFalseList | src/main/java/uk/gov/hmcts/reform/dev/repositories/TaskRepository.java:26 | Holds exactly the non-deleted rows. |
| Repositories.FindByDeletedFalse | src/main/java/uk/gov/hmcts/reform/dev/repositories/TaskRepository.java:24 | The page holds only live rows, in sort order, and its total counts every live row. |
| Repositories.FindWithFilters | src/main/java/uk/gov/hmcts/reform/dev/repositories/TaskRepository.java:54-63 | The page holds only rows passing every non-null filter, in sort order, and its total counts all of them. |
| Repositories.FindWithFiltersIsComplete | src/main/java/uk/gov/hmcts/reform/dev/repositories/TaskRepository.java:54-63 | Every row passing the filters is on some page below the page count. |
| Repositories.NoFiltersIsAllLive | src/main/java/uk/gov/hmcts/reform/dev/repositories/TaskRepository.java:54-63 | With every filter null the query is findByDeletedFalse. |
| Repositories.FindByStatusAndDeletedFalse | src/main/java/uk/gov/hmcts/reform/dev/repositories/TaskRepository.java:32 | Only live rows with that status. |
| Repositories.FindByPriorityAndDeletedFalse | src/main/java/uk/gov/hmcts/reform/dev/repositories/TaskRepository.java:35 | Only live rows with that priority. |
| Repositories.FindByStatusAndPriorityAndDeletedFalse | src/main/java/uk/gov/hmcts/reform/dev/repositories/TaskRepository.java:38 | Only live rows with that status and priority. |
| Repositories.FindByTitleContainingIgnoreCaseAndDeletedFalse | src/main/java/uk/gov/hmcts/reform/dev/repositories/TaskRepository.java:41 | Only live rows whose lower-cased title contains the lower-cased text, in sort order. The total counts all such rows. |
| Repositories.DerivedQueriesAgreeWithFilters | src/main/java/uk/gov/hmcts/reform/dev/repositories/TaskRepository.java:32-38 | The derived status, priority and status-and-priority queries equal findWithFilters with the same arguments. |
| Repositories.TitleSearchAgreesWithoutWildcards | src/main/java/uk/gov/hmcts/reform/dev/repositories/TaskRepository.java:41 | For text without wildcards, the derived title query equals the search filter of findWithFilters. |
| Repositories.FindOverdueTasks | src/main/java/uk/gov/hmcts/reform/dev/repositories/TaskRepository.java:44-45 | Only live, non-COMPLETED rows due strictly before now, in sort order. The total counts all of them. |
| Repositories.FindOverdueTasksIsComplete | src/main/java/uk/gov/hmcts/reform/dev/repositories/TaskRepository.java:44-45 | Every overdue row is on some page below the page count. |
| Repositories.FindByDueDateTimeBeforeAndDeletedFalse | src/main/java/uk/gov/hmcts/reform/dev/repositories/TaskRepository.java:48 | Only live rows due strictly before the cutoff, in sort order. The total counts all such rows. |
| Repositories.FindByDueDateTimeAfterAndDeletedFalse | src/main/java/uk/gov/hmcts/reform/dev/repositories/TaskRepository.java:51 | Only live rows due strictly after the cutoff, in sort order. The total counts all such rows. |
| Repositories.CutoffIsExcludedBothWays | src/main/java/uk/gov/hmcts/reform/dev/repositories/TaskRepository.java:48-51 | A row due exactly at the cutoff is in neither the before nor the after query. |
| Repositories.FindByIdInAndDeletedFalse | src/main/java/uk/gov/hmcts/reform/dev/repositories/TaskRepository.java:66 | Holds exactly the live rows whose id is listed, so nothing for an empty list or unknown ids. Keeps id order. |
| Paging.CeilDivCharacterization | src/test/java/uk/gov/hmcts/reform/dev/repositories/TaskRepositoryTest.java:549-559 | k is below the page count if and only if page k starts before the end of the rows. |
| Paging.Window | src/main/java/uk/gov/hmcts/reform/dev/models/dto/PagedData.java:29-41 | A window holds min(size, remaining) rows, starting at the offset. |
| Paging.WindowIsSlice | src/main/java/uk/gov/hmcts/reform/dev/models/dto/PagedData.java:29-41 | The window is the slice of the rows between the clamped offset and the clamped end. |
| Paging.Paginate | src/main/java/uk/gov/hmcts/reform/dev/models/dto/PagedData.java:29-41 | The metadata of a Spring page: number and size echo the request. totalPages = ceil(total/size). first, hasPrevious, hasNext and last follow from the position. |
| Paging.PageContentIsSlice | src/test/java/uk/gov/hmcts/reform/dev/repositories/TaskRepositoryTest.java:549-559 | A page's content is a contiguous slice of the rows starting at number × size. |
| Paging.PageIndex | src/test/java/uk/gov/hmcts/reform/dev/repositories/TaskRepositoryTest.java:549-559 | Row i is item i mod size of page i div size, and that page exists. |
| Paging.PagesUpToIsPrefix | src/test/java/uk/gov/hmcts/reform/dev/repositories/TaskRepositoryTest.java:549-559 | The first k pages together are the first k × size rows. |
| Paging.PagesCoverAllRows | src/test/java/uk/gov/hmcts/reform/dev/repositories/TaskRepositoryTest.java:549-559 | All pages up to the reported count, concatenated, are exactly the rows. |
| Paging.MapPage | src/main/java/uk/gov/hmcts/reform/dev/services/TaskService.java:94 | Mapping a page changes each item and keeps all metadata. |
| Paging.FiveRowsInPagesOfTwo | src/test/java/uk/gov/hmcts/reform/dev/repositories/TaskRepositoryTest.java:130-139 | Five rows at size 2 give 3 pages of 2, 2 and 1 rows. The third is last and a fourth is empty. |
| PagedDataDto.From | src/main/java/uk/gov/hmcts/reform/dev/models/dto/PagedData.java:29-41 | Items, page, size, totals and the four flags are copied unchanged from the page. |
| PagedDataDto.FromRoundTrip | src/main/java/uk/gov/hmcts/reform/dev/models/dto/PagedData.java:29-41 | The payload loses nothing: the page can be rebuilt from it. |
| PagedDataDto.PaginatedPayload | src/functionalTest/java/uk/gov/hmcts/reform/dev/TaskApiFunctionalTest.java:434-443 | A paged payload echoes the requested page and size, keeps item order and holds at most size items. totalPages = ceil(totalElements/size). |
| PagedDataDto.EmptyPayload | src/integrationTest/java/uk/gov/hmcts/reform/dev/controllers/TaskControllerTest.java:153-164 | An empty result gives no items, totalElements 0, no pages and no next page. |
| TaskResponseDto.FromEntity | src/main/java/uk/gov/hmcts/reform/dev/models/dto/TaskResponse.java:29-41 | Copies id, title, description, status, priority, due, created and updated. overdue holds if and only if the task is live, not COMPLETED and past due. |
| TaskResponseDto.DeletedAtIsHidden | src/main/java/uk/gov/hmcts/reform/dev/models/dto/TaskResponse.java:19-27 | deletedAt never reaches the response. |
| TaskResponseDto.NotYetDueIsNotOverdue | src/integrationTest/java/uk/gov/hmcts/reform/dev/controllers/TaskControllerTest.java:384-400 | A task not yet due projects overdue = false. |
| TaskResponseDto.OverdueDependsOnReadTime | src/main/java/uk/gov/hmcts/reform/dev/models/dto/TaskResponse.java:39 | The same live, unfinished task reads as not overdue before its due time and overdue after it. |
| ApiResponses.SuccessWith | src/main/java/uk/gov/hmcts/reform/dev/models/dto/ApiResponse.java:50-57 | success = true, the given data and message, no error. |
| ApiResponses.Success | src/main/java/uk/gov/hmcts/reform/dev/models/dto/ApiResponse.java:41-48 | success = true, the given data, message "Operation completed successfully". |
| ApiResponses.CreatedWith | src/main/java/uk/gov/hmcts/reform/dev/models/dto/ApiResponse.java:68-75 | success = true, the given data and message, no error. |
| ApiResponses.Created | src/main/java/uk/gov/hmcts/reform/dev/models/dto/ApiResponse.java:59-66 | success = true, the given data, message "Resource created successfully". |
| ApiResponses.DeletedWith | src/main/java/uk/gov/hmcts/reform/dev/models/dto/ApiResponse.java:85-91 | success = true with neither data nor error, and the given message. |
| ApiResponses.Deleted | src/main/java/uk/gov/hmcts/reform/dev/models/dto/ApiResponse.java:77-83 | success = true with no data, message "Resource deleted successfully". |
| ApiResponses.Error | src/main/java/uk/gov/hmcts/reform/dev/models/dto/ApiResponse.java:93-103 | success = false, no data, error with the code and type and no fieldErrors. |
| ApiResponses.ErrorWithFields | src/main/java/uk/gov/hmcts/reform/dev/models/dto/ApiResponse.java:105-117 | success = false, no data, error carrying the given fieldErrors map. |
| ApiResponses.EveryFactoryIsWellFormed | src/main/java/uk/gov/hmcts/reform/dev/models/dto/ApiResponse.java:18-24 | Every factory builds an envelope that never has both data and error, with error details exactly when it reports failure. The success, created and deleted factories report success, and the error factories report failure. |
| Exceptions.NotFoundMessage | src/main/java/uk/gov/hmcts/reform/dev/exceptions/TaskNotFoundException.java:6 | The message starts with "Task not found with id: ". |
| Exceptions.NotFoundMessageRoundTrip | src/main/java/uk/gov/hmcts/reform/dev/exceptions/TaskNotFoundException.java:6 | The id can be read back from the message, so different ids give different messages. |
| Exceptions.NotFoundMessageExample | src/main/java/uk/gov/hmcts/reform/dev/exceptions/TaskNotFoundException.java:6 | Id 999 gives "Task not found with id: 999". |
| Exceptions.TypeMismatchMessage | src/main/java/uk/gov/hmcts/reform/dev/exceptions/GlobalExceptionHandler.java:80-95 | "Invalid value '…' for parameter '…'", with the value ("null" when absent) and the name inserted. |
| Exceptions.Handle | src/main/java/uk/gov/hmcts/reform/dev/exceptions/GlobalExceptionHandler.java:20-108 | Every handler answers success = false, no data, error.code = HTTP status. The status is 404 if and only if not-found, 500 if and only if unexpected, otherwise 400. fieldErrors is present if and only if validation failed. |
| Exceptions.HandleTypesAndMessages | src/main/java/uk/gov/hmcts/reform/dev/exceptions/GlobalExceptionHandler.java:20-108 | The type and message of each of the six handlers. |
| Exceptions.UnexpectedDetailIsHidden | src/main/java/uk/gov/hmcts/reform/dev/exceptions/GlobalExceptionHandler.java:97-108 | The text of an unexpected exception never changes the response. |
| Exceptions.HandleValidationErrors | src/main/java/uk/gov/hmcts/reform/dev/exceptions/GlobalExceptionHandler.java:33-52 | The loop building the field-error map gives exactly the validation response of `Handle`. |
| Requests.FieldErrorMap | src/main/java/uk/gov/hmcts/reform/dev/exceptions/GlobalExceptionHandler.java:35-38 | The map's keys are exactly the fields that have errors. |
| Requests.FieldErrorMapLastWins | src/main/java/uk/gov/hmcts/reform/dev/exceptions/GlobalExceptionHandler.java:35-38 | A field keeps the message of its last error, as repeated map puts do. |
| Requests.FieldErrorMapOfDistinct | src/main/java/uk/gov/hmcts/reform/dev/exceptions/GlobalExceptionHandler.java:35-38 | When fields are distinct, every error appears in the map under its field. |
| Requests.DistinctAppend | src/main/java/uk/gov/hmcts/reform/dev/exceptions/GlobalExceptionHandler.java:35-38 | Joining error lists over disjoint fields keeps the fields distinct. |
| Requests.TitleErrors | src/main/java/uk/gov/hmcts/reform/dev/models/dto/CreateTaskRequest.java:20-21 | A null, empty or whitespace-only title gives exactly one "Title is required" error. |
| Requests.DueDateErrors | src/main/java/uk/gov/hmcts/reform/dev/models/dto/CreateTaskRequest.java:25-27 | A null due time gives "Due date/time is required". A past one gives the present-or-future message. At most one of them. |
| Requests.RequiredErrors | src/main/java/uk/gov/hmcts/reform/dev/models/dto/UpdateTaskRequest.java:30-34 | A missing required field gives exactly its message, and a present one gives none. |
| Requests.NotEmptyErrors | src/main/java/uk/gov/hmcts/reform/dev/models/dto/BulkDeleteRequest.java:17-18 | No error if and only if the list is present and non-empty. Otherwise exactly one error, on the named field with the given message. |
| Requests.NewCreateTaskRequest | src/main/java/uk/gov/hmcts/reform/dev/models/dto/CreateTaskRequest.java:29 | A freshly built request has priority MEDIUM and the given title, description and due time. |
| Requests.CreateTaskErrors | src/main/java/uk/gov/hmcts/reform/dev/models/dto/CreateTaskRequest.java:20-29 | Each error is present if and only if its condition holds. Only title and dueDateTime can fail, and at most once each. |
| Requests.ValidateCreate | src/main/java/uk/gov/hmcts/reform/dev/models/dto/CreateTaskRequest.java:20-29 | Valid if and only if the title is not blank and the due time is present and not past. Description and priority are unconstrained. Otherwise the errors are all listed. |
| Requests.ValidateCreateList | src/main/java/uk/gov/hmcts/reform/dev/controllers/TaskController.java:82-83 | Valid if and only if every element is valid as a single create body. Then the drafts are in element order. Otherwise the errors are those of the first invalid element. |
| Requests.CreateFieldErrorsExample | src/main/java/uk/gov/hmcts/reform/dev/models/dto/CreateTaskRequest.java:20-27 | A blank title with no due time gives both the title and the due-time messages. |
| Requests.StatusAndPriorityErrors | src/main/java/uk/gov/hmcts/reform/dev/models/dto/UpdateTaskRequest.java:30-34 | A missing status gives "Status is required" and a missing priority gives "Priority is required", each if and only if the field is absent. |
| Requests.UpdateTaskErrors | src/main/java/uk/gov/hmcts/reform/dev/models/dto/UpdateTaskRequest.java:21-34 | Each of the five errors is present if and only if its condition holds. Fields are distinct, and priority has no default. |
| Requests.ValidateUpdate | src/main/java/uk/gov/hmcts/reform/dev/models/dto/UpdateTaskRequest.java:21-34 | Valid if and only if the title is not blank, the due time is present and not past, and status and priority are present. Otherwise the errors are all listed. |
| Requests.ValidateUpdateStatus | src/main/java/uk/gov/hmcts/reform/dev/models/dto/UpdateStatusRequest.java:16-17 | Any of the four statuses is accepted as is. A missing status gives exactly one "Status is required" error. |
| Requests.BulkStatusUpdateErrors | src/main/java/uk/gov/hmcts/reform/dev/models/dto/BulkStatusUpdateRequest.java:19-23 | The ids error if and only if ids are null or empty. The status error if and only if status is null. Both can appear together. |
| Requests.ValidateBulkStatusUpdate | src/main/java/uk/gov/hmcts/reform/dev/models/dto/BulkStatusUpdateRequest.java:19-23 | Valid if and only if there are ids and a status. The id values themselves are not checked. |
| Requests.ValidateBulkDelete | src/main/java/uk/gov/hmcts/reform/dev/models/dto/BulkDeleteRequest.java:17-18 | Any non-empty id list is accepted as is. A null or empty list gives "Task IDs list cannot be empty". |
| Requests.BulkDeleteExample | src/integrationTest/java/uk/gov/hmcts/reform/dev/controllers/TaskControllerTest.java:458-470 | `{"ids":[1,2,3]}` is accepted and an empty list is rejected. |
| Controllers.CountMessage | src/main/java/uk/gov/hmcts/reform/dev/controllers/TaskController.java:241-242 | The message ends with the fixed text, and the count can be read back from what precedes it. |
| Controllers.ResolvePageable | src/main/java/uk/gov/hmcts/reform/dev/controllers/TaskController.java:135 | Requested page and size are used when in range and otherwise fall back to 0, 20 or 2000. A requested sort is used only when it sorts; an absent or unsorted one gives the handler's default sort. A request with none of them gives page 0, size 20 and the default sort. |
| Controllers.KeyOrderIsFieldOrder | src/main/java/uk/gov/hmcts/reform/dev/controllers/TaskController.java:135-153 | The listing default is createdAt descending and the overdue default is dueDateTime ascending. |
| Controllers.BulkResultCounts | src/main/java/uk/gov/hmcts/reform/dev/controllers/TaskController.java:231-232 | Affected is the number of rows the id lookup loads and never exceeds requested. With distinct ids, affected is requested minus the missing or deleted ids. |
| Controllers.TaskController.constructor | src/main/java/uk/gov/hmcts/reform/dev/controllers/TaskController.java:45-49 | The controller wraps the given service. |
| Controllers.TaskController.CreateTask | src/main/java/uk/gov/hmcts/reform/dev/controllers/TaskController.java:58-72 | 201 "Task created successfully" with the projection of the new task if and only if the request is valid. Otherwise the validation response, with the store unchanged. |
| Controllers.TaskController.CreateTasks | src/main/java/uk/gov/hmcts/reform/dev/controllers/TaskController.java:81-103 | All or nothing. An invalid element gives the validation response, and a null or empty list gives "At least one task is required". In both cases the store and the id counter are unchanged. Otherwise 201, with one item per request in request order and the count in the message, and the store holds exactly the old rows plus the new tasks under consecutive ids. |
| Controllers.TaskController.SaveDrafts | src/main/java/uk/gov/hmcts/reform/dev/controllers/TaskController.java:92-103 | 201 with one projection per draft in order and the count in the message. The store gains exactly the new tasks under consecutive ids. |
| Controllers.TaskController.GetTaskById | src/main/java/uk/gov/hmcts/reform/dev/controllers/TaskController.java:112-125 | 200 with the projection if and only if the task is live. Otherwise the not-found response. |
| Controllers.TaskController.GetAllTasks | src/main/java/uk/gov/hmcts/reform/dev/controllers/TaskController.java:130-146 | 200 "Tasks retrieved successfully". The payload is the service's filtered page for the resolved pageable. Page and size echo it, the total counts every live task passing the filters, and items are in the resolved sort order (newest first whenever the request gives no sort or an unsorted one). |
| Controllers.TaskController.GetOverdueTasks | src/main/java/uk/gov/hmcts/reform/dev/controllers/TaskController.java:151-165 | 200 "Overdue tasks retrieved successfully". The payload is the service's overdue page for the resolved pageable. Page and size echo it, the total counts every overdue task, and items are overdue and in the resolved sort order (earliest due first whenever the request gives no sort or an unsorted one). |
| Controllers.TaskController.UpdateTask | src/main/java/uk/gov/hmcts/reform/dev/controllers/TaskController.java:176-191 | Validation first, then not-found. 200 if and only if valid and live, with the updated projection. |
| Controllers.TaskController.UpdateTaskStatus | src/main/java/uk/gov/hmcts/reform/dev/controllers/TaskController.java:202-215 | A missing status gives the validation response. 200 if and only if a status is given and the task is live. The store is unchanged on failure. |
| Controllers.TaskController.UpdateTasksStatus | src/main/java/uk/gov/hmcts/reform/dev/controllers/TaskController.java:224-243 | 200 if and only if the request validates. The result has affected = service count and requested = number of ids, with affected <= requested, and the message embeds the count. |
| Controllers.TaskController.DeleteTask | src/main/java/uk/gov/hmcts/reform/dev/controllers/TaskController.java:252-263 | 200 "Task deleted successfully" with no data if and only if the task was live. Otherwise not-found, with the store unchanged. |
| Controllers.TaskController.DeleteTasks | src/main/java/uk/gov/hmcts/reform/dev/controllers/TaskController.java:272-289 | 200 if and only if the id list is non-empty. The result has affected = service count and requested = number of ids, with affected <= requested. |
| Controllers.LifecycleScenario | src/integrationTest/java/uk/gov/hmcts/reform/dev/controllers/TaskControllerTest.java:239-254 | Create gives 201 PENDING not overdue. Setting CANCELLED gives 200. Delete gives 200 with no data. A later get is 404 NOT_FOUND. |
| JsonText.HexRoundTrip | src/main/java/uk/gov/hmcts/reform/dev/logging/SeqAppender.java:238-239 | Each lower-case hex digit reads back as its value. |
| JsonText.EscapeChar | src/main/java/uk/gov/hmcts/reform/dev/logging/SeqAppender.java:229-244 | Every character escapes to a non-empty text with no control characters. |
| JsonText.EscapeAppend | src/main/java/uk/gov/hmcts/reform/dev/logging/SeqAppender.java:228-246 | Escaping works character by character: escaping a concatenation concatenates the escapes. |
| JsonText.JsonString | src/main/java/uk/gov/hmcts/reform/dev/logging/SeqAppender.java:223-248 | The output is at least two characters long (`null` or a quoted literal). |
| JsonText.EscapeHasNoControlChars | src/main/java/uk/gov/hmcts/reform/dev/logging/SeqAppender.java:229-244 | No raw control character survives escaping. |
| JsonText.PlainEscapesToItself | src/main/java/uk/gov/hmcts/reform/dev/logging/SeqAppender.java:229-244 | Text with no control characters, quotes or backslashes is copied unchanged. |
| JsonText.ReadJsonString | src/main/java/uk/gov/hmcts/reform/dev/logging/SeqAppender.java:223-248 | A JSON reader reads the encoded value back and stops exactly after it. |
| JsonText.JsonStringRoundTrip | src/main/java/uk/gov/hmcts/reform/dev/logging/SeqAppender.java:223-248 | Decoding the output as a section 7 RFC 8259 literal (or `null`) gives back the input. |
| JsonText.JsonStringInjective | src/main/java/uk/gov/hmcts/reform/dev/logging/SeqAppender.java:223-248 | Different inputs give different outputs. |
| JsonText.ControlEscapeExamples | src/main/java/uk/gov/hmcts/reform/dev/logging/SeqAppender.java:238-239 | U+0001 becomes `\u0001` and U+001F becomes `\u001f`, in lower-case hex. |
| JsonText.JsonStringOf | src/main/java/uk/gov/hmcts/reform/dev/logging/SeqAppender.java:223-248 | The StringBuilder loop produces exactly `JsonString`. |
| SeqLogging.MapLevel | src/main/java/uk/gov/hmcts/reform/dev/logging/SeqAppender.java:200-209 | Always one of the five Seq levels. An unknown level gives "Information". |
| SeqLogging.MapLevelKeepsSeverity | src/main/java/uk/gov/hmcts/reform/dev/logging/SeqAppender.java:200-209 | TRACE, DEBUG, INFO, WARN and ERROR map in order to Verbose, Debug, Information, Warning and Error. |
| SeqLogging.Formatted | src/main/java/uk/gov/hmcts/reform/dev/logging/SeqAppender.java:211-221 | The text starts with "Class: ". |
| SeqLogging.FormattedIsJoinOfChain | src/main/java/uk/gov/hmcts/reform/dev/logging/SeqAppender.java:211-221 | The text is one block per exception of the cause chain, outermost first, joined by "\nCaused by: ". |
| SeqLogging.FormatException | src/main/java/uk/gov/hmcts/reform/dev/logging/SeqAppender.java:211-221 | The frame loop and the recursive cause produce exactly `Formatted`. |
| SeqLogging.ExceptionText | src/main/java/uk/gov/hmcts/reform/dev/logging/SeqAppender.java:175-177 | @x text is present if and only if the event has a throwable. |
| SeqLogging.ClefRoundTrip | src/main/java/uk/gov/hmcts/reform/dev/logging/SeqAppender.java:160-198 | With plain MDC keys, parsing the record as a JSON object gives back its members in order. |
| SeqLogging.ClefShape | src/main/java/uk/gov/hmcts/reform/dev/logging/SeqAppender.java:160-198 | A record starts with `{"@t":` and ends with `}`. |
| SeqLogging.ClefMembers | src/main/java/uk/gov/hmcts/reform/dev/logging/SeqAppender.java:160-198 | @t, @m, @l, SourceContext, ThreadName and Application = "test-backend" are always there. @x is the formatted throwable, and is present if and only if there is a throwable (unless MDC itself names @x). |
| SeqLogging.ClefIsOneLine | src/main/java/uk/gov/hmcts/reform/dev/logging/SeqAppender.java:160-198 | With plain MDC keys a record contains no newline or other control character. |
| SeqLogging.ToClef | src/main/java/uk/gov/hmcts/reform/dev/logging/SeqAppender.java:160-198 | The StringBuilder steps, including the MDC loop, produce exactly `Clef`. |
| SeqLogging.BatchIsJoin | src/main/java/uk/gov/hmcts/reform/dev/logging/SeqAppender.java:86-90 | A batch is the events joined by single newlines, with no leading or trailing newline. |
| SeqLogging.SplitJoin | src/main/java/uk/gov/hmcts/reform/dev/logging/SeqAppender.java:86-90 | Splitting a joined batch on newlines gives back the events when none contains a newline. |
| SeqLogging.BatchOfRecordsSplits | src/main/java/uk/gov/hmcts/reform/dev/logging/SeqAppender.java:86-90 | A batch of CLEF records splits back into exactly those records. |
| SeqLogging.FlushRule | src/main/java/uk/gov/hmcts/reform/dev/logging/SeqAppender.java:94-96 | Never flushes an empty batch. Always flushes at 50 events or once stopped. Holds a small fresh batch while running. |
| SeqLogging.JoinEvents | src/main/java/uk/gov/hmcts/reform/dev/logging/SeqAppender.java:111-119 | The drain loop's StringBuilder produces exactly `Batch`. |
| SeqLogging.SeqAppender.constructor | src/main/java/uk/gov/hmcts/reform/dev/logging/SeqAppender.java:25-33 | A new appender is stopped, with nothing queued, batched or sent. |
| SeqLogging.SeqAppender.Start | src/main/java/uk/gov/hmcts/reform/dev/logging/SeqAppender.java:44-52 | Starts running with an empty queue and batch and a fresh flush clock. |
| SeqLogging.SeqAppender.Append | src/main/java/uk/gov/hmcts/reform/dev/logging/SeqAppender.java:67-75 | When started and the queue holds fewer than 1000 events, the record is queued. Otherwise nothing changes. |
| SeqLogging.SeqAppender.Poll | src/main/java/uk/gov/hmcts/reform/dev/logging/SeqAppender.java:84-91 | The head of the queue, if any, moves to the end of the batch. |
| SeqLogging.SeqAppender.FlushIfDue | src/main/java/uk/gov/hmcts/reform/dev/logging/SeqAppender.java:94-103 | When the flush rule holds, the batch is sent and cleared and the clock reset. Otherwise nothing is sent. |
| SeqLogging.SeqAppender.SendStep | src/main/java/uk/gov/hmcts/reform/dev/logging/SeqAppender.java:82-103 | One iteration of the sender loop: poll then flush-if-due. |
| SeqLogging.SeqAppender.FlushQueue | src/main/java/uk/gov/hmcts/reform/dev/logging/SeqAppender.java:111-123 | Whatever is queued is sent as one batch, and the queue ends empty. |
| SeqLogging.SeqAppender.SendPending | src/main/java/uk/gov/hmcts/reform/dev/logging/SeqAppender.java:104-107 | The corrected interrupt path: the sender's partial batch is sent before exiting. |
| SeqLogging.SeqAppender.Drain | src/main/java/uk/gov/hmcts/reform/dev/logging/SeqAppender.java:55-64 | The pending batch and then the queue are sent, and every accepted event so far ends up in a sent batch. |
| SeqLogging.SeqAppender.StopAsWritten | src/main/java/uk/gov/hmcts/reform/dev/logging/SeqAppender.java:55-64 | stop() as written: only the queue is flushed, and the sender's partial batch is discarded. |
| SeqLogging.SeqAppender.Stop | src/main/java/uk/gov/hmcts/reform/dev/logging/SeqAppender.java:55-64 | Corrected stop: every event accepted since start is delivered, in order, across the sent batches. |
| SeqLogging.SentPayloadsAreJoins | src/main/java/uk/gov/hmcts/reform/dev/logging/SeqAppender.java:98-103 | Every payload sent is the newline join of its batch's events. |
| SeqLogging.LostOnStop | src/main/java/uk/gov/hmcts/reform/dev/logging/SeqAppender.java:55-109 | An event polled into the batch and then stopped before the flush interval is never sent. |
| SeqLogging.DeliveredOnStop | src/main/java/uk/gov/hmcts/reform/dev/logging/SeqAppender.java:55-109 | With the corrected stop the same event is sent. |
| RequestLogging.ApiPathsAreLogged | src/main/java/uk/gov/hmcts/reform/dev/logging/RequestLoggingFilter.java:78-85 | API paths such as /api/v1/tasks are not skipped. |
| RequestLogging.DocsAndAssetsAreSkipped | src/main/java/uk/gov/hmcts/reform/dev/logging/RequestLoggingFilter.java:78-85 | /swagger…, /v3/api-docs…, /actuator… and paths ending .css, .js or .ico are skipped. |
| RequestLogging.SkipIffListed | src/main/java/uk/gov/hmcts/reform/dev/logging/RequestLoggingFilter.java:78-85 | A request is skipped if and only if its URI starts with one of the three skipped prefixes or ends with one of the three skipped suffixes. |
| RequestLogging.ApiRequestsAreLogged | src/main/java/uk/gov/hmcts/reform/dev/logging/RequestLoggingFilter.java:78-85 | A URI under /api/ is skipped if and only if it ends with .css, .js or .ico. |
| RequestLogging.ClientIpAsWrittenChoice | src/main/java/uk/gov/hmcts/reform/dev/logging/RequestLoggingFilter.java:146-156 | As written, the method fails if and only if X-Forwarded-For is non-empty and all commas. A usable X-Forwarded-For gives its first element trimmed. Then comes X-Real-IP, then the remote address. |
| RequestLogging.CommaHeaderFails | src/main/java/uk/gov/hmcts/reform/dev/logging/RequestLoggingFilter.java:148-149 | An X-Forwarded-For of "," makes the method fail. |
| RequestLogging.ClientIpCorrected | src/main/java/uk/gov/hmcts/reform/dev/logging/RequestLoggingFilter.java:146-156 | The corrected method agrees with the original wherever the original answers, and otherwise falls back to X-Real-IP or the remote address. |
| RequestLogging.FirstHopWins | src/main/java/uk/gov/hmcts/reform/dev/logging/RequestLoggingFilter.java:148-150 | For "hop,rest" the client IP is the trimmed first hop. |
| RequestLogging.FullPath | src/main/java/uk/gov/hmcts/reform/dev/logging/RequestLoggingFilter.java:89 | The logged path starts with the URI. |
| RequestLogging.FullPathSplits | src/main/java/uk/gov/hmcts/reform/dev/logging/RequestLoggingFilter.java:89 | The URI and query can be recovered from the logged path by splitting at the first "?". |
| RequestLogging.CompletionLevel | src/main/java/uk/gov/hmcts/reform/dev/logging/RequestLoggingFilter.java:111-112 | ERROR if and only if status ≥ 500, WARN if and only if 400–499, INFO if and only if below 400. |
| RequestLogging.CompletionLines | src/main/java/uk/gov/hmcts/reform/dev/logging/RequestLoggingFilter.java:107-136 | The first completion line is "Request completed" at the completion level. |
| RequestLogging.FilterLinesShape | src/main/java/uk/gov/hmcts/reform/dev/logging/RequestLoggingFilter.java:37-76 | A skipped path logs nothing. Otherwise the first line is the INFO start line, and there is exactly one completion line at the completion level. |
| RequestLogging.ResponseBodyLoggedIff | src/main/java/uk/gov/hmcts/reform/dev/logging/RequestLoggingFilter.java:122-143 | The body is logged if and only if status ≥ 400 and 0 < length < 2000. |
| RequestLogging.SlowWarningIff | src/main/java/uk/gov/hmcts/reform/dev/logging/RequestLoggingFilter.java:133-135 | The slow-request warning appears if and only if duration > 1000 ms. |
| RequestLogging.CompletionSeqLevel | src/main/java/uk/gov/hmcts/reform/dev/logging/RequestLoggingFilter.java:112 | Shipped to Seq, completion lines arrive as Error, Warning or Information. |
| Strings.LongToStringRoundTrip | src/main/java/uk/gov/hmcts/reform/dev/exceptions/TaskNotFoundException.java:6 | Decimal rendering of a long parses back to the same number. |
| Strings.IsBlankMeansAllTrimmable | src/main/java/uk/gov/hmcts/reform/dev/models/dto/CreateTaskRequest.java:20 | A string is blank if and only if every character is whitespace. |
| Strings.Lower | src/main/java/uk/gov/hmcts/reform/dev/repositories/TaskRepository.java:57 | Lower-casing keeps the length and works character by character. |
| Strings.JavaSplitFirst | src/main/java/uk/gov/hmcts/reform/dev/logging/RequestLoggingFilter.java:149 | `split(",")` on a non-empty string is empty if and only if the string is all commas. Otherwise its first element is the text before the first comma. |
| Strings.Trim | src/main/java/uk/gov/hmcts/reform/dev/logging/RequestLoggingFilter.java:149 | The result neither starts nor ends with whitespace. |

## Left out

- Spring wiring is not modelled: routing, `@Valid` plumbing, Swagger annotations, dependency injection and `@Transactional`. Each handler and service method is one atomic step.
- The request DTO validators run inside the controller model, standing in for `@Valid`. The service methods take the validated `TaskDraft`/`TaskUpdate`.
- Controllers.TaskController.CreateTasks: each list element is validated as a single create body, and the first invalid element's field errors, under their plain field names, make the validation response. How the framework names the fields of list elements (index-prefixed paths), and whether its version validates list elements with a different exception, is not modelled.
- The `Task` entity is not part of this model. `createdAt` and `updatedAt` are stamped with the `now` parameter. The entity's overdue flag is taken to be the predicate of the overdue query at `TaskRepository.java:44`, so `Models.IsOverdue` serves both.
- Ids come from a counter starting at 1, standing in for the database identity column.
- ORM sorting by an arbitrary property name is restricted to the integer-valued properties id, dueDateTime, createdAt and updatedAt.
- Ties in a sort fall back to the scan (id) order, which the database does not promise.
- SQL `LIKE` has no escape character. Lower-casing is ASCII only.
- The database's own `LOWER` collation is not modelled.
- Clock reads (`LocalDateTime.now()`, `System.currentTimeMillis()`) are parameters. `ISO_INSTANT` formatting is an opaque string.
- Log and MDC calls in the service and the controller are left out. In the filter, log messages are modelled by their kind and level only, without their text.
- `RootController` has constant responses and no logic, and is left out.
- The `SeqAppender` sender thread, the `ArrayBlockingQueue` blocking poll and timeouts, and thread interruption are concurrency. The model runs the sender as explicit `SendStep` calls on one thread.
- `sendToSeq` posts over HTTP (`HttpURLConnection`) and is recorded only as the list of sent payloads. Its API key header, status check and `System.err`/`System.out` printing are left out.
- UTF-16 surrogate pairs are not modelled: characters are Unicode scalar values, and the JSON decoder does not read `\uXXXX` surrogate pairs.
- Stack frames of an exception are opaque strings.
- MDC keys are written unescaped (`SeqAppender.java:192`). `SeqLogging.ClefRoundTrip` and `SeqLogging.ClefIsOneLine` therefore require plain keys.
- The servlet layer of `RequestLoggingFilter` is left out: content-caching wrappers, `copyBodyToResponse`, the UUID request id and MDC put/clear.
- SeqLogging.SeqAppender.Start: requires a stopped appender. A restart after stop is modelled and begins with an empty queue and batch. Calling start() on a running appender, which in the source replaces the queue and starts a second sender thread, is not.
- SeqLogging.SeqAppender.FlushQueue: requires the appender to be stopped. It is only called from stop().
- SeqLogging.SeqAppender.Append: a never-started appender has no queue in the source. The model gives it an empty queue, and events are ignored either way. For the same reason stop() before start() throws a NullPointerException in flushQueue (SeqAppender.java:114); `StopAsWritten` and `Stop` model that call as returning normally with nothing sent.
- SeqLogging.SeqAppender.StopAsWritten: models the interleaving where the sender is blocked in `poll` when it is interrupted. Other interleavings can deliver the pending batch.
- Controllers.LifecycleScenario: requires a non-blank title.
- Controllers.ResolvePageable: only the defaults, the accepted range and the sorted-or-default choice are modelled. Spring's full request-parameter parsing (text to numbers and sort orders, multi-property sorts) is not; a sort that parses to nothing arrives as `Some(Unsorted)` or `None`.

## Findings

| source | as written | input that shows it | evidently intended | confidence | as-written member | corrected member |
|---|---|---|---|---|---|---|
| src/main/java/uk/gov/hmcts/reform/dev/logging/SeqAppender.java:55-109 | `stop()` interrupts the sender and then flushes only the queue. The sender's partially filled batch is dropped when the interrupt ends its loop. | Start, append one event, let the sender poll it into its batch, then `stop()` within 1000 ms. | Every accepted event is delivered on stop. | medium; not executed | SeqLogging.LostOnStop | SeqLogging.DeliveredOnStop |
| src/main/java/uk/gov/hmcts/reform/dev/logging/RequestLoggingFilter.java:146-150 | `forwardedFor.split(",")[0]` on a header made only of commas: Java's split gives an empty array, so indexing throws `ArrayIndexOutOfBoundsException` and the request fails. | `X-Forwarded-For: ,` | Fall back to X-Real-IP and then the remote address. | high; not executed | RequestLogging.CommaHeaderFails | RequestLogging.ClientIpCorrected |
