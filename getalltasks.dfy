/** The listing use case: default arguments, one `findAll` call, and the
    result repackaged under `tasks`. */
module GetAllTasks {
  import opened Wrappers
  import opened Domain
  import opened TaskRepository

  /** `{ tasks, pagination }`. */
  datatype TaskList = TaskList(tasks: seq<Task>, pagination: Pagination)

  /** An omitted argument (None) takes its default value. */
  function ArgumentOr(arg: Option<int>, fallback: int): int {
    if arg.Some? then arg.value else fallback
  }

  /** `execute(page = 1, limit = 10)`: the arguments go to `findAll` as given,
      and its data and pagination come back unchanged. */
  function Execute(store: TaskStore, page: Option<int>, limit: Option<int>): (r: TaskList)
    reads store
    requires ArgumentOr(page, 1) >= 0 && ArgumentOr(limit, 10) >= 0
    ensures var result := store.FindAll(Some(PaginationOptions(ArgumentOr(page, 1), ArgumentOr(limit, 10))));
            r.tasks == result.data && r.pagination == result.pagination
    ensures page.Some? && page.value != 0 ==> r.pagination.page == page.value
    ensures limit.Some? && limit.value != 0 ==> r.pagination.limit == limit.value
    ensures page.None? ==> r.pagination.page == 1
    ensures limit.None? ==> r.pagination.limit == 10
  {
    var result := store.FindAll(Some(PaginationOptions(ArgumentOr(page, 1), ArgumentOr(limit, 10))));
    TaskList(result.data, result.pagination)
  }

  /** Omitting both arguments is the same as passing 1 and 10, and the same as
      the repository's own defaults for absent options. */
  lemma DefaultArguments(store: TaskStore)
    ensures Execute(store, None, None) == Execute(store, Some(1), Some(10))
    ensures Execute(store, None, None).tasks == store.FindAll(None).data
    ensures Execute(store, None, None).pagination == store.FindAll(None).pagination
  {
  }
}
