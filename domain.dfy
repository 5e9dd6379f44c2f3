/** The domain entity and the records that cross the repository port. */
module Domain {
  import opened Wrappers
  import opened Json

  /** The Task entity. Times are instants given as natural numbers. */
  datatype Task = Task(
    id: string,
    titulo: string,
    descripcion: Option<string>,
    estatus: bool,
    createdAt: nat,
    updatedAt: nat,
    completedAt: Option<nat>,
    schemaVersion: nat)

  /** The input of the create use case exactly as the controller forwards it:
      its fields are whatever the request carried. */
  datatype CreateTaskRequest = CreateTaskRequest(titulo: JsValue, descripcion: JsValue)

  /** The typed DTO the create use case hands to the repository. */
  datatype CreateTaskDto = CreateTaskDto(titulo: string, descripcion: Option<string>)

  datatype PaginationOptions = PaginationOptions(page: int, limit: int)

  datatype Pagination = Pagination(page: int, limit: int, total: nat, totalPages: int)

  datatype PaginatedResult = PaginatedResult(data: seq<Task>, pagination: Pagination)
}
