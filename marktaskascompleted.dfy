/**
 * The status-change use case: two checks on the id, an existence lookup, then
 * the status update. The ObjectId format check belongs to the database
 * library and is passed in as a predicate.
 */
module MarkTaskAsCompleted {
  import opened Wrappers
  import opened JsText
  import opened Errors
  import opened Domain
  import opened TaskSchema
  import opened TaskRepository

  const InvalidIdMessage := "ID de tarea inválido"
  const TaskNotFoundMessage := "No se encuentra dicha tarea en nuestro sistema"

  function NotFoundFault(): Fault {
    Raise(AppErrorKind.NotFound, TaskNotFoundMessage)
  }

  /** The id checks in their order: an empty or blank id is a bad request; an
      id the ObjectId format check refuses is reported as not found. */
  function CheckId(taskId: string, isValidObjectId: string -> bool): (r: Option<Fault>)
    ensures r == Some(Raise(AppErrorKind.BadRequest, InvalidIdMessage)) <==> AllWhitespace(taskId)
    ensures r == Some(NotFoundFault()) <==> !AllWhitespace(taskId) && !isValidObjectId(taskId)
    ensures r.None? <==> !AllWhitespace(taskId) && isValidObjectId(taskId)
  {
    TrimEmptyIff(taskId);
    if taskId == [] || Utf16Length(Trim(taskId)) == 0 then Some(Raise(AppErrorKind.BadRequest, InvalidIdMessage))
    else if !isValidObjectId(taskId) then Some(NotFoundFault())
    else None
  }

  /** The outcome of the use case on a collection. */
  function Outcome(ds: seq<TaskDoc>, taskId: string, estatus: bool, isValidObjectId: string -> bool, now: nat): (r: Result<Task, Fault>)
    ensures r.Ok? ==> CheckId(taskId, isValidObjectId).None? && IndexOfId(ds, taskId).Some?
    ensures r.Ok? ==> r.value.id == taskId && r.value.estatus == estatus
    ensures r.Ok? ==> r.value.completedAt == (if estatus then Some(now) else None)
    ensures r.Err? ==> r.error.AppFault?
  {
    match CheckId(taskId, isValidObjectId)
    case Some(f) => Err(f)
    case None =>
      match IndexOfId(ds, taskId)
      case None => Err(NotFoundFault())
      case Some(k) => Ok(MapToEntity(AfterStatusUpdate(ds[k], estatus, now)))
  }

  /** The collection after the use case: only the document with the id changes,
      and only when the use case succeeds. */
  function After(ds: seq<TaskDoc>, taskId: string, estatus: bool, isValidObjectId: string -> bool, now: nat): (r: seq<TaskDoc>)
    ensures |r| == |ds|
  {
    if Outcome(ds, taskId, estatus, isValidObjectId, now).Ok? then
      var k := IndexOfId(ds, taskId).value;
      ds[k := AfterStatusUpdate(ds[k], estatus, now)]
    else ds
  }

  /** `execute`: the id checks, then `findById`, then `updateCompleted` with
      the caller's estatus; a missing task at either step is not found. */
  method Execute(store: TaskStore, taskId: string, estatus: bool, isValidObjectId: string -> bool, now: nat)
    returns (r: Result<Task, Fault>)
    requires store.Valid()
    modifies store
    ensures store.Valid()
    ensures r == Outcome(old(store.docs), taskId, estatus, isValidObjectId, now)
    ensures store.docs == After(old(store.docs), taskId, estatus, isValidObjectId, now)
  {
    var invalid := CheckId(taskId, isValidObjectId);
    if invalid.Some? {
      return Err(invalid.value);
    }
    var existing := store.FindById(taskId);
    if existing.None? {
      return Err(NotFoundFault());
    }
    var updated := store.UpdateCompleted(taskId, estatus, now);
    if updated.None? {
      return Err(NotFoundFault());
    }
    r := Ok(updated.value);
  }

  /** Every failure leaves the collection as it was. */
  lemma FailureLeavesStore(ds: seq<TaskDoc>, taskId: string, estatus: bool, isValidObjectId: string -> bool, now: nat)
    requires Outcome(ds, taskId, estatus, isValidObjectId, now).Err?
    ensures After(ds, taskId, estatus, isValidObjectId, now) == ds
  {
  }

  /** The failures by cause: a blank id is a bad request (400); an id of the
      wrong format and an id with no task are both not found (404) with the same
      message. */
  lemma FailureCauses(ds: seq<TaskDoc>, taskId: string, estatus: bool, isValidObjectId: string -> bool, now: nat)
    ensures var r := Outcome(ds, taskId, estatus, isValidObjectId, now);
            && (AllWhitespace(taskId) ==> r.Err? && r.error.error.kind == AppErrorKind.BadRequest && r.error.error.Status() == 400)
            && (!AllWhitespace(taskId) && !isValidObjectId(taskId) ==> r == Err(NotFoundFault()))
            && (!AllWhitespace(taskId) && isValidObjectId(taskId) && (forall k :: 0 <= k < |ds| ==> ds[k].oid != taskId) ==>
                  r == Err(NotFoundFault()))
            && NotFoundFault().error.Status() == 404
  {
    var r := Outcome(ds, taskId, estatus, isValidObjectId, now);
    if AllWhitespace(taskId) {
      assert CheckId(taskId, isValidObjectId) == Some(Raise(AppErrorKind.BadRequest, InvalidIdMessage));
    }
  }

  /** On success exactly the stored task with the id changes, to estatus as
      given with completedAt derived from it, and the task returned is that
      updated task. */
  lemma {:induction false} SuccessUpdatesOne(ds: seq<TaskDoc>, taskId: string, estatus: bool, isValidObjectId: string -> bool, now: nat)
    requires !AllWhitespace(taskId) && isValidObjectId(taskId)
    requires exists k :: 0 <= k < |ds| && ds[k].oid == taskId
    ensures var r := Outcome(ds, taskId, estatus, isValidObjectId, now);
            var after := After(ds, taskId, estatus, isValidObjectId, now);
            && r.Ok?
            && (exists k :: 0 <= k < |ds| && ds[k].oid == taskId
                  && after == ds[k := AfterStatusUpdate(ds[k], estatus, now)]
                  && r.value == MapToEntity(after[k]))
  {
    var k := IndexOfId(ds, taskId).value;
    var after := After(ds, taskId, estatus, isValidObjectId, now);
    assert after[k] == AfterStatusUpdate(ds[k], estatus, now);
  }
}
