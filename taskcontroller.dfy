/**
 * The HTTP controller: shape checks on the request, coercion of the query
 * string, and the choice of status and message. Each handler either writes one
 * response or forwards what the use case threw to the error middleware.
 */
module TaskController {
  import opened Wrappers
  import opened JsText
  import opened Json
  import opened Errors
  import opened Domain
  import opened TaskSchema
  import opened TaskRepository
  import opened Http
  import CreateUseCase = CreateTask
  import ListUseCase = GetAllTasks
  import MarkUseCase = MarkTaskAsCompleted

  const TituloMissingMessage := "El campo \"titulo\" es requerido"
  const EstatusNotBooleanMessage := "El campo \"estatus\" debe ser true o false"
  const TaskCreatedMessage := "Tarea creada exitosamente"

  /** The message of a successful status change. */
  function StatusChangedMessage(estatus: bool): string {
    "Tarea marcada como " + (if estatus then "completada" else "pendiente")
  }

  /** A query-string parameter as the query parser leaves it: missing, one
      value, a repeated key, or a nested object. */
  datatype QueryValue = Absent | Single(s: string) | Repeated(items: seq<string>) | Nested

  function JoinComma(items: seq<string>): string {
    if items == [] then []
    else if |items| == 1 then items[0]
    else items[0] + "," + JoinComma(items[1..])
  }

  /** The string parseInt converts its argument to. */
  function QueryText(v: QueryValue): string {
    match v
    case Absent => "undefined"
    case Single(s) => s
    case Repeated(items) => JoinComma(items)
    case Nested => "[object Object]"
  }

  function QueryField(query: map<string, QueryValue>, key: string): QueryValue {
    if key in query then query[key] else Absent
  }

  /** `parseInt(value) || fallback`: NaN and 0 are falsy. */
  function QueryIntOr(v: QueryValue, fallback: int): (n: int)
    ensures n != fallback ==> n != 0 && ParseInt(QueryText(v)) == Some(n)
    ensures ParseInt(QueryText(v)).None? || ParseInt(QueryText(v)) == Some(0) ==> n == fallback
    ensures ParseInt(QueryText(v)).Some? && ParseInt(QueryText(v)).value != 0 ==> n == ParseInt(QueryText(v)).value
  {
    match ParseInt(QueryText(v))
    case None => fallback
    case Some(p) => if p == 0 then fallback else p
  }

  /** A query value that is the decimal form of a positive number is read as
      that number. */
  lemma QueryDecimal(n: nat, fallback: int)
    requires n >= 1
    ensures QueryIntOr(Single(DecimalString(n)), fallback) == n
  {
    assert DecimalString(n) + [] == DecimalString(n);
    ParseIntDecimalPrefix(n, []);
  }

  /** A value that does not start with a number (after white space) falls
      back to the default. */
  lemma QueryNotANumber(s: string, fallback: int)
    requires var t := TrimStart(s); t == [] || (!IsRadixDigit(t[0], 10) && t[0] != '-' && t[0] != '+')
    ensures QueryIntOr(Single(s), fallback) == fallback
  {
    ParseIntNotANumber(s);
  }

  /** A value whose text does not start with a number falls back to the
      default; so do a missing parameter ("undefined") and a nested object
      ("[object Object]"). */
  lemma QueryTextNotANumber(v: QueryValue, fallback: int)
    requires QueryText(v) != [] && !IsJsWhitespace(QueryText(v)[0])
    requires !IsRadixDigit(QueryText(v)[0], 10) && QueryText(v)[0] != '-' && QueryText(v)[0] != '+'
    ensures QueryIntOr(v, fallback) == fallback
  {
    ParseIntNotANumber(QueryText(v));
  }

  lemma QueryAbsentOrNested(fallback: int)
    ensures QueryIntOr(Absent, fallback) == fallback
    ensures QueryIntOr(Nested, fallback) == fallback
  {
    assert QueryText(Absent)[0] == 'u';
    QueryTextNotANumber(Absent, fallback);
    assert QueryText(Nested)[0] == '[';
    QueryTextNotANumber(Nested, fallback);
  }

  /** Zero is falsy: "0" falls back to the default. */
  lemma QueryZero(fallback: int)
    ensures QueryIntOr(Single("0"), fallback) == fallback
  {
    assert DecimalString(0) + [] == "0";
    ParseIntDecimalPrefix(0, []);
  }

  /** "2" and "5" give page 2 and limit 5; "invalid" or nothing gives 1 and 10. */
  lemma QueryExamples()
    ensures QueryIntOr(Single("2"), 1) == 2 && QueryIntOr(Single("5"), 10) == 5
    ensures QueryIntOr(Single("invalid"), 1) == 1 && QueryIntOr(Absent, 10) == 10
  {
    assert DecimalString(2) == "2" && DecimalString(5) == "5";
    QueryDecimal(2, 1);
    QueryDecimal(5, 10);
    var s := "invalid";
    assert s[0] == 'i';
    QueryNotANumber(s, 1);
    QueryAbsentOrNested(10);
  }

  function Created(t: Task): Response {
    Response(201, SuccessBody(Some(TaskCreatedMessage), TaskData(t)))
  }

  function StatusChanged(estatus: bool, t: Task): Response {
    Response(200, SuccessBody(Some(StatusChangedMessage(estatus)), TaskData(t)))
  }

  /** What `createTask` does with a body on a collection: an undefined titulo
      is refused here; anything else, null included, goes to the use case. */
  function CreateOutcome(ds: seq<TaskDoc>, body: map<string, JsValue>, u: CreateUseCase.UnicodeTables, now: nat, newId: string): (o: HandlerOutcome)
    ensures Field(body, "titulo").Undefined? ==> o == Respond(Reject(400, TituloMissingMessage))
    ensures o.Respond? && o.response.status == 201 ==>
              !Field(body, "titulo").Undefined? && o.response.body.Success() && o.response.body.message == Some(TaskCreatedMessage)
    ensures var r := CreateUseCase.Outcome(ds, u, CreateTaskRequest(Field(body, "titulo"), Field(body, "descripcion")), now, newId);
            !Field(body, "titulo").Undefined? && r.Ok? ==> o == Respond(Created(r.value))
  {
    var titulo := Field(body, "titulo");
    if titulo.Undefined? then Respond(Reject(400, TituloMissingMessage))
    else
      match CreateUseCase.Outcome(ds, u, CreateTaskRequest(titulo, Field(body, "descripcion")), now, newId)
      case Ok(t) => Respond(Created(t))
      case Err(f) => Forward(f)
  }

  function CreateAfter(ds: seq<TaskDoc>, body: map<string, JsValue>, u: CreateUseCase.UnicodeTables, now: nat, newId: string): seq<TaskDoc> {
    var titulo := Field(body, "titulo");
    if titulo.Undefined? then ds
    else CreateUseCase.After(ds, u, CreateTaskRequest(titulo, Field(body, "descripcion")), now, newId)
  }

  /** What `markAsCompleted` does: an estatus that is not a boolean is refused
      here; otherwise the id and estatus go to the use case unchanged. */
  function MarkOutcome(ds: seq<TaskDoc>, id: string, body: map<string, JsValue>, isValidObjectId: string -> bool, now: nat): (o: HandlerOutcome)
    ensures !Field(body, "estatus").Bool? ==> o == Respond(Reject(400, EstatusNotBooleanMessage))
    ensures o.Respond? && o.response.status == 200 ==>
              Field(body, "estatus").Bool? && o.response.body.Success()
              && o.response.body.message == Some(StatusChangedMessage(Field(body, "estatus").b))
    ensures Field(body, "estatus").Bool? ==>
              var r := MarkUseCase.Outcome(ds, id, Field(body, "estatus").b, isValidObjectId, now);
              r.Ok? ==> o == Respond(StatusChanged(Field(body, "estatus").b, r.value))
  {
    var estatus := Field(body, "estatus");
    if TypeOf(estatus) != "boolean" then Respond(Reject(400, EstatusNotBooleanMessage))
    else
      match MarkUseCase.Outcome(ds, id, estatus.b, isValidObjectId, now)
      case Ok(t) => Respond(StatusChanged(estatus.b, t))
      case Err(f) => Forward(f)
  }

  function MarkAfter(ds: seq<TaskDoc>, id: string, body: map<string, JsValue>, isValidObjectId: string -> bool, now: nat): seq<TaskDoc> {
    var estatus := Field(body, "estatus");
    if !estatus.Bool? then ds
    else MarkUseCase.After(ds, id, estatus.b, isValidObjectId, now)
  }

  class TaskController {
    const repository: TaskStore

    /** The repository holds no state of its own: every repository object
        works on the one shared collection, which may already hold tasks. */
    constructor (store: TaskStore)
      requires store.Valid()
      ensures repository == store && repository.Valid()
    {
      repository := store;
    }

    /** POST /tasks. */
    method CreateTask(body: map<string, JsValue>, u: CreateUseCase.UnicodeTables, now: nat, newId: string)
      returns (o: HandlerOutcome)
      requires repository.Valid()
      modifies repository
      ensures repository.Valid()
      ensures o == CreateOutcome(old(repository.docs), body, u, now, newId)
      ensures repository.docs == CreateAfter(old(repository.docs), body, u, now, newId)
    {
      var titulo := Field(body, "titulo");
      if titulo.Undefined? {
        return Respond(Reject(400, TituloMissingMessage));
      }
      var created := CreateUseCase.Execute(repository, u, CreateTaskRequest(titulo, Field(body, "descripcion")), now, newId);
      match created
      case Ok(t) => o := Respond(Created(t));
      case Err(f) => o := Forward(f);
    }

    /** GET /tasks: page and limit are `parseInt(...) || 1` and `parseInt(...) || 10`. */
    function GetAllTasks(query: map<string, QueryValue>): (o: HandlerOutcome)
      reads this, repository
      requires QueryIntOr(QueryField(query, "page"), 1) >= 0 && QueryIntOr(QueryField(query, "limit"), 10) >= 0
      ensures var page := QueryIntOr(QueryField(query, "page"), 1);
              var limit := QueryIntOr(QueryField(query, "limit"), 10);
              var result := repository.FindAll(Some(PaginationOptions(page, limit)));
              && o.Respond? && o.response.status == 200 && o.response.body.Success()
              && o.response.body.message.None?
              && o.response.body.data == ListData(result.data, result.pagination)
              && result.pagination.page == page && result.pagination.limit == limit
    {
      var page := QueryIntOr(QueryField(query, "page"), 1);
      var limit := QueryIntOr(QueryField(query, "limit"), 10);
      var list := ListUseCase.Execute(repository, Some(page), Some(limit));
      Respond(Response(200, SuccessBody(None, ListData(list.tasks, list.pagination))))
    }

    /** PATCH /tasks/:id. */
    method MarkAsCompleted(id: string, body: map<string, JsValue>, isValidObjectId: string -> bool, now: nat)
      returns (o: HandlerOutcome)
      requires repository.Valid()
      modifies repository
      ensures repository.Valid()
      ensures o == MarkOutcome(old(repository.docs), id, body, isValidObjectId, now)
      ensures repository.docs == MarkAfter(old(repository.docs), id, body, isValidObjectId, now)
    {
      var estatus := Field(body, "estatus");
      if TypeOf(estatus) != "boolean" {
        return Respond(Reject(400, EstatusNotBooleanMessage));
      }
      var updated := MarkUseCase.Execute(repository, id, estatus.b, isValidObjectId, now);
      match updated
      case Ok(t) => o := Respond(StatusChanged(estatus.b, t));
      case Err(f) => o := Forward(f);
    }
  }

  /** A refused request leaves the collection as it was: an undefined titulo
      or a non-boolean estatus never reaches the use case. */
  lemma ShapeChecksLeaveStore(ds: seq<TaskDoc>, body: map<string, JsValue>, id: string,
                              u: CreateUseCase.UnicodeTables, isValidObjectId: string -> bool, now: nat, newId: string)
    ensures Field(body, "titulo").Undefined? ==> CreateAfter(ds, body, u, now, newId) == ds
    ensures !Field(body, "estatus").Bool? ==> MarkAfter(ds, id, body, isValidObjectId, now) == ds
  {
  }

  /** Errors thrown by the use cases reach the error middleware unchanged, and
      no response is written for them. */
  lemma ErrorsForwarded(ds: seq<TaskDoc>, body: map<string, JsValue>, id: string,
                        u: CreateUseCase.UnicodeTables, isValidObjectId: string -> bool, now: nat, newId: string)
    ensures var req := CreateTaskRequest(Field(body, "titulo"), Field(body, "descripcion"));
            var r := CreateUseCase.Outcome(ds, u, req, now, newId);
            !Field(body, "titulo").Undefined? && r.Err? ==> CreateOutcome(ds, body, u, now, newId) == Forward(r.error)
    ensures Field(body, "estatus").Bool? ==>
              var r := MarkUseCase.Outcome(ds, id, Field(body, "estatus").b, isValidObjectId, now);
              r.Err? ==> MarkOutcome(ds, id, body, isValidObjectId, now) == Forward(r.error)
  {
  }

  /** A successful status change says "completada" exactly when estatus is true. */
  lemma StatusMessageWords(estatus: bool)
    ensures StatusChangedMessage(estatus) == "Tarea marcada como completada" <==> estatus
    ensures StatusChangedMessage(estatus) == "Tarea marcada como pendiente" <==> !estatus
  {
    var c := "Tarea marcada como completada";
    var p := "Tarea marcada como pendiente";
    assert c != p by {
      assert |c| != |p|;
    }
  }
}
