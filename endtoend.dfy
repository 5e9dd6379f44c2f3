/**
 * Requests followed through the controller, the use cases, the repository and
 * the error middleware: what status a client finally sees.
 */
module EndToEnd {
  import opened Wrappers
  import opened JsText
  import opened Json
  import opened Errors
  import opened Domain
  import opened TaskSchema
  import opened TaskRepository
  import opened Http
  import opened ErrorHandler
  import opened TaskController
  import CreateUseCase = CreateTask
  import MarkUseCase = MarkTaskAsCompleted

  /** The response a client receives for what a handler did. */
  function Delivered(o: HandlerOutcome, nodeEnv: Option<string>): Response {
    match o
    case Respond(r) => r
    case Forward(f) => HandleError(f, nodeEnv)
  }

  /** A null titulo passes the controller's presence check, is refused by the
      use case as not a string, and ends as a 400 with that message. */
  lemma NullTituloEndsIn400(ds: seq<TaskDoc>, body: map<string, JsValue>, u: CreateUseCase.UnicodeTables,
                            now: nat, newId: string, nodeEnv: Option<string>)
    requires Field(body, "titulo").Null?
    ensures CreateOutcome(ds, body, u, now, newId).Forward?
    ensures Delivered(CreateOutcome(ds, body, u, now, newId), nodeEnv).status == 400
    ensures Delivered(CreateOutcome(ds, body, u, now, newId), nodeEnv).body.error == CreateUseCase.TituloNotStringMessage
    ensures CreateAfter(ds, body, u, now, newId) == ds
  {
    var req := CreateTaskRequest(Field(body, "titulo"), Field(body, "descripcion"));
    assert CreateUseCase.Validate(u, req) == Err(CreateUseCase.BadRequest(CreateUseCase.TituloNotStringMessage));
  }

  /** In the use case: a descripcion whose trimmed length is over 500 passes
      the checks (which allow 1000) but not the schema, so `create` throws the
      database layer's validation error and nothing is stored. */
  lemma SchemaRefusalIsPlain(ds: seq<TaskDoc>, u: CreateUseCase.UnicodeTables, req: CreateTaskRequest, now: nat, newId: string)
    requires CreateUseCase.Validate(u, req).Ok?
    requires req.descripcion.Str? && Utf16Length(Trim(req.descripcion.s)) > DescripcionMaxLength
    ensures CreateUseCase.Outcome(ds, u, req, now, newId).Err?
    ensures CreateUseCase.Outcome(ds, u, req, now, newId).error.PlainFault?
    ensures CreateUseCase.After(ds, u, req, now, newId) == ds
  {
    var dto := CreateUseCase.Validate(u, req).value;
    assert dto.descripcion == Some(Trim(req.descripcion.s));
    assert CreateRejection(ds, dto, newId).Some? && CreateRejection(ds, dto, newId).value.PlainFault? by {
      TrimIdempotent(req.descripcion.s);
      assert !FieldsConform(Trim(dto.titulo), TrimOption(dto.descripcion));
    }
  }

  /** Through the controller, that error is not an application error: the
      client sees a 500 and nothing is stored. */
  lemma LongDescripcionEndsIn500(ds: seq<TaskDoc>, body: map<string, JsValue>, u: CreateUseCase.UnicodeTables,
                                 now: nat, newId: string, nodeEnv: Option<string>)
    requires !Field(body, "titulo").Undefined?
    requires CreateUseCase.Validate(u, CreateTaskRequest(Field(body, "titulo"), Field(body, "descripcion"))).Ok?
    requires Field(body, "descripcion").Str? && Utf16Length(Trim(Field(body, "descripcion").s)) > DescripcionMaxLength
    ensures CreateOutcome(ds, body, u, now, newId).Forward?
    ensures Delivered(CreateOutcome(ds, body, u, now, newId), nodeEnv).status == 500
    ensures CreateAfter(ds, body, u, now, newId) == ds
  {
    var req := CreateTaskRequest(Field(body, "titulo"), Field(body, "descripcion"));
    SchemaRefusalIsPlain(ds, u, req, now, newId);
    var f := CreateUseCase.Outcome(ds, u, req, now, newId).error;
    assert CreateOutcome(ds, body, u, now, newId) == Forward(f);
    assert HandleError(f, nodeEnv).status == 500 by {
      StatusAndMessage(f, nodeEnv);
    }
  }

  /** Such requests exist: titulo "." with a descripcion of n letters, for any
      n from 501 to 1000, passes every check of the use case and still cannot
      be stored. */
  lemma DescripcionBoundMismatch(ds: seq<TaskDoc>, u: CreateUseCase.UnicodeTables, n: nat, now: nat, newId: string,
                                 nodeEnv: Option<string>)
    requires DescripcionMaxLength < n <= CreateUseCase.UseCaseDescripcionMaxLength
    ensures var body := map["titulo" := Str("."), "descripcion" := Str(Repeat('a', n))];
            && CreateUseCase.Validate(u, CreateTaskRequest(Field(body, "titulo"), Field(body, "descripcion"))).Ok?
            && Delivered(CreateOutcome(ds, body, u, now, newId), nodeEnv).status == 500
  {
    var body := map["titulo" := Str("."), "descripcion" := Str(Repeat('a', n))];
    var d := Repeat('a', n);
    assert Field(body, "titulo") == Str(".") && Field(body, "descripcion") == Str(d);
    assert Trim(d) == d && Utf16Length(d) == n by {
      Utf16LengthBmp(d);
      assert d[0] == 'a' && d[n - 1] == 'a';
      assert Trimmed(d);
      TrimFixesTrimmed(d);
    }
    assert CreateUseCase.TituloAcceptable(u, ".") by {
      var t := ".";
      assert Trimmed(t) && !IsJsWhitespace(t[0]);
      TrimFixesTrimmed(t);
      Utf16LengthBmp(t);
      assert CreateUseCase.MatchesTitlePattern(u, t) by {
        assert '.' in CreateUseCase.TitlePunctuation;
      }
    }
    assert CreateUseCase.Validate(u, CreateTaskRequest(Str("."), Str(d))).Ok?;
    LongDescripcionEndsIn500(ds, body, u, now, newId, nodeEnv);
  }

  /** An id the ObjectId check refuses ends as a 404, like a missing task, and
      the store is not touched. */
  lemma MalformedIdEndsIn404(ds: seq<TaskDoc>, id: string, body: map<string, JsValue>, isValidObjectId: string -> bool,
                             now: nat, nodeEnv: Option<string>)
    requires Field(body, "estatus").Bool?
    requires !AllWhitespace(id) && !isValidObjectId(id)
    ensures MarkOutcome(ds, id, body, isValidObjectId, now) == Forward(MarkUseCase.NotFoundFault())
    ensures Delivered(MarkOutcome(ds, id, body, isValidObjectId, now), nodeEnv).status == 404
    ensures MarkAfter(ds, id, body, isValidObjectId, now) == ds
  {
    MarkUseCase.FailureCauses(ds, id, Field(body, "estatus").b, isValidObjectId, now);
  }

  /** A created task reads back by its id: after a 201 the id names the stored
      document, and the entity it maps to is the one in the response. */
  lemma CreatedTaskReadsBack(ds: seq<TaskDoc>, body: map<string, JsValue>, u: CreateUseCase.UnicodeTables, now: nat, newId: string)
    requires ValidDocs(ds)
    requires CreateOutcome(ds, body, u, now, newId).Respond?
    requires CreateOutcome(ds, body, u, now, newId).response.status == 201
    ensures var after := CreateAfter(ds, body, u, now, newId);
            && IndexOfId(after, newId) == Some(|ds|)
            && CreateOutcome(ds, body, u, now, newId).response.body.data == TaskData(MapToEntity(after[|ds|]))
  {
    var req := CreateTaskRequest(Field(body, "titulo"), Field(body, "descripcion"));
    var dto := CreateUseCase.Validate(u, req).value;
    CreateRejectionIff(ds, dto, newId);
    AppendedFound(ds, CreatedDoc(newId, dto, now));
  }
}
