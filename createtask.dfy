/**
 * The create use case: an ordered chain of checks on the request in which the
 * first failing check decides the error, then one call to the repository with
 * the trimmed fields.
 */
module CreateTask {
  import opened Wrappers
  import opened JsText
  import opened Json
  import opened Errors
  import opened Domain
  import opened TaskSchema
  import opened TaskRepository

  const UseCaseTituloMaxLength: nat := 200
  const UseCaseDescripcionMaxLength: nat := 1000

  const TituloNotStringMessage := "El campo \"titulo\" debe ser una cadena de texto"
  const TituloBlankMessage := "El título es requerido"
  const TituloCharactersMessage := "El título contiene caracteres no válidos. Solo se permiten letras, números y signos de puntuación básicos"
  const TituloLengthMessage := "El título no puede exceder 200 caracteres"
  const DescripcionNotStringMessage := "El campo \"descripcion\" debe ser una cadena de texto"
  const DescripcionLengthMessage := "La descripción no puede exceder 1000 caracteres"

  /** The Unicode general categories the title pattern refers to: `\p{L}`
      (letters) and `\p{N}` (numbers). */
  datatype UnicodeTables = UnicodeTables(isLetter: char -> bool, isNumber: char -> bool)

  /** The characters the title pattern lists besides its classes. */
  const TitlePunctuation: set<char> :=
    {'.', ',', ';', ':', '(', ')', '-', '¿', '?', '¡', '!', 'á', 'é', 'í', 'ó', 'ú', 'ñ', 'Á', 'É', 'Í', 'Ó', 'Ú', 'Ñ'}

  /** One character of the character class of the title pattern; `\s` is
      the white space of trim. */
  predicate TitleChar(u: UnicodeTables, c: char) {
    u.isLetter(c) || u.isNumber(c) || IsJsWhitespace(c) || c in TitlePunctuation
  }

  /** The whole string matches the anchored pattern: one or more characters
      of the class. */
  predicate MatchesTitlePattern(u: UnicodeTables, s: string) {
    |s| > 0 && forall k :: 0 <= k < |s| ==> TitleChar(u, s[k])
  }

  function BadRequest(message: string): AppError {
    NewAppError(AppErrorKind.BadRequest, Some(message))
  }

  /** Everything the titulo checks demand of a string titulo. */
  predicate TituloAcceptable(u: UnicodeTables, titulo: string) {
    && !AllWhitespace(titulo)
    && MatchesTitlePattern(u, Trim(titulo))
    && Utf16Length(titulo) <= UseCaseTituloMaxLength
  }

  /** Everything the descripcion checks demand: absent, null, or a string of
      at most 1000 code units. */
  predicate DescripcionAcceptable(descripcion: JsValue) {
    || descripcion.Undefined?
    || descripcion.Null?
    || (descripcion.Str? && Utf16Length(descripcion.s) <= UseCaseDescripcionMaxLength)
  }

  /** `data.descripcion?.trim()`. */
  function TrimmedDescripcion(descripcion: JsValue): Option<string> {
    if descripcion.Str? then Some(Trim(descripcion.s)) else None
  }

  /**
   * The checks of `execute` in their order: titulo a string, titulo not blank,
   * trimmed titulo matching the pattern, untrimmed titulo at most 200 code
   * units, then, unless descripcion is undefined or null, descripcion a string
   * of at most 1000 code units. The first failure is the error.
   */
  function Validate(u: UnicodeTables, req: CreateTaskRequest): (r: Result<CreateTaskDto, AppError>)
    ensures !req.titulo.Str? ==> r == Err(BadRequest(TituloNotStringMessage))
    ensures req.titulo.Str? && AllWhitespace(req.titulo.s) ==> r == Err(BadRequest(TituloBlankMessage))
    ensures req.titulo.Str? && !AllWhitespace(req.titulo.s) && !MatchesTitlePattern(u, Trim(req.titulo.s)) ==>
              r == Err(BadRequest(TituloCharactersMessage))
    ensures req.titulo.Str? && !AllWhitespace(req.titulo.s) && MatchesTitlePattern(u, Trim(req.titulo.s))
            && Utf16Length(req.titulo.s) > UseCaseTituloMaxLength ==>
              r == Err(BadRequest(TituloLengthMessage))
    ensures req.titulo.Str? && TituloAcceptable(u, req.titulo.s)
            && !req.descripcion.Undefined? && !req.descripcion.Null? && !req.descripcion.Str? ==>
              r == Err(BadRequest(DescripcionNotStringMessage))
    ensures req.titulo.Str? && TituloAcceptable(u, req.titulo.s)
            && req.descripcion.Str? && Utf16Length(req.descripcion.s) > UseCaseDescripcionMaxLength ==>
              r == Err(BadRequest(DescripcionLengthMessage))
    ensures r.Ok? <==> req.titulo.Str? && TituloAcceptable(u, req.titulo.s) && DescripcionAcceptable(req.descripcion)
    ensures r.Ok? ==> r.value == CreateTaskDto(Trim(req.titulo.s), TrimmedDescripcion(req.descripcion))
    ensures r.Err? ==> r.error.kind == AppErrorKind.BadRequest && r.error.isOperational
  {
    if !req.titulo.Str? then Err(BadRequest(TituloNotStringMessage))
    else
      var titulo := req.titulo.s;
      TrimEmptyIff(titulo);
      if titulo == [] || Utf16Length(Trim(titulo)) == 0 then Err(BadRequest(TituloBlankMessage))
      else
        var tituloTrimmed := Trim(titulo);
        if !MatchesTitlePattern(u, tituloTrimmed) then Err(BadRequest(TituloCharactersMessage))
        else if Utf16Length(titulo) > UseCaseTituloMaxLength then Err(BadRequest(TituloLengthMessage))
        else if !req.descripcion.Undefined? && !req.descripcion.Null? && !req.descripcion.Str? then
          Err(BadRequest(DescripcionNotStringMessage))
        else if req.descripcion.Str? && Utf16Length(req.descripcion.s) > UseCaseDescripcionMaxLength then
          Err(BadRequest(DescripcionLengthMessage))
        else
          Ok(CreateTaskDto(tituloTrimmed, TrimmedDescripcion(req.descripcion)))
  }

  /** The outcome of the whole use case on a collection: the check's error, or
      what the repository's `create` makes of the DTO. */
  function Outcome(ds: seq<TaskDoc>, u: UnicodeTables, req: CreateTaskRequest, now: nat, newId: string): (r: Result<Task, Fault>)
    ensures Validate(u, req).Err? ==> r == Err(AppFault(Validate(u, req).error, None))
    ensures r.Ok? ==> Validate(u, req).Ok? && CreateRejection(ds, Validate(u, req).value, newId).None?
    ensures Validate(u, req).Ok? && CreateRejection(ds, Validate(u, req).value, newId).Some? ==>
              r == Err(CreateRejection(ds, Validate(u, req).value, newId).value)
    ensures Validate(u, req).Ok? && CreateRejection(ds, Validate(u, req).value, newId).None? ==>
              r == Ok(MapToEntity(CreatedDoc(newId, Validate(u, req).value, now)))
  {
    match Validate(u, req)
    case Err(e) => Err(AppFault(e, None))
    case Ok(dto) =>
      match CreateRejection(ds, dto, newId)
      case Some(f) => Err(f)
      case None => Ok(MapToEntity(CreatedDoc(newId, dto, now)))
  }

  /** The collection after the use case: one more document exactly when it succeeds. */
  function After(ds: seq<TaskDoc>, u: UnicodeTables, req: CreateTaskRequest, now: nat, newId: string): seq<TaskDoc>
  {
    if Outcome(ds, u, req, now, newId).Ok? then ds + [CreatedDoc(newId, Validate(u, req).value, now)] else ds
  }

  /** `execute`: the checks, then `create` with the trimmed titulo and
      descripcion; the task returned is the one the repository returned. */
  method Execute(store: TaskStore, u: UnicodeTables, req: CreateTaskRequest, now: nat, newId: string)
    returns (r: Result<Task, Fault>)
    requires store.Valid()
    modifies store
    ensures store.Valid()
    ensures r == Outcome(old(store.docs), u, req, now, newId)
    ensures store.docs == After(old(store.docs), u, req, now, newId)
  {
    var checked := Validate(u, req);
    if checked.Err? {
      return Err(AppFault(checked.error, None));
    }
    r := store.Create(checked.value, now, newId);
  }

  /** A failed check leaves the collection as it was: the repository is not called. */
  lemma RejectedLeavesStore(ds: seq<TaskDoc>, u: UnicodeTables, req: CreateTaskRequest, now: nat, newId: string)
    requires Validate(u, req).Err?
    ensures Outcome(ds, u, req, now, newId).Err?
    ensures Outcome(ds, u, req, now, newId).error.AppFault?
    ensures After(ds, u, req, now, newId) == ds
  {
  }

  /** On success the collection gains exactly one document, an incomplete task
      holding the trimmed titulo and the trimmed descripcion, or none. */
  lemma {:induction false} CreatedRecord(ds: seq<TaskDoc>, u: UnicodeTables, req: CreateTaskRequest, now: nat, newId: string)
    requires Outcome(ds, u, req, now, newId).Ok?
    ensures var d := After(ds, u, req, now, newId)[|ds|];
            && |After(ds, u, req, now, newId)| == |ds| + 1
            && After(ds, u, req, now, newId)[..|ds|] == ds
            && d.oid == newId
            && d.titulo == Trim(req.titulo.s)
            && d.descripcion == TrimmedDescripcion(req.descripcion)
            && !d.estatus && d.completedAt.None?
            && Outcome(ds, u, req, now, newId).value == MapToEntity(d)
  {
    TrimIdempotent(req.titulo.s);
    if req.descripcion.Str? {
      TrimIdempotent(req.descripcion.s);
    }
    var after := After(ds, u, req, now, newId);
    assert after == ds + [CreatedDoc(newId, Validate(u, req).value, now)];
    assert after[..|ds|] == ds;
  }

  /** The titulo the checks accept always meets the schema's titulo
      constraints: trimmed, non-empty and at most 200 code units. */
  lemma AcceptedTituloConforms(u: UnicodeTables, req: CreateTaskRequest)
    requires Validate(u, req).Ok?
    ensures var t := Validate(u, req).value.titulo;
            Trimmed(t) && t != [] && Utf16Length(t) <= TituloMaxLength
  {
    TrimUtf16Length(req.titulo.s);
  }

  /** So when the schema refuses what the checks accepted, the cause is a
      trimmed descripcion over 500 code units (the checks allow 1000). */
  lemma SchemaRejectsOnlyLongDescripcion(u: UnicodeTables, req: CreateTaskRequest)
    requires Validate(u, req).Ok?
    requires var dto := Validate(u, req).value;
             ValidationFailure(Trim(dto.titulo), TrimOption(dto.descripcion)).Some?
    ensures req.descripcion.Str?
    ensures DescripcionMaxLength < Utf16Length(Trim(req.descripcion.s)) <= UseCaseDescripcionMaxLength
  {
    AcceptedTituloConforms(u, req);
    var dto := Validate(u, req).value;
    TrimIdempotent(req.titulo.s);
    if req.descripcion.Str? {
      TrimIdempotent(req.descripcion.s);
      TrimUtf16Length(req.descripcion.s);
    }
  }

  /** A title made of 200 or more spaces and a full stop trims to "." (which
      the pattern and the schema accept) but is refused on length, since the
      length check reads the untrimmed titulo. */
  lemma PaddedTituloTooLong(u: UnicodeTables, n: nat, descripcion: JsValue)
    requires n >= UseCaseTituloMaxLength
    ensures var titulo := Repeat(' ', n) + ".";
            && Trim(titulo) == "."
            && FieldsConform(Trim(titulo), None)
            && Validate(u, CreateTaskRequest(Str(titulo), descripcion)) == Err(BadRequest(TituloLengthMessage))
  {
    var titulo := Repeat(' ', n) + ".";
    PaddedStopTrims(n);
    PaddedStopLength(n);
    assert MatchesTitlePattern(u, Trim(titulo)) by {
      assert '.' in TitlePunctuation;
    }
    LengthErrorReported(u, titulo, descripcion);
  }

  lemma PaddedStopTrims(n: nat)
    ensures Trim(Repeat(' ', n) + ".") == "."
    ensures !AllWhitespace(Repeat(' ', n) + ".")
  {
    var pad := Repeat(' ', n);
    var titulo := pad + ".";
    assert titulo == pad + "." + [];
    TrimPadded(pad, ".", []);
    assert titulo[n] == '.';
  }

  lemma PaddedStopLength(n: nat)
    ensures Utf16Length(Repeat(' ', n) + ".") == n + 1
  {
    Utf16LengthBmp(Repeat(' ', n) + ".");
  }

  /** A titulo that passes the character check but is longer than 200 code
      units before trimming is refused with the length error. */
  lemma LengthErrorReported(u: UnicodeTables, titulo: string, descripcion: JsValue)
    requires !AllWhitespace(titulo) && MatchesTitlePattern(u, Trim(titulo))
    requires Utf16Length(titulo) > UseCaseTituloMaxLength
    ensures Validate(u, CreateTaskRequest(Str(titulo), descripcion)) == Err(BadRequest(TituloLengthMessage))
  {
  }

  /** A titulo with a character outside the pattern is refused with the
      character error, whatever its length and whatever the descripcion. */
  lemma CharacterErrorReported(u: UnicodeTables, titulo: string, descripcion: JsValue)
    requires !AllWhitespace(titulo) && !MatchesTitlePattern(u, Trim(titulo))
    ensures Validate(u, CreateTaskRequest(Str(titulo), descripcion)) == Err(BadRequest(TituloCharactersMessage))
  {
  }

  /** A character anywhere in the titulo that is neither a letter, a number,
      white space nor one of the listed signs gets the titulo refused with the
      character error: not being white space, it survives the trim. */
  lemma ForeignCharacterRefused(u: UnicodeTables, titulo: string, k: nat, descripcion: JsValue)
    requires k < |titulo| && !TitleChar(u, titulo[k])
    ensures Validate(u, CreateTaskRequest(Str(titulo), descripcion)) == Err(BadRequest(TituloCharactersMessage))
  {
    TrimInfix(titulo);
    var i := LeadingSpace(titulo);
    var t := Trim(titulo);
    assert !AllWhitespace(titulo);
    assert t[k - i] == titulo[k];
    CharacterErrorReported(u, titulo, descripcion);
  }
}
