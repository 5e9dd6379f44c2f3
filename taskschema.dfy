/**
 * The persistence schema of a task: the stored document, the constraints the
 * schema puts on its fields, and the two middleware hooks that maintain
 * `completedAt` (one before a document is saved, one before a
 * findOneAndUpdate query runs). Both hooks change an object in place, so both
 * are methods of a class standing for that object.
 */
module TaskSchema {
  import opened Wrappers
  import opened JsText

  const TituloMaxLength: nat := 200
  const DescripcionMaxLength: nat := 500
  /** The version key starts at 0 and no operation of the repository increments it. */
  const InitialSchemaVersion: nat := 0

  const TituloRequiredMessage := "El título es requerido"
  const TituloTooLongMessage := "El título no puede exceder 200 caracteres"
  const DescripcionTooLongMessage := "La descripción no puede exceder 500 caracteres"

  /** A stored document; `oid` is the string form of its `_id`. */
  datatype TaskDoc = TaskDoc(
    oid: string,
    titulo: string,
    descripcion: Option<string>,
    estatus: bool,
    createdAt: nat,
    updatedAt: nat,
    completedAt: Option<nat>,
    schemaVersion: nat)

  /** One failed validator: the path and its message. */
  datatype ValidatorError = ValidatorError(path: string, message: string)

  /**
   * The validators of the schema applied to the cast values (after the `trim`
   * setters ran), in schema order and at most one per path: `required` then
   * `maxlength` for titulo, `maxlength` for descripcion. Lengths are
   * JavaScript lengths.
   */
  function ValidationErrors(titulo: string, descripcion: Option<string>): seq<ValidatorError> {
    var tituloErrors :=
      if titulo == [] then [ValidatorError("titulo", TituloRequiredMessage)]
      else if Utf16Length(titulo) > TituloMaxLength then [ValidatorError("titulo", TituloTooLongMessage)]
      else [];
    var descripcionErrors :=
      if descripcion.Some? && Utf16Length(descripcion.value) > DescripcionMaxLength
      then [ValidatorError("descripcion", DescripcionTooLongMessage)]
      else [];
    tituloErrors + descripcionErrors
  }

  /** The field constraints, stated on their own. */
  predicate FieldsConform(titulo: string, descripcion: Option<string>) {
    && titulo != []
    && Utf16Length(titulo) <= TituloMaxLength
    && (descripcion.Some? ==> Utf16Length(descripcion.value) <= DescripcionMaxLength)
  }

  /** The validators pass exactly when the field constraints hold, and each
      failure names the field it is about. */
  lemma ValidationErrorsIff(titulo: string, descripcion: Option<string>)
    ensures ValidationErrors(titulo, descripcion) == [] <==> FieldsConform(titulo, descripcion)
    ensures forall e :: e in ValidationErrors(titulo, descripcion) ==> e.path == "titulo" || e.path == "descripcion"
    ensures |ValidationErrors(titulo, descripcion)| <= 2
  {
  }

  function JoinErrors(errs: seq<ValidatorError>): string {
    if errs == [] then []
    else if |errs| == 1 then errs[0].path + ": " + errs[0].message
    else errs[0].path + ": " + errs[0].message + ", " + JoinErrors(errs[1..])
  }

  /** The message of the ValidationError the database layer throws for a model named Task. */
  function ValidationMessage(errs: seq<ValidatorError>): string {
    "Task validation failed: " + JoinErrors(errs)
  }

  /** The message of the error validation throws, or None when the values pass. */
  function ValidationFailure(titulo: string, descripcion: Option<string>): (m: Option<string>)
    ensures m.None? <==> FieldsConform(titulo, descripcion)
  {
    var errs := ValidationErrors(titulo, descripcion);
    ValidationErrorsIff(titulo, descripcion);
    if errs == [] then None else Some(ValidationMessage(errs))
  }

  /** What a document of the collection always satisfies. */
  predicate WellFormed(d: TaskDoc) {
    && Trimmed(d.titulo)
    && (d.descripcion.Some? ==> Trimmed(d.descripcion.value))
    && FieldsConform(d.titulo, d.descripcion)
    && (d.completedAt.Some? <==> d.estatus)
  }

  /** completedAt after the save hook; `modified` tells whether estatus was modified. */
  function SavedCompletedAt(modified: bool, estatus: bool, completedAt: Option<nat>, now: nat): Option<nat> {
    if !modified then completedAt
    else if estatus && completedAt.None? then Some(now)
    else if !estatus then None
    else completedAt
  }

  /** Once estatus has been modified, the save hook leaves completedAt present
      exactly when estatus is true. */
  lemma SaveHookConsistent(estatus: bool, completedAt: Option<nat>, now: nat)
    ensures SavedCompletedAt(true, estatus, completedAt, now).Some? <==> estatus
  {
  }

  /** The save hook stamps completedAt once: a later save keeps the first stamp. */
  lemma SaveHookIdempotent(modified: bool, estatus: bool, completedAt: Option<nat>, t1: nat, t2: nat)
    ensures var once := SavedCompletedAt(modified, estatus, completedAt, t1);
            SavedCompletedAt(modified, estatus, once, t2) == once
  {
  }

  /** A document being created, as the save middleware sees it. */
  class TaskDocument {
    var oid: string
    var titulo: string
    var descripcion: Option<string>
    var estatus: bool
    var createdAt: nat
    var updatedAt: nat
    var completedAt: Option<nat>
    var schemaVersion: nat
    var estatusModified: bool

    /**
     * A new document built from the given values: the `trim` setters run on
     * titulo and descripcion, completedAt takes its default (null), the
     * timestamps are set to `now`, and estatus counts as modified because it
     * was given.
     */
    constructor New(oid: string, titulo: string, descripcion: Option<string>, estatus: bool, now: nat)
      ensures this.oid == oid && this.titulo == Trim(titulo)
      ensures this.descripcion == (if descripcion.Some? then Some(Trim(descripcion.value)) else None)
      ensures this.estatus == estatus && estatusModified
      ensures createdAt == now && updatedAt == now
      ensures completedAt.None? && schemaVersion == InitialSchemaVersion
    {
      this.oid := oid;
      this.titulo := Trim(titulo);
      this.descripcion := if descripcion.Some? then Some(Trim(descripcion.value)) else None;
      this.estatus := estatus;
      createdAt, updatedAt := now, now;
      completedAt := None;
      schemaVersion := InitialSchemaVersion;
      estatusModified := true;
    }

    function Value(): TaskDoc
      reads this
    {
      TaskDoc(oid, titulo, descripcion, estatus, createdAt, updatedAt, completedAt, schemaVersion)
    }

    /** The `pre('save')` middleware: only when estatus was modified, stamp
        completedAt when estatus is true and none is present, clear it when
        estatus is false. */
    method PreSave(now: nat)
      modifies this`completedAt
      ensures completedAt == SavedCompletedAt(estatusModified, estatus, old(completedAt), now)
    {
      if estatusModified {
        if estatus == true && completedAt.None? {
          completedAt := Some(now);
        } else if estatus == false {
          completedAt := None;
        }
      }
    }
  }

  /** The update document of a findOneAndUpdate query, as its middleware sees it. */
  class UpdateDocument {
    /** The `estatus` key of the update, if it has one. */
    var estatus: Option<bool>
    /** A `completedAt` key set on the update. */
    var completedAt: Option<nat>
    /** Whether the update carries `$unset: { completedAt: 1 }`. */
    var unsetCompletedAt: bool

    constructor (estatus: Option<bool>)
      ensures this.estatus == estatus && completedAt.None? && !unsetCompletedAt
    {
      this.estatus := estatus;
      completedAt := None;
      unsetCompletedAt := false;
    }

    /** The `pre('findOneAndUpdate')` middleware: an update that sets estatus to
        true also sets completedAt to now, whatever the stored value; one that
        sets it to false unsets completedAt; any other update is left alone. */
    method PreFindOneAndUpdate(now: nat)
      modifies this
      ensures estatus == old(estatus)
      ensures completedAt == (if estatus == Some(true) then Some(now) else old(completedAt))
      ensures unsetCompletedAt == (old(unsetCompletedAt) || estatus == Some(false))
    {
      if estatus.Some? {
        if estatus.value == true {
          completedAt := Some(now);
        } else if estatus.value == false {
          unsetCompletedAt := true;
        }
      }
    }
  }

  /**
   * How the database applies an update document to a stored document: each key
   * given is set, `$unset` removes completedAt, and the timestamps option sets
   * updatedAt. Setting and unsetting the same key is a conflict the database
   * refuses, so it is excluded.
   */
  function ApplyUpdate(d: TaskDoc, estatus: Option<bool>, completedAt: Option<nat>, unsetCompletedAt: bool, now: nat): TaskDoc
    requires !(completedAt.Some? && unsetCompletedAt)
  {
    d.(estatus := if estatus.Some? then estatus.value else d.estatus,
       completedAt := if completedAt.Some? then completedAt else if unsetCompletedAt then None else d.completedAt,
       updatedAt := now)
  }

  /** The document after `findByIdAndUpdate(id, { estatus })` with the hook in place. */
  function AfterStatusUpdate(d: TaskDoc, estatus: bool, now: nat): (r: TaskDoc)
    ensures r.estatus == estatus
    ensures r.completedAt == (if estatus then Some(now) else None)
    ensures r.updatedAt == now
    ensures r == d.(estatus := r.estatus, completedAt := r.completedAt, updatedAt := r.updatedAt)
  {
    ApplyUpdate(d, Some(estatus), if estatus then Some(now) else None, !estatus, now)
  }

  /** What the update hook makes of an update, applied: estatus true stamps
      completedAt with the current time, false removes it, and an update without
      estatus leaves it as stored. */
  lemma HookedUpdateCompletedAt(d: TaskDoc, estatus: Option<bool>, now: nat)
    ensures var stamp := if estatus == Some(true) then Some(now) else None;
            var unset := estatus == Some(false);
            var r := ApplyUpdate(d, estatus, stamp, unset, now);
            && (estatus == Some(true) ==> r.completedAt == Some(now))
            && (estatus == Some(false) ==> r.completedAt.None?)
            && (estatus.None? ==> r.completedAt == d.completedAt && r.estatus == d.estatus)
  {
  }

  /** After a status update completedAt is present exactly when estatus is true,
      whatever the stored document held before. */
  lemma StatusUpdateConsistent(d: TaskDoc, estatus: bool, now: nat)
    ensures AfterStatusUpdate(d, estatus, now).completedAt.Some? <==> AfterStatusUpdate(d, estatus, now).estatus
  {
  }

  /** A status update keeps a well-formed document well-formed. */
  lemma StatusUpdatePreservesWellFormed(d: TaskDoc, estatus: bool, now: nat)
    requires WellFormed(d)
    ensures WellFormed(AfterStatusUpdate(d, estatus, now))
  {
  }

  /** Setting estatus to true twice is not idempotent: the second update
      overwrites completedAt with its own time, unlike the save hook. */
  lemma CompletingTwiceRestamps(d: TaskDoc, t1: nat, t2: nat)
    requires t1 != t2
    ensures var once := AfterStatusUpdate(d, true, t1);
            var twice := AfterStatusUpdate(once, true, t2);
            && twice.completedAt == Some(t2)
            && twice.completedAt != once.completedAt
            && twice.estatus == once.estatus
  {
  }
}
