/**
 * The repository over the task collection. The collection itself is the
 * `TaskStore` class: a sequence of stored documents that `Create` appends to
 * and `UpdateCompleted` changes in place; `FindById` and `FindAll` only read it.
 * Queries that the database evaluates (sorting, skipping, limiting) are written
 * as functions over the sequence.
 */
module TaskRepository {
  import opened Wrappers
  import opened JsText
  import opened Errors
  import opened Domain
  import opened TaskSchema

  const DefaultPage: int := 1
  const DefaultLimit: int := 10

  /** mapToEntity: the entity a stored document stands for. */
  function MapToEntity(d: TaskDoc): (t: Task)
    ensures t.id == d.oid
    ensures DocOf(t) == d
  {
    Task(d.oid, d.titulo, d.descripcion, d.estatus, d.createdAt, d.updatedAt, d.completedAt, d.schemaVersion)
  }

  /** The stored document an entity was read from, field by field. */
  function DocOf(t: Task): TaskDoc {
    TaskDoc(t.id, t.titulo, t.descripcion, t.estatus, t.createdAt, t.updatedAt, t.completedAt, t.schemaVersion)
  }

  function MapAll(ds: seq<TaskDoc>): (ts: seq<Task>)
    ensures |ts| == |ds|
    ensures forall k :: 0 <= k < |ds| ==> ts[k] == MapToEntity(ds[k])
  {
    seq(|ds|, k requires 0 <= k < |ds| => MapToEntity(ds[k]))
  }

  // ---------------------------------------------------------------------------
  // Sorting by createdAt, newest first

  predicate NewestFirst(s: seq<TaskDoc>) {
    forall i, j :: 0 <= i < j < |s| ==> s[i].createdAt >= s[j].createdAt
  }

  /** `order` lists exactly the documents of `s`, newest first. Documents with
      equal creation times may come in any order. */
  predicate IsNewestFirstOrder(order: seq<TaskDoc>, s: seq<TaskDoc>) {
    NewestFirst(order) && multiset(order) == multiset(s)
  }

  function InsertNewestFirst(d: TaskDoc, s: seq<TaskDoc>): (r: seq<TaskDoc>)
    ensures |r| == |s| + 1
    ensures multiset(r) == multiset(s) + multiset{d}
  {
    if s == [] || s[0].createdAt <= d.createdAt then
      [d] + s
    else
      assert s == [s[0]] + s[1..];
      [s[0]] + InsertNewestFirst(d, s[1..])
  }

  /** Every element of a sequence is no newer than `x` when every element of
      another with the same contents, and `d`, is. */
  lemma NoNewerThan(x: TaskDoc, rest: seq<TaskDoc>, others: seq<TaskDoc>, d: TaskDoc)
    requires multiset(rest) == multiset(others) + multiset{d}
    requires x.createdAt >= d.createdAt
    requires forall k :: 0 <= k < |others| ==> x.createdAt >= others[k].createdAt
    ensures forall k :: 0 <= k < |rest| ==> x.createdAt >= rest[k].createdAt
  {
    forall k | 0 <= k < |rest| ensures x.createdAt >= rest[k].createdAt {
      assert rest[k] in multiset(rest);
      if rest[k] != d {
        assert rest[k] in multiset(others);
        var m :| 0 <= m < |others| && others[m] == rest[k];
      }
    }
  }

  /** Inserting into a newest-first sequence keeps it newest first. */
  lemma {:induction false} InsertKeepsNewestFirst(d: TaskDoc, s: seq<TaskDoc>)
    requires NewestFirst(s)
    ensures NewestFirst(InsertNewestFirst(d, s))
  {
    if s == [] || s[0].createdAt <= d.createdAt {
    } else {
      var rest := InsertNewestFirst(d, s[1..]);
      InsertKeepsNewestFirst(d, s[1..]);
      NoNewerThan(s[0], rest, s[1..], d);
      assert InsertNewestFirst(d, s) == [s[0]] + rest;
    }
  }

  /** The order of `find().sort({ createdAt: -1 })`: insertion sort, one choice
      among the orders `IsNewestFirstOrder` allows. */
  function SortNewestFirst(s: seq<TaskDoc>): (r: seq<TaskDoc>)
    ensures IsNewestFirstOrder(r, s)
  {
    if s == [] then []
    else
      assert s == [s[0]] + s[1..];
      var sorted := SortNewestFirst(s[1..]);
      InsertKeepsNewestFirst(s[0], sorted);
      InsertNewestFirst(s[0], sorted)
  }

  function Min(a: int, b: int): int { if a <= b then a else b }
  function Max(a: int, b: int): int { if a >= b then a else b }

  /** `.skip(skip).limit(limit)`: the documents at positions [skip, skip + limit). */
  function Window<T>(s: seq<T>, skip: nat, limit: nat): (w: seq<T>)
    ensures |w| == Min(limit, Max(0, |s| - skip))
    ensures forall k :: 0 <= k < |w| ==> skip + k < |s| && w[k] == s[skip + k]
  {
    if skip >= |s| then [] else s[skip..Min(skip + limit, |s|)]
  }

  /** `k` is the least whole number of pages of `limit` items that hold `total` items. */
  predicate IsCeiling(k: int, total: nat, limit: int) {
    k * limit >= total && (k - 1) * limit < total
  }

  /** Math.ceil(total / limit) for a positive limit. */
  function CeilDiv(total: nat, limit: int): (k: nat)
    requires limit > 0
    ensures IsCeiling(k, total, limit)
  {
    var k := (total + limit - 1) / limit;
    var rem := (total + limit - 1) % limit;
    assert total + limit - 1 == k * limit + rem;
    assert (k - 1) * limit == k * limit - limit;
    k
  }

  /** The ceiling is unique: no other page count fits. */
  lemma CeilingUnique(k1: int, k2: int, total: nat, limit: int)
    requires limit > 0
    requires IsCeiling(k1, total, limit) && IsCeiling(k2, total, limit)
    ensures k1 == k2
  {
  }

  /** The number of documents before page `page`. */
  function Skip(page: int, limit: int): (skip: nat)
    requires page >= 1 && limit >= 1
    ensures skip == (page - 1) * limit
  {
    var p: nat := page - 1;
    var l: nat := limit;
    p * l
  }

  /** `value || fallback` for a number that is never NaN here. */
  function OrDefault(value: int, fallback: int): int {
    if value == 0 then fallback else value
  }

  function PageOf(options: Option<PaginationOptions>): (page: int)
    ensures options.None? || options.value.page == 0 ==> page == DefaultPage
    ensures options.Some? && options.value.page != 0 ==> page == options.value.page
  {
    if options.None? then DefaultPage else OrDefault(options.value.page, DefaultPage)
  }

  function LimitOf(options: Option<PaginationOptions>): (limit: int)
    ensures options.None? || options.value.limit == 0 ==> limit == DefaultLimit
    ensures options.Some? && options.value.limit != 0 ==> limit == options.value.limit
  {
    if options.None? then DefaultLimit else OrDefault(options.value.limit, DefaultLimit)
  }

  /** The position of the document with the given id, if any. */
  function IndexOfId(ds: seq<TaskDoc>, id: string): (r: Option<nat>)
    ensures r.Some? ==> r.value < |ds| && ds[r.value].oid == id
    ensures r.Some? ==> forall k :: 0 <= k < r.value ==> ds[k].oid != id
    ensures r.None? ==> forall k :: 0 <= k < |ds| ==> ds[k].oid != id
  {
    if ds == [] then None
    else if ds[0].oid == id then Some(0)
    else
      match IndexOfId(ds[1..], id)
      case None => None
      case Some(k) => Some(k + 1)
  }

  function TrimOption(s: Option<string>): Option<string> {
    if s.Some? then Some(Trim(s.value)) else None
  }

  /** The document `create` inserts: the trimmed fields, estatus false, no completedAt
      (the save hook clears it because estatus was given), both timestamps now. */
  function CreatedDoc(id: string, data: CreateTaskDto, now: nat): TaskDoc {
    TaskDoc(id, Trim(data.titulo), TrimOption(data.descripcion), false, now, now, None, InitialSchemaVersion)
  }

  /** Why `create` fails, if it does: a schema validation error first, then a
      duplicate `_id`. Neither is an application error. */
  function CreateRejection(ds: seq<TaskDoc>, data: CreateTaskDto, id: string): (f: Option<Fault>)
    ensures f.Some? ==> f.value.PlainFault? || f.value.DuplicateKeyFault?
  {
    var failure := ValidationFailure(Trim(data.titulo), TrimOption(data.descripcion));
    if failure.Some? then Some(PlainFault(failure.value, None))
    else if IndexOfId(ds, id).Some? then Some(DuplicateKeyFault(id, None))
    else None
  }

  /** `create` succeeds exactly when the trimmed fields meet the schema and the
      id is new. */
  lemma CreateRejectionIff(ds: seq<TaskDoc>, data: CreateTaskDto, id: string)
    ensures CreateRejection(ds, data, id).None? <==>
            FieldsConform(Trim(data.titulo), TrimOption(data.descripcion)) && (forall k :: 0 <= k < |ds| ==> ds[k].oid != id)
  {
  }

  /** What `create` stores is a well-formed, incomplete task. */
  lemma CreatedDocWellFormed(data: CreateTaskDto, id: string, now: nat)
    requires FieldsConform(Trim(data.titulo), TrimOption(data.descripcion))
    ensures WellFormed(CreatedDoc(id, data, now))
    ensures !CreatedDoc(id, data, now).estatus && CreatedDoc(id, data, now).completedAt.None?
  {
  }

  predicate UniqueIds(ds: seq<TaskDoc>) {
    forall i, j :: 0 <= i < j < |ds| ==> ds[i].oid != ds[j].oid
  }

  predicate AllWellFormed(ds: seq<TaskDoc>) {
    forall i {:trigger WellFormed(ds[i])} :: 0 <= i < |ds| ==> WellFormed(ds[i])
  }

  /** Ids are unique and every document meets the schema and keeps
      completedAt present exactly when estatus is true. */
  predicate ValidDocs(ds: seq<TaskDoc>) {
    UniqueIds(ds) && AllWellFormed(ds)
  }

  lemma AppendKeepsUnique(ds: seq<TaskDoc>, d: TaskDoc)
    requires UniqueIds(ds)
    requires forall k :: 0 <= k < |ds| ==> ds[k].oid != d.oid
    ensures UniqueIds(ds + [d])
  {
  }

  lemma AppendKeepsWellFormed(ds: seq<TaskDoc>, d: TaskDoc)
    requires AllWellFormed(ds) && WellFormed(d)
    ensures AllWellFormed(ds + [d])
  {
  }

  /** A fresh id, once appended, names the appended document. */
  lemma AppendedFound(ds: seq<TaskDoc>, d: TaskDoc)
    requires forall k :: 0 <= k < |ds| ==> ds[k].oid != d.oid
    ensures IndexOfId(ds + [d], d.oid) == Some(|ds|)
  {
    var ds' := ds + [d];
    assert ds'[|ds|].oid == d.oid;
    assert forall k :: 0 <= k < |ds| ==> ds'[k] == ds[k];
  }

  lemma ReplaceKeepsUnique(ds: seq<TaskDoc>, k: nat, d: TaskDoc)
    requires UniqueIds(ds)
    requires k < |ds| && ds[k].oid == d.oid
    ensures UniqueIds(ds[k := d])
  {
  }

  lemma ReplaceKeepsWellFormed(ds: seq<TaskDoc>, k: nat, d: TaskDoc)
    requires AllWellFormed(ds) && WellFormed(d)
    requires k < |ds|
    ensures AllWellFormed(ds[k := d])
  {
  }

  class TaskStore {
    /** The documents of the collection, in insertion order. */
    var docs: seq<TaskDoc>

    ghost predicate Valid()
      reads this
    {
      ValidDocs(docs)
    }

    constructor ()
      ensures Valid() && docs == []
    {
      docs := [];
    }

    function IndexOf(id: string): Option<nat>
      reads this
    {
      IndexOfId(docs, id)
    }

    /** findById: the entity with the id, or None (null) when there is none. */
    function FindById(id: string): (r: Option<Task>)
      reads this
      ensures r.None? <==> forall k :: 0 <= k < |docs| ==> docs[k].oid != id
      ensures r.Some? ==> r.value.id == id
      ensures r.Some? ==> exists k :: 0 <= k < |docs| && docs[k].oid == id && r.value == MapToEntity(docs[k])
    {
      match IndexOf(id)
      case None => None
      case Some(k) => Some(MapToEntity(docs[k]))
    }

    /**
     * findAll: falsy page and limit become 1 and 10, skip is (page - 1) * limit,
     * total counts every document and totalPages is the ceiling of total / limit;
     * the data is the window [skip, skip + limit) of the documents sorted newest
     * first. Negative page or limit values are excluded.
     */
    function FindAll(options: Option<PaginationOptions>): (r: PaginatedResult)
      reads this
      requires options.Some? ==> options.value.page >= 0 && options.value.limit >= 0
      ensures var page := PageOf(options);
              var limit := LimitOf(options);
              && page >= 1 && limit >= 1
              && var skip := Skip(page, limit);
              && r.pagination.page == page
              && r.pagination.limit == limit
              && r.pagination.total == |docs|
              && IsCeiling(r.pagination.totalPages, |docs|, limit)
              && |r.data| == Min(limit, Max(0, |docs| - skip))
              && exists order :: IsNewestFirstOrder(order, docs) && r.data == MapAll(Window(order, skip, limit))
    {
      var page := PageOf(options);
      var limit := LimitOf(options);
      var skip := Skip(page, limit);
      var sorted := SortNewestFirst(docs);
      var data := MapAll(Window(sorted, skip, limit));
      assert IsNewestFirstOrder(sorted, docs) && data == MapAll(Window(sorted, skip, limit));
      PaginatedResult(data, Pagination(page, limit, |docs|, CeilDiv(|docs|, limit)))
    }

    /** `save()` of a new document: validation, then the save hook, then the
        insert, which refuses an `_id` already stored. The setters have run,
        and every field given to the constructor counts as modified. */
    method Save(doc: TaskDocument, now: nat) returns (r: Result<TaskDoc, Fault>)
      requires Valid()
      requires Trimmed(doc.titulo) && (doc.descripcion.Some? ==> Trimmed(doc.descripcion.value))
      requires doc.estatusModified
      modifies this, doc`completedAt
      ensures Valid()
      ensures var failure := ValidationFailure(doc.titulo, doc.descripcion);
              && (failure.Some? ==> r == Err(PlainFault(failure.value, None)) && docs == old(docs))
              && (failure.None? && old(IndexOf(doc.oid)).Some? ==>
                    r == Err(DuplicateKeyFault(doc.oid, None)) && docs == old(docs))
              && (failure.None? && old(IndexOf(doc.oid)).None? ==>
                    && doc.completedAt == SavedCompletedAt(true, doc.estatus, old(doc.completedAt), now)
                    && r == Ok(doc.Value()) && docs == old(docs) + [doc.Value()])
    {
      var failure := ValidationFailure(doc.titulo, doc.descripcion);
      if failure.Some? {
        return Err(PlainFault(failure.value, None));
      }
      doc.PreSave(now);
      if IndexOf(doc.oid).Some? {
        return Err(DuplicateKeyFault(doc.oid, None));
      }
      var saved := doc.Value();
      SaveHookConsistent(doc.estatus, old(doc.completedAt), now);
      assert WellFormed(saved);
      AppendKeepsUnique(docs, saved);
      AppendKeepsWellFormed(docs, saved);
      docs := docs + [saved];
      r := Ok(saved);
    }

    /** create: builds a document from the data with estatus false and saves
        it, or throws and leaves the collection as it was. On success the task
        reads back by its id. */
    method Create(data: CreateTaskDto, now: nat, newId: string) returns (r: Result<Task, Fault>)
      requires Valid()
      modifies this
      ensures Valid()
      ensures var rejection := CreateRejection(old(docs), data, newId);
              && (rejection.Some? ==> r == Err(rejection.value) && docs == old(docs))
              && (rejection.None? ==> docs == old(docs) + [CreatedDoc(newId, data, now)]
                                      && r == Ok(MapToEntity(CreatedDoc(newId, data, now))))
      ensures r.Ok? ==> FindById(newId) == Some(r.value)
    {
      var doc := new TaskDocument.New(newId, data.titulo, data.descripcion, false, now);
      var saved := Save(doc, now);
      if saved.Err? {
        return Err(saved.error);
      }
      assert saved.value == CreatedDoc(newId, data, now);
      AppendedFound(old(docs), saved.value);
      r := Ok(MapToEntity(saved.value));
    }

    /** updateCompleted: `findByIdAndUpdate(id, { estatus }, { new: true })`
        with the update hook; returns the updated entity, or None when no
        document has the id. Only that document changes. */
    method UpdateCompleted(id: string, estatus: bool, now: nat) returns (r: Option<Task>)
      requires Valid()
      modifies this
      ensures Valid()
      ensures var k := old(IndexOf(id));
              && (k.None? ==> r.None? && docs == old(docs))
              && (k.Some? ==> docs == old(docs)[k.value := AfterStatusUpdate(old(docs)[k.value], estatus, now)]
                              && r == Some(MapToEntity(docs[k.value])))
    {
      var k := IndexOf(id);
      if k.None? {
        return None;
      }
      var update := new UpdateDocument(Some(estatus));
      update.PreFindOneAndUpdate(now);
      var updated := ApplyUpdate(docs[k.value], update.estatus, update.completedAt, update.unsetCompletedAt, now);
      assert updated == AfterStatusUpdate(docs[k.value], estatus, now);
      StatusUpdatePreservesWellFormed(docs[k.value], estatus, now);
      ReplaceKeepsUnique(docs, k.value, updated);
      ReplaceKeepsWellFormed(docs, k.value, updated);
      docs := docs[k.value := updated];
      r := Some(MapToEntity(updated));
    }
  }

  /** Twenty-five stored tasks, page 2 of 5: five tasks, five pages. */
  lemma FindAllTwentyFive(store: TaskStore)
    requires |store.docs| == 25
    ensures var r := store.FindAll(Some(PaginationOptions(2, 5)));
            |r.data| == 5 && r.pagination.total == 25 && r.pagination.totalPages == 5
  {
    var r := store.FindAll(Some(PaginationOptions(2, 5)));
    CeilingUnique(r.pagination.totalPages, 5, 25, 5);
  }

  /** An empty collection has no tasks and no pages. */
  lemma FindAllEmpty(store: TaskStore, options: Option<PaginationOptions>)
    requires store.docs == []
    requires options.Some? ==> options.value.page >= 0 && options.value.limit >= 0
    ensures var r := store.FindAll(options);
            r.data == [] && r.pagination.total == 0 && r.pagination.totalPages == 0
  {
    var r := store.FindAll(options);
    CeilingUnique(r.pagination.totalPages, 0, 0, LimitOf(options));
  }
}
