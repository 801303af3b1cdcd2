/** Reading a stored task document into the app's task shape (`docToTask`).
    Unlike the scheduling code, which fills defaults with `||`, this reader
    uses `??`: only missing and null fields take a default, so an empty
    string or a zero stays as it is. */
module TaskDocs {
  import opened Js
  import ScheduleRoute

  /** The fields of a document */
  type Doc = map<string, Value>

  /** A task in the app's shared shape. `priority` and `status` are only cast,
      so any stored value passes through; `estMinutes` is `Number(...)`, with
      None for NaN; `createdAt` is in milliseconds since the epoch. */
  datatype StoredTask = StoredTask(
    id: string,
    name: string,
    category: string,
    priority: Value,
    estMinutes: Option<int>,
    createdAt: int,
    status: Value)

  const DefaultCategory: string := "Other"
  const DefaultPriority: int := 2
  const DefaultEstimate: int := 30

  /** `d?.key`, where None is a null or undefined document */
  function Field(data: Option<Doc>, key: string): Value {
    if data.Some? && key in data.value then data.value[key] else Undefined
  }

  /** `v ?? fallback` */
  function Coalesce(v: Value, fallback: Value): (r: Value)
    ensures Nullish(v) ==> r == fallback
    ensures !Nullish(v) ==> r == v
  {
    if Nullish(v) then fallback else v
  }

  /** `docToTask(id, data)`; `now` is the clock reading `new Date()` takes
      when the document has no Timestamp `createdAt`. The id is kept; a
      missing or null field takes its default (name "", category "Other",
      priority 2, estimate 30, status "pending", creation time now); present
      string fields and present priorities and statuses pass through
      unchanged, even when empty or zero. */
  function DocToTask(id: string, data: Option<Doc>, now: int): (t: StoredTask)
    ensures t.id == id
    ensures Nullish(Field(data, "name")) ==> t.name == ""
    ensures Field(data, "name").Str? ==> t.name == Field(data, "name").s
    ensures Nullish(Field(data, "category")) ==> t.category == DefaultCategory
    ensures Field(data, "category").Str? ==> t.category == Field(data, "category").s
    ensures Nullish(Field(data, "priority")) ==> t.priority == Num(DefaultPriority)
    ensures !Nullish(Field(data, "priority")) ==> t.priority == Field(data, "priority")
    ensures Nullish(Field(data, "estMinutes")) ==> t.estMinutes == Some(DefaultEstimate)
    ensures Field(data, "estMinutes").Num? ==> t.estMinutes == Some(Field(data, "estMinutes").n)
    ensures Nullish(Field(data, "status")) ==> t.status == Str("pending")
    ensures !Nullish(Field(data, "status")) ==> t.status == Field(data, "status")
    ensures Field(data, "createdAt").Timestamp? ==> t.createdAt == Field(data, "createdAt").millis
    ensures !Field(data, "createdAt").Timestamp? ==> t.createdAt == now
  {
    var createdAt := Field(data, "createdAt");
    StoredTask(
      id,
      ToJsString(Coalesce(Field(data, "name"), Str(""))),
      ToJsString(Coalesce(Field(data, "category"), Str(DefaultCategory))),
      Coalesce(Field(data, "priority"), Num(DefaultPriority)),
      ToNumber(Coalesce(Field(data, "estMinutes"), Num(DefaultEstimate))),
      if createdAt.Timestamp? then createdAt.millis else now,
      Coalesce(Field(data, "status"), Str("pending")))
  }

  /** A missing estimate reads as 30 minutes here, while the scheduler packs a
      task without an estimate into a 5-minute block. */
  lemma MissingEstimateDefaultsDiffer(id: string, now: int)
    ensures DocToTask(id, Some(map[]), now).estMinutes == Some(DefaultEstimate)
    ensures ScheduleRoute.Duration(ScheduleRoute.Task(id, None, None, None, None, None)) == ScheduleRoute.MinBlockMinutes
    ensures DefaultEstimate != ScheduleRoute.MinBlockMinutes
  {
  }

  /** The document that holds a task's fields, its creation time stored as a
      Timestamp whose ISO text is `iso`. */
  function TaskDocument(t: StoredTask, iso: string): Doc
    requires t.estMinutes.Some?
  {
    map[
      "name" := Str(t.name),
      "category" := Str(t.category),
      "priority" := t.priority,
      "estMinutes" := Num(t.estMinutes.value),
      "createdAt" := Timestamp(t.createdAt, iso),
      "status" := t.status]
  }

  /** Reading back the document of a task whose priority and status are set
      gives the task itself. */
  lemma DocToTaskRoundTrip(t: StoredTask, iso: string, now: int)
    requires t.estMinutes.Some? && !Nullish(t.priority) && !Nullish(t.status)
    ensures DocToTask(t.id, Some(TaskDocument(t, iso)), now) == t
  {
    var doc := TaskDocument(t, iso);
    assert Field(Some(doc), "name") == Str(t.name);
    assert Field(Some(doc), "category") == Str(t.category);
    assert Field(Some(doc), "priority") == t.priority;
    assert Field(Some(doc), "estMinutes") == Num(t.estMinutes.value);
    assert Field(Some(doc), "createdAt") == Timestamp(t.createdAt, iso);
    assert Field(Some(doc), "status") == t.status;
  }
}
