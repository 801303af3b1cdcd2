/** The client side of schedule generation: the helpers that normalise the
    task list and the preferences before they are posted to the endpoint, the
    guard that refuses to post without preferences, and the copy of accepted
    blocks onto the stored tasks. */
module AISchedule {
  import opened Js
  import ScheduleRoute

  /** A task as the subscription delivers it. Firestore data is untyped, so
      `estMinutes` and `dueAt` may hold any value; `name`, `priority` and
      `status` are None when missing or null. */
  datatype ClientTask = ClientTask(
    id: string,
    name: Option<string>,
    estMinutes: Value,
    priority: Option<string>,
    status: Option<string>,
    dueAt: Value)

  /** A task as it is posted: every field present. */
  datatype ApiTask = ApiTask(
    id: string,
    name: string,
    estMinutes: int,
    priority: string,
    status: string,
    dueAt: Option<string>)

  datatype ClientPrefs = ClientPrefs(startTime: Option<string>, endTime: Option<string>, targetHoursPerDay: Value)

  datatype ApiPrefs = ApiPrefs(startTime: string, endTime: string, targetHoursPerDay: int)

  datatype ApiRequest = ApiRequest(tasks: seq<ApiTask>, prefs: ApiPrefs, today: string)

  const DefaultTargetHours: int := 2

  // ---------------------------------------------------------------------
  // Normalising helpers

  /** `currentDate()` for a clock reading of `year`, month index `month`
      (0 for January, as `getMonth` counts) and day of the month `date`. */
  function CurrentDate(year: nat, month: nat, date: nat): string {
    Decimal(year) + "-" + Pad(month + 1) + "-" + Pad(date)
  }

  /** For a four-digit year the text is "YYYY-MM-DD" and its three numbers
      read back as the year, the month counted from 1, and the day. */
  lemma CurrentDateReadsBack(year: nat, month: nat, date: nat)
    requires 1000 <= year <= 9999 && month < 12 && 1 <= date <= 31
    ensures var s := CurrentDate(year, month, date);
      && |s| == 10 && s[4] == '-' && s[7] == '-'
      && AllDigits(s[..4]) && AllDigits(s[5..7]) && AllDigits(s[8..])
      && DigitsValue(s[..4]) == year
      && DigitsValue(s[5..7]) == month + 1
      && DigitsValue(s[8..]) == date
  {
    FourDigits(year);
    DecimalRoundTrip(year);
    var s := CurrentDate(year, month, date);
    assert s[..4] == Decimal(year);
    assert s[5..7] == Pad(month + 1);
    assert s[8..] == Pad(date);
  }

  /** `toISO(value)` */
  function ToIso(v: Value): (r: Option<string>)
    ensures r.Some? <==> Truthy(v) && (v.Str? || v.Timestamp?)
    ensures v.Str? && v.s != "" ==> r == Some(v.s)
    ensures v.Timestamp? ==> r == Some(v.iso)
  {
    if !Truthy(v) then None
    else match v
      case Timestamp(_, iso) => Some(iso)
      case Str(s) => Some(s)
      case _ => None
  }

  /** The element function of `tasksForApi` */
  function ToApiTask(t: ClientTask): ApiTask {
    ApiTask(
      t.id,
      OrElse(t.name, ""),
      if t.estMinutes.Num? then t.estMinutes.n else 0,
      OrElse(t.priority, "Medium"),
      OrElse(t.status, "pending"),
      ToIso(t.dueAt))
  }

  /** `tasksForApi(items)`: one posted task per task, in the same order. */
  function TasksForApi(items: seq<ClientTask>): (r: seq<ApiTask>)
    ensures |r| == |items|
    ensures forall i :: 0 <= i < |r| ==> r[i].id == items[i].id && r[i] == ToApiTask(items[i])
  {
    seq(|items|, i requires 0 <= i < |items| => ToApiTask(items[i]))
  }

  /** Missing or empty fields are filled in (an empty name, a zero estimate
      for anything that is not a number, Medium, pending, no due date for a
      value that is neither a non-empty string nor a Timestamp); values that
      are present are sent as they are. */
  lemma ApiTaskDefaults(t: ClientTask)
    ensures var a := ToApiTask(t);
      && a.id == t.id
      && (t.name.None? || t.name.value == "" <==> a.name == "")
      && (t.name.Some? ==> a.name == t.name.value)
      && (a.estMinutes == if t.estMinutes.Num? then t.estMinutes.n else 0)
      && (t.priority.None? || t.priority.value == "" <==> a.priority == "Medium" && t.priority != Some("Medium"))
      && (t.priority.Some? && t.priority.value != "" ==> a.priority == t.priority.value)
      && (t.status.Some? && t.status.value != "" ==> a.status == t.status.value)
      && (t.status.None? || t.status.value == "" ==> a.status == "pending")
      && (a.dueAt.Some? ==> t.dueAt.Str? || t.dueAt.Timestamp?)
  {
  }

  /** What the posted task looks like to a client reading it back. */
  function Resent(a: ApiTask): ClientTask {
    ClientTask(a.id, Some(a.name), Num(a.estMinutes), Some(a.priority), Some(a.status),
               if a.dueAt.Some? then Str(a.dueAt.value) else Null)
  }

  /** Normalising twice is normalising once (a Timestamp's ISO text is never
      empty). */
  lemma ToApiTaskIdempotent(t: ClientTask)
    requires !(t.dueAt.Timestamp? && t.dueAt.iso == "")
    ensures ToApiTask(Resent(ToApiTask(t))) == ToApiTask(t)
  {
  }

  /** The task the endpoint reads from a posted task; `due` is the instant it
      parses from the posted due-date text. */
  function AsRouteTask(a: ApiTask, due: Option<int>): ScheduleRoute.Task {
    ScheduleRoute.Task(a.id, Some(a.name), Some(a.estMinutes), Some(a.priority), Some(a.status), due)
  }

  /** The client's defaults agree with the endpoint's own: a task the client
      sends is eligible exactly when its stored status is missing, empty or
      "pending", it ranks by its stored priority with Medium for a missing one,
      it sorts by its stored name with "" for a missing one, and a non-number
      estimate takes the five-minute floor. */
  lemma PostedTaskKeepsMeaning(t: ClientTask, due: Option<int>)
    ensures var task := AsRouteTask(ToApiTask(t), due);
      && (ScheduleRoute.Eligible(task) <==> t.status.None? || t.status.value == "" || t.status.value == "pending")
      && ScheduleRoute.Rank(task) == ScheduleRoute.Rank(ScheduleRoute.Task(t.id, t.name, None, t.priority, t.status, due))
      && ScheduleRoute.NameKey(task) == OrElse(t.name, "")
      && (!t.estMinutes.Num? ==> ScheduleRoute.Duration(task) == ScheduleRoute.MinBlockMinutes)
  {
  }

  /** `prefsForApi(p)`: missing or empty times take 09:00 and 17:00, set
      ones are kept, and a target that is not a number takes two hours. */
  function PrefsForApi(p: Option<ClientPrefs>): (r: ApiPrefs)
    ensures p.None? ==> r == ApiPrefs("09:00", "17:00", DefaultTargetHours)
    ensures p.Some? && p.value.startTime.Some? && p.value.startTime.value != "" ==> r.startTime == p.value.startTime.value
    ensures p.Some? && p.value.endTime.Some? && p.value.endTime.value != "" ==> r.endTime == p.value.endTime.value
    ensures p.None? || p.value.startTime.None? || p.value.startTime.value == "" ==> r.startTime == "09:00"
    ensures p.None? || p.value.endTime.None? || p.value.endTime.value == "" ==> r.endTime == "17:00"
    ensures r.targetHoursPerDay == if p.Some? && p.value.targetHoursPerDay.Num? then p.value.targetHoursPerDay.n else DefaultTargetHours
  {
    var startTime := if p.Some? then p.value.startTime else None;
    var endTime := if p.Some? then p.value.endTime else None;
    ApiPrefs(
      OrElse(startTime, "09:00"),
      OrElse(endTime, "17:00"),
      if p.Some? && p.value.targetHoursPerDay.Num? then p.value.targetHoursPerDay.n else DefaultTargetHours)
  }

  /** The preferences the endpoint reads from posted ones. */
  function AsRoutePrefs(p: ApiPrefs): ScheduleRoute.Prefs {
    ScheduleRoute.Prefs(Some(p.startTime), Some(p.endTime), Some(p.targetHoursPerDay))
  }

  /** Stored preferences without times or target reach the endpoint as the
      09:00 to 17:00 window with a two-hour target, so two hours are
      available; the endpoint's own default target of zero hours never
      applies to what the client posts. */
  lemma ClientDefaultsReachEndpoint(p: ClientPrefs, today: int)
    requires p.startTime.None? && p.endTime.None? && !p.targetHoursPerDay.Num?
    ensures var prefs := AsRoutePrefs(PrefsForApi(Some(p)));
      && ScheduleRoute.MakeDate(Some(today), OrElse(prefs.startTime, ScheduleRoute.DefaultStart)) == Some(today + 540)
      && ScheduleRoute.MakeDate(Some(today), OrElse(prefs.endTime, ScheduleRoute.DefaultEnd)) == Some(today + 1020)
      && ScheduleRoute.AvailableMinutes(today + 540, today + 1020, prefs.targetHoursPerDay) == 120
  {
    assert "09:00"[..2] == "09" && "09:00"[3..] == "00";
    assert "17:00"[..2] == "17" && "17:00"[3..] == "00";
    assert DigitsValue("09") == 9 by { assert "09"[..1] == "0"; }
    assert DigitsValue("17") == 17 by { assert "17"[..1] == "1"; }
    assert DigitsValue("00") == 0 by { assert "00"[..1] == "0"; }
  }

  /** `generatePlan`'s request: nothing is posted while the preferences are
      not loaded. */
  function GeneratePlanRequest(tasks: seq<ClientTask>, prefs: Option<ClientPrefs>, today: string): (r: Option<ApiRequest>)
    ensures r.None? <==> prefs.None?
    ensures r.Some? ==> r.value.tasks == TasksForApi(tasks) && r.value.prefs == PrefsForApi(prefs) && r.value.today == today
  {
    if prefs.None? then None
    else Some(ApiRequest(TasksForApi(tasks), PrefsForApi(prefs), today))
  }

  // ---------------------------------------------------------------------
  // Accepting a plan

  /** A block as the client holds it, with ISO instants. */
  datatype ClientBlock = ClientBlock(taskId: string, scheduledStart: string, scheduledEnd: string, source: string)

  type Doc = map<string, Value>

  /** The user's task documents by id */
  type Store = map<string, Doc>

  /** `acceptPlan`: with no blocks nothing happens; when every write succeeds
      the plan is saved, a "regenerate" event is logged and the blocks are
      cleared; the first write to a task that does not exist throws, the
      writes before it stay, and the blocks stay on screen. */
  datatype AcceptOutcome = NothingToAccept | Saved(store: Store) | SaveFailed(store: Store)

  /** The fields `updateDoc` writes for a block */
  function Scheduled(doc: Doc, b: ClientBlock): (r: Doc)
    ensures r.Keys == doc.Keys + {"scheduledStart", "scheduledEnd", "scheduleSource"}
    ensures r["scheduledStart"] == Str(b.scheduledStart) && r["scheduledEnd"] == Str(b.scheduledEnd)
    ensures r["scheduleSource"] == Str(b.source)
    ensures forall k :: k in doc && k !in {"scheduledStart", "scheduledEnd", "scheduleSource"} ==> r[k] == doc[k]
  {
    doc["scheduledStart" := Str(b.scheduledStart)]["scheduledEnd" := Str(b.scheduledEnd)]["scheduleSource" := Str(b.source)]
  }

  /** A later block for the same task overwrites everything an earlier one wrote. */
  lemma ScheduledOverwrites(doc: Doc, b1: ClientBlock, b2: ClientBlock)
    ensures Scheduled(Scheduled(doc, b1), b2) == Scheduled(doc, b2)
  {
  }

  datatype Writes = Writes(store: Store, ok: bool)

  /** The writes of the loop over `blocks`, in order, stopping at the first
      block whose task does not exist. */
  function WriteBlocks(store: Store, blocks: seq<ClientBlock>): Writes
    decreases |blocks|
  {
    if blocks == [] then Writes(store, true)
    else
      var before := WriteBlocks(store, blocks[..|blocks| - 1]);
      var b := blocks[|blocks| - 1];
      if !before.ok || b.taskId !in before.store then Writes(before.store, false)
      else Writes(before.store[b.taskId := Scheduled(before.store[b.taskId], b)], true)
  }

  /** `acceptPlan()`: nothing without blocks; otherwise the store as the
      writes leave it, saved exactly when every write succeeded. */
  function AcceptPlan(store: Store, blocks: seq<ClientBlock>): (r: AcceptOutcome)
    ensures r.NothingToAccept? <==> blocks == []
    ensures blocks != [] ==> r.store == WriteBlocks(store, blocks).store
    ensures r.Saved? <==> blocks != [] && WriteBlocks(store, blocks).ok
  {
    if |blocks| == 0 then NothingToAccept
    else
      var w := WriteBlocks(store, blocks);
      if w.ok then Saved(w.store) else SaveFailed(w.store)
  }

  /** The last block in `blocks` for task `id` */
  function LastBlockFor(blocks: seq<ClientBlock>, id: string): (r: Option<ClientBlock>)
    ensures r.Some? ==> r.value in blocks && r.value.taskId == id
    ensures r.None? <==> forall b :: b in blocks ==> b.taskId != id
  {
    if blocks == [] then None
    else if blocks[|blocks| - 1].taskId == id then Some(blocks[|blocks| - 1])
    else
      var r := LastBlockFor(blocks[..|blocks| - 1], id);
      assert forall b :: b in blocks ==> b in blocks[..|blocks| - 1] || b == blocks[|blocks| - 1];
      r
  }

  /** The writes never add or remove tasks; they succeed exactly when every
      block names an existing task; then each task holds the fields of the
      last block for it, and a task without a block is untouched. */
  lemma {:induction false} WriteBlocksEffect(store: Store, blocks: seq<ClientBlock>)
    ensures var w := WriteBlocks(store, blocks);
      && w.store.Keys == store.Keys
      && (w.ok <==> forall b :: b in blocks ==> b.taskId in store)
      && (w.ok ==> forall id :: id in store ==>
            w.store[id] == if LastBlockFor(blocks, id).Some? then Scheduled(store[id], LastBlockFor(blocks, id).value)
                           else store[id])
    decreases |blocks|
  {
    if blocks != [] {
      var init := blocks[..|blocks| - 1];
      var b := blocks[|blocks| - 1];
      WriteBlocksEffect(store, init);
      assert forall x :: x in blocks <==> x in init || x == b;
      var before := WriteBlocks(store, init);
      if before.ok && b.taskId in store {
        forall id | id in store
          ensures WriteBlocks(store, blocks).store[id]
               == if LastBlockFor(blocks, id).Some? then Scheduled(store[id], LastBlockFor(blocks, id).value)
                  else store[id]
        {
          if id == b.taskId && LastBlockFor(init, id).Some? {
            ScheduledOverwrites(store[id], LastBlockFor(init, id).value, b);
          }
        }
      }
    }
  }

  /** Block `k` is the first whose task does not exist. */
  predicate FirstMissing(store: Store, blocks: seq<ClientBlock>, k: int) {
    && 0 <= k < |blocks|
    && blocks[k].taskId !in store
    && forall j :: 0 <= j < k ==> blocks[j].taskId in store
  }

  /** A failed accept leaves exactly the writes of the blocks before the
      first one whose task does not exist. */
  lemma {:induction false} WriteBlocksStopsAtMissingTask(store: Store, blocks: seq<ClientBlock>)
    requires !WriteBlocks(store, blocks).ok
    ensures exists k ::
      FirstMissing(store, blocks, k) && WriteBlocks(store, blocks).store == WriteBlocks(store, blocks[..k]).store
    decreases |blocks|
  {
    var init := blocks[..|blocks| - 1];
    WriteBlocksEffect(store, init);
    if WriteBlocks(store, init).ok {
      var k := |blocks| - 1;
      assert init == blocks[..k];
      forall j | 0 <= j < k ensures blocks[j].taskId in store {
        assert blocks[j] == init[j];
      }
      assert FirstMissing(store, blocks, k);
    } else {
      WriteBlocksStopsAtMissingTask(store, init);
      var k :| FirstMissing(store, init, k)
        && WriteBlocks(store, init).store == WriteBlocks(store, init[..k]).store;
      assert init[..k] == blocks[..k];
      assert FirstMissing(store, blocks, k);
    }
  }
}
