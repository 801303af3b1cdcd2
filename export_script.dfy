/** The training-data export: for one user, every task that was scheduled
    becomes an attempt; attempts are taken in order of their scheduled start
    and each is written as a row of features together with the success rates
    of the attempts before it, so that no row's features depend on its own
    outcome or on later ones. */
module ExportScript {
  import opened Js
  import Csv
  import Sorting

  // ---------------------------------------------------------------------
  // Dates

  /** A valid `Date` as the script reads it: `time` is `getTime()` in
      milliseconds, the others are `getFullYear()`, `getMonth()`,
      `getDate()`, `getHours()` and `getDay()` in the local time zone. */
  datatype Instant = Instant(time: int, year: int, month: int, date: int, hours: int, day: int)

  datatype TimeOfDayBin = Night | Morning | Afternoon | Evening

  /** The position of a bin in the day */
  function BinIndex(b: TimeOfDayBin): nat {
    match b
    case Night => 0
    case Morning => 1
    case Afternoon => 2
    case Evening => 3
  }

  function BinName(b: TimeOfDayBin): string {
    match b
    case Night => "night"
    case Morning => "morning"
    case Afternoon => "afternoon"
    case Evening => "evening"
  }

  /** `getTimeOfDayBin(date)` */
  function TimeOfDay(d: Instant): (b: TimeOfDayBin)
    ensures b == Night <==> d.hours < 6
    ensures b == Morning <==> 6 <= d.hours < 12
    ensures b == Afternoon <==> 12 <= d.hours < 18
    ensures b == Evening <==> 18 <= d.hours
  {
    if d.hours < 6 then Night
    else if d.hours < 12 then Morning
    else if d.hours < 18 then Afternoon
    else Evening
  }

  /** A later hour never falls in an earlier bin. */
  lemma TimeOfDayMonotone(d: Instant, e: Instant)
    requires d.hours <= e.hours
    ensures BinIndex(TimeOfDay(d)) <= BinIndex(TimeOfDay(e))
  {
  }

  const MillisPerDay: int := 1000 * 60 * 60 * 24

  /** The `daysUntilDue` cell: empty without a due date, else a number */
  datatype DaysCell = NoDueDate | Days(n: int)

  /** `getDaysUntilDue(start, due)`: the whole days from the start to the due
      date, rounded down, so a due date before the start gives a negative
      count. */
  function DaysUntilDue(start: Instant, due: Option<Instant>): (r: DaysCell)
    ensures due.None? <==> r.NoDueDate?
    ensures due.Some? ==>
      r.n * MillisPerDay <= due.value.time - start.time < (r.n + 1) * MillisPerDay
    ensures due.Some? ==> (r.n < 0 <==> due.value.time < start.time)
  {
    if due.None? then NoDueDate
    else Days((due.value.time - start.time) / MillisPerDay)
  }

  /** `isSameLocalDay(left, right)` */
  predicate IsSameLocalDay(left: Instant, right: Instant) {
    left.year == right.year && left.month == right.month && left.date == right.date
  }

  /** Falling on the same local day is an equivalence. */
  lemma SameLocalDayIsEquivalence(a: Instant, b: Instant, c: Instant)
    ensures IsSameLocalDay(a, a)
    ensures IsSameLocalDay(a, b) ==> IsSameLocalDay(b, a)
    ensures IsSameLocalDay(a, b) && IsSameLocalDay(b, c) ==> IsSameLocalDay(a, c)
  {
  }

  // ---------------------------------------------------------------------
  // Records read from the store

  /** An event document: its `type` field, and its `timestamp` after
      `toDateSafe` (None when missing or not a date). */
  datatype Event = Event(eventType: Value, timestamp: Option<Instant>)

  /** A task document with its date fields after `toDateSafe` */
  datatype TaskRecord = TaskRecord(
    id: string,
    category: Value,
    priority: Value,
    estMinutes: Value,
    scheduledStart: Option<Instant>,
    scheduledEnd: Option<Instant>,
    dueAt: Option<Instant>,
    completedAt: Option<Instant>)

  /** One scheduled task of a user; `estMinutes` None stands for NaN. */
  datatype Attempt = Attempt(
    userId: string,
    taskId: string,
    category: Value,
    priority: Value,
    estMinutes: Option<int>,
    scheduledStart: Instant,
    scheduledEnd: Instant,
    dueAt: Option<Instant>,
    completedAt: Option<Instant>,
    wasRegenerated: int)

  /** The dates of the user's regeneration events, in document order */
  function RegenDates(events: seq<Event>): seq<Instant> {
    if events == [] then []
    else
      var e := events[|events| - 1];
      var earlier := RegenDates(events[..|events| - 1]);
      if e.eventType == Str("regen") && e.timestamp.Some? then earlier + [e.timestamp.value] else earlier
  }

  lemma {:induction false} RegenDatesMembers(events: seq<Event>, d: Instant)
    ensures d in RegenDates(events) <==>
      exists e :: e in events && e.eventType == Str("regen") && e.timestamp == Some(d)
  {
    if events != [] {
      var init := events[..|events| - 1];
      RegenDatesMembers(init, d);
      assert events == init + [events[|events| - 1]];
      if exists e :: e in events && e.eventType == Str("regen") && e.timestamp == Some(d) {
        var e :| e in events && e.eventType == Str("regen") && e.timestamp == Some(d);
        if e != events[|events| - 1] {
          assert e in init;
        }
      }
    }
  }

  /** 1 when some regeneration happened on the local day of `start`, found by
      scanning the dates in order and stopping at the first match */
  function WasRegenerated(dates: seq<Instant>, start: Instant): (r: int)
    ensures r == 0 || r == 1
    ensures r == 1 <==> exists d :: d in dates && IsSameLocalDay(d, start)
  {
    if dates == [] then 0
    else if IsSameLocalDay(dates[0], start) then 1
    else
      assert forall d :: d in dates ==> d == dates[0] || d in dates[1..];
      WasRegenerated(dates[1..], start)
  }

  /** `typeof v === "number" ? v : v ? Number(v) : 0` */
  function Estimate(v: Value): (r: Option<int>)
    ensures v.Num? ==> r == Some(v.n)
    ensures !Truthy(v) ==> r == Some(0)
    ensures v.Str? && v.s != "" ==> r == StringToNumber(v.s)
  {
    if v.Num? then Some(v.n) else if Truthy(v) then ToNumber(v) else Some(0)
  }

  /** An estimate stored as the text of a whole number reads as that number. */
  lemma EstimateOfNumberText(n: int)
    ensures Estimate(Str(ToJsString(Num(n)))) == Some(n)
  {
    NumberOfStringOfInt(n);
  }

  /** The attempt a task record yields, None when it lacks a scheduled start
      or end */
  function AttemptOf(userId: string, t: TaskRecord, regenDates: seq<Instant>): (r: Option<Attempt>)
    ensures r.None? <==> t.scheduledStart.None? || t.scheduledEnd.None?
    ensures r.Some? ==>
      && r.value.userId == userId
      && r.value.taskId == t.id
      && r.value.estMinutes == Estimate(t.estMinutes)
      && r.value.dueAt == t.dueAt
      && r.value.completedAt == t.completedAt
      && r.value.scheduledStart == t.scheduledStart.value
      && r.value.scheduledEnd == t.scheduledEnd.value
      && (Truthy(t.category) ==> r.value.category == t.category)
      && (!Truthy(t.category) ==> r.value.category == Str("General"))
      && (Truthy(t.priority) ==> r.value.priority == t.priority)
      && (!Truthy(t.priority) ==> r.value.priority == Str("Medium"))
      && r.value.wasRegenerated == WasRegenerated(regenDates, t.scheduledStart.value)
      && (r.value.wasRegenerated == 1 <==>
           exists d :: d in regenDates && IsSameLocalDay(d, t.scheduledStart.value))
  {
    if t.scheduledStart.None? || t.scheduledEnd.None? then None
    else
      Some(Attempt(
        userId,
        t.id,
        if Truthy(t.category) then t.category else Str("General"),
        if Truthy(t.priority) then t.priority else Str("Medium"),
        Estimate(t.estMinutes),
        t.scheduledStart.value,
        t.scheduledEnd.value,
        t.dueAt,
        t.completedAt,
        WasRegenerated(regenDates, t.scheduledStart.value)))
  }

  /** The attempts of a user, in document order */
  function Attempts(userId: string, tasks: seq<TaskRecord>, regenDates: seq<Instant>): seq<Attempt> {
    if tasks == [] then []
    else
      var earlier := Attempts(userId, tasks[..|tasks| - 1], regenDates);
      match AttemptOf(userId, tasks[|tasks| - 1], regenDates)
      case None => earlier
      case Some(a) => earlier + [a]
  }

  /** The attempts keep the document order: the attempts of two runs of
      documents one after the other are those of the first run followed by
      those of the second. */
  lemma {:induction false} AttemptsAppend(userId: string, a: seq<TaskRecord>, b: seq<TaskRecord>, regenDates: seq<Instant>)
    ensures Attempts(userId, a + b, regenDates) == Attempts(userId, a, regenDates) + Attempts(userId, b, regenDates)
  {
    if b == [] {
      assert a + b == a;
    } else {
      var init := b[..|b| - 1];
      AttemptsAppend(userId, a, init, regenDates);
      assert (a + b)[..|a + b| - 1] == a + init;
      assert (a + b)[|a + b| - 1] == b[|b| - 1];
    }
  }

  /** Exactly the tasks with both a scheduled start and end become attempts. */
  lemma {:induction false} AttemptsAreScheduledTasks(userId: string, tasks: seq<TaskRecord>, regenDates: seq<Instant>, a: Attempt)
    ensures |Attempts(userId, tasks, regenDates)| <= |tasks|
    ensures a in Attempts(userId, tasks, regenDates) <==>
      exists t :: t in tasks && AttemptOf(userId, t, regenDates) == Some(a)
  {
    if tasks != [] {
      var init := tasks[..|tasks| - 1];
      var last := tasks[|tasks| - 1];
      AttemptsAreScheduledTasks(userId, init, regenDates, a);
      assert tasks == init + [last];
      if exists t :: t in tasks && AttemptOf(userId, t, regenDates) == Some(a) {
        var t :| t in tasks && AttemptOf(userId, t, regenDates) == Some(a);
        if t != last {
          assert t in init;
        }
      }
    }
  }

  /** `wasRegenerated` is 1 exactly when a regeneration event of the user
      falls on the local day the attempt was scheduled to start. */
  lemma RegeneratedOnSameDay(userId: string, events: seq<Event>, t: TaskRecord)
    requires t.scheduledStart.Some? && t.scheduledEnd.Some?
    ensures AttemptOf(userId, t, RegenDates(events)).value.wasRegenerated == 1 <==>
      exists e :: e in events && e.eventType == Str("regen") && e.timestamp.Some?
        && IsSameLocalDay(e.timestamp.value, t.scheduledStart.value)
  {
    var start := t.scheduledStart.value;
    var dates := RegenDates(events);
    if exists d :: d in dates && IsSameLocalDay(d, start) {
      var d :| d in dates && IsSameLocalDay(d, start);
      RegenDatesMembers(events, d);
    }
    if exists e :: e in events && e.eventType == Str("regen") && e.timestamp.Some?
        && IsSameLocalDay(e.timestamp.value, start) {
      var e :| e in events && e.eventType == Str("regen") && e.timestamp.Some?
        && IsSameLocalDay(e.timestamp.value, start);
      RegenDatesMembers(events, e.timestamp.value);
    }
  }

  /** `left.scheduledStart.getTime() - right.scheduledStart.getTime() <= 0` */
  predicate StartsNoLater(left: Attempt, right: Attempt) {
    left.scheduledStart.time <= right.scheduledStart.time
  }

  function Chronological(attempts: seq<Attempt>): seq<Attempt> {
    Sorting.Sort(attempts, StartsNoLater)
  }

  /** The attempts are rearranged into non-decreasing scheduled start. */
  lemma ChronologicalOrder(attempts: seq<Attempt>)
    ensures multiset(Chronological(attempts)) == multiset(attempts)
    ensures forall i, j :: 0 <= i < j < |Chronological(attempts)| ==>
      Chronological(attempts)[i].scheduledStart.time <= Chronological(attempts)[j].scheduledStart.time
  {
    assert Sorting.TotalPreorder(StartsNoLater);
    Sorting.SortSorted(attempts, StartsNoLater);
  }

  /** Attempts that start at the same instant keep the order in which they
      were collected. */
  lemma ChronologicalStable(attempts: seq<Attempt>, a: Attempt)
    ensures Sorting.ClassOf(Chronological(attempts), StartsNoLater, a) == Sorting.ClassOf(attempts, StartsNoLater, a)
  {
    assert Sorting.TotalPreorder(StartsNoLater);
    Sorting.SortStable(attempts, StartsNoLater, a);
  }

  // ---------------------------------------------------------------------
  // Running counters

  /** The `completed_on_time` cell: empty, 0 or 1 */
  datatype Label = Blank | Zero | One

  function OnTime(a: Attempt): (l: Label)
    ensures l == Blank <==> a.completedAt.None?
    ensures l == One <==> a.completedAt.Some? && a.completedAt.value.time <= a.scheduledEnd.time
  {
    if a.completedAt.None? then Blank
    else if a.completedAt.value.time <= a.scheduledEnd.time then One
    else Zero
  }

  predicate Won(a: Attempt) {
    OnTime(a) == One
  }

  /** The four counters of the loop: attempts and on-time attempts, overall
      and per category. */
  datatype Counters = Counters(
    total: nat,
    wins: nat,
    totalByCategory: map<Value, nat>,
    winsByCategory: map<Value, nat>)

  const NoCounts := Counters(0, 0, map[], map[])

  /** `m.get(k) || 0` */
  function Get(m: map<Value, nat>, k: Value): nat {
    if k in m then m[k] else 0
  }

  /** The counter updates after one attempt */
  function Record(c: Counters, a: Attempt): Counters {
    Counters(
      c.total + 1,
      if Won(a) then c.wins + 1 else c.wins,
      c.totalByCategory[a.category := Get(c.totalByCategory, a.category) + 1],
      if Won(a) then c.winsByCategory[a.category := Get(c.winsByCategory, a.category) + 1]
      else c.winsByCategory)
  }

  /** The counters after the given attempts, in order */
  function Tally(attempts: seq<Attempt>): Counters {
    if attempts == [] then NoCounts
    else Record(Tally(attempts[..|attempts| - 1]), attempts[|attempts| - 1])
  }

  // Reference counts, defined from the front

  function WinCount(attempts: seq<Attempt>): nat {
    if attempts == [] then 0
    else (if Won(attempts[0]) then 1 else 0) + WinCount(attempts[1..])
  }

  function CategoryCount(attempts: seq<Attempt>, c: Value): nat {
    if attempts == [] then 0
    else (if attempts[0].category == c then 1 else 0) + CategoryCount(attempts[1..], c)
  }

  function CategoryWinCount(attempts: seq<Attempt>, c: Value): nat {
    if attempts == [] then 0
    else (if attempts[0].category == c && Won(attempts[0]) then 1 else 0) + CategoryWinCount(attempts[1..], c)
  }

  lemma {:induction false} CountsAppend(attempts: seq<Attempt>, a: Attempt, c: Value)
    ensures WinCount(attempts + [a]) == WinCount(attempts) + (if Won(a) then 1 else 0)
    ensures CategoryCount(attempts + [a], c) == CategoryCount(attempts, c) + (if a.category == c then 1 else 0)
    ensures CategoryWinCount(attempts + [a], c) ==
      CategoryWinCount(attempts, c) + (if a.category == c && Won(a) then 1 else 0)
  {
    if attempts != [] {
      assert (attempts + [a])[1..] == attempts[1..] + [a];
      CountsAppend(attempts[1..], a, c);
    } else {
      assert [] + [a] == [a];
    }
  }

  /** The loop's counters hold the reference counts of the attempts seen:
      the total is their number, the wins those on time, and each category
      entry counts that category's attempts and on-time attempts; the maps
      have an entry exactly for the categories seen. */
  lemma {:induction false} TallyCounts(attempts: seq<Attempt>)
    ensures Tally(attempts).total == |attempts|
    ensures Tally(attempts).wins == WinCount(attempts)
    ensures forall c :: Get(Tally(attempts).totalByCategory, c) == CategoryCount(attempts, c)
    ensures forall c :: Get(Tally(attempts).winsByCategory, c) == CategoryWinCount(attempts, c)
    ensures forall c :: c in Tally(attempts).totalByCategory <==> CategoryCount(attempts, c) > 0
    ensures Tally(attempts).winsByCategory.Keys <= Tally(attempts).totalByCategory.Keys
  {
    if attempts != [] {
      var init := attempts[..|attempts| - 1];
      var a := attempts[|attempts| - 1];
      assert attempts == init + [a];
      TallyCounts(init);
      forall c
        ensures Get(Tally(attempts).totalByCategory, c) == CategoryCount(attempts, c)
        ensures Get(Tally(attempts).winsByCategory, c) == CategoryWinCount(attempts, c)
        ensures c in Tally(attempts).totalByCategory <==> CategoryCount(attempts, c) > 0
      {
        CountsAppend(init, a, c);
      }
      CountsAppend(init, a, a.category);
    }
  }

  lemma {:induction false} CountsBounded(attempts: seq<Attempt>, c: Value)
    ensures WinCount(attempts) <= |attempts|
    ensures CategoryWinCount(attempts, c) <= CategoryCount(attempts, c)
  {
    if attempts != [] {
      CountsBounded(attempts[1..], c);
    }
  }

  /** Successes never exceed attempts, overall and in every category. */
  lemma CountersBounded(attempts: seq<Attempt>)
    ensures Tally(attempts).wins <= Tally(attempts).total
    ensures forall c :: Get(Tally(attempts).winsByCategory, c) <= Get(Tally(attempts).totalByCategory, c)
  {
    TallyCounts(attempts);
    forall c
      ensures Get(Tally(attempts).winsByCategory, c) <= Get(Tally(attempts).totalByCategory, c)
    {
      CountsBounded(attempts, c);
    }
    CountsBounded(attempts, Undefined);
  }

  /** The sum of a map's entries */
  ghost function MapSum(m: map<Value, nat>): nat
    decreases |m|
  {
    if m == map[] then 0
    else
      var k :| k in m;
      m[k] + MapSum(m - {k})
  }

  lemma {:induction false} MapSumRemove(m: map<Value, nat>, k: Value)
    requires k in m
    ensures MapSum(m) == m[k] + MapSum(m - {k})
    decreases |m|
  {
    var j :| j in m && MapSum(m) == m[j] + MapSum(m - {j});
    if j != k {
      assert |m - {j}| < |m| && |m - {k}| < |m|;
      MapSumRemove(m - {j}, k);
      MapSumRemove(m - {k}, j);
      assert (m - {j}) - {k} == (m - {k}) - {j};
    }
  }

  lemma MapSumIncrement(m: map<Value, nat>, k: Value)
    ensures MapSum(m[k := Get(m, k) + 1]) == MapSum(m) + 1
  {
    var m' := m[k := Get(m, k) + 1];
    MapSumRemove(m', k);
    if k in m {
      MapSumRemove(m, k);
      assert m' - {k} == m - {k};
    } else {
      assert m' - {k} == m;
    }
  }

  /** The per-category totals add up to the overall total, and the
      per-category wins to the overall wins. */
  lemma {:induction false} CategoryTotalsSum(attempts: seq<Attempt>)
    ensures MapSum(Tally(attempts).totalByCategory) == Tally(attempts).total
    ensures MapSum(Tally(attempts).winsByCategory) == Tally(attempts).wins
  {
    if attempts != [] {
      var init := attempts[..|attempts| - 1];
      var a := attempts[|attempts| - 1];
      CategoryTotalsSum(init);
      MapSumIncrement(Tally(init).totalByCategory, a.category);
      MapSumIncrement(Tally(init).winsByCategory, a.category);
    }
  }

  // ---------------------------------------------------------------------
  // Rows

  /** A prior success rate: empty when there were no prior attempts,
      otherwise wins over attempts (written with three decimals). */
  datatype Rate = NoRate | Ratio(wins: nat, total: nat)

  function RateOf(wins: nat, total: nat): Rate {
    if total > 0 then Ratio(wins, total) else NoRate
  }

  datatype Row = Row(
    userId: string,
    taskId: string,
    category: Value,
    priority: Value,
    estMinutes: Option<int>,
    timeOfDay: TimeOfDayBin,
    dayOfWeek: int,
    daysUntilDue: DaysCell,
    wasRegenerated: int,
    categoryRate: Rate,
    overallRate: Rate,
    completedOnTime: Label)

  /** The row of an attempt, given the counters of the attempts before it */
  function MakeRow(a: Attempt, prior: Counters): Row {
    Row(
      a.userId,
      a.taskId,
      a.category,
      a.priority,
      a.estMinutes,
      TimeOfDay(a.scheduledStart),
      a.scheduledStart.day,
      DaysUntilDue(a.scheduledStart, a.dueAt),
      a.wasRegenerated,
      RateOf(Get(prior.winsByCategory, a.category), Get(prior.totalByCategory, a.category)),
      RateOf(prior.wins, prior.total),
      OnTime(a))
  }

  /** The rows of a user's attempts taken in order */
  function Rows(attempts: seq<Attempt>): seq<Row> {
    seq(|attempts|, i requires 0 <= i < |attempts| => MakeRow(attempts[i], Tally(attempts[..i])))
  }

  /** Taking one more attempt adds its row, computed from the counters of
      the attempts before it. */
  lemma RowsStep(attempts: seq<Attempt>, i: int)
    requires 0 <= i < |attempts|
    ensures Tally(attempts[..i + 1]) == Record(Tally(attempts[..i]), attempts[i])
    ensures Rows(attempts[..i + 1]) == Rows(attempts[..i]) + [MakeRow(attempts[i], Tally(attempts[..i]))]
  {
    assert attempts[..i + 1][..i] == attempts[..i];
    forall m | 0 <= m < i
      ensures attempts[..i + 1][..m] == attempts[..i][..m]
    {
    }
  }

  /** What the export writes for one user */
  function UserRows(userId: string, events: seq<Event>, tasks: seq<TaskRecord>): seq<Row> {
    Rows(Chronological(Attempts(userId, tasks, RegenDates(events))))
  }

  /** A row's prior rates are the success rates of the attempts strictly
      before it: overall, and within its own category. */
  lemma PriorRates(attempts: seq<Attempt>, i: int)
    requires 0 <= i < |attempts|
    ensures Rows(attempts)[i].overallRate == RateOf(WinCount(attempts[..i]), i)
    ensures Rows(attempts)[i].categoryRate ==
      RateOf(CategoryWinCount(attempts[..i], attempts[i].category),
             CategoryCount(attempts[..i], attempts[i].category))
    ensures Rows(attempts)[i].completedOnTime == OnTime(attempts[i])
  {
    TallyCounts(attempts[..i]);
  }

  /** No leakage: a row's rates do not depend on its own outcome or on any
      later attempt, only on the earlier attempts and its category. */
  lemma RatesIgnoreOwnAndLaterOutcomes(attempts: seq<Attempt>, others: seq<Attempt>, i: int)
    requires 0 <= i < |attempts| && i < |others|
    requires attempts[..i] == others[..i]
    requires attempts[i].category == others[i].category
    ensures Rows(attempts)[i].overallRate == Rows(others)[i].overallRate
    ensures Rows(attempts)[i].categoryRate == Rows(others)[i].categoryRate
  {
    PriorRates(attempts, i);
    PriorRates(others, i);
  }

  /** The first row of a user has no prior rates. */
  lemma FirstRowHasNoRates(attempts: seq<Attempt>)
    requires |attempts| >= 1
    ensures Rows(attempts)[0].overallRate == NoRate && Rows(attempts)[0].categoryRate == NoRate
  {
    assert attempts[..0] == [];
  }

  /** The cells of a row in column order; `fixed3(w, t)` stands for
      `(w / t).toFixed(3)`. */
  function RowCells(r: Row, fixed3: (nat, nat) -> string): seq<Value> {
    [ Str(r.userId),
      Str(r.taskId),
      r.category,
      r.priority,
      if r.estMinutes.Some? then Num(r.estMinutes.value) else Str("NaN"),
      Str(BinName(r.timeOfDay)),
      Num(r.dayOfWeek),
      if r.daysUntilDue.Days? then Num(r.daysUntilDue.n) else Str(""),
      Num(r.wasRegenerated),
      if r.categoryRate.Ratio? then Str(fixed3(r.categoryRate.wins, r.categoryRate.total)) else Str(""),
      if r.overallRate.Ratio? then Str(fixed3(r.overallRate.wins, r.overallRate.total)) else Str(""),
      match r.completedOnTime
      case Blank => Str("")
      case Zero => Num(0)
      case One => Num(1) ]
  }

  const Header: seq<string> := [
    "userId", "taskId", "category", "priority", "estMinutes", "timeOfDayBin", "dayOfWeek",
    "daysUntilDue", "wasRegenerated", "pastSuccessRate_category", "pastSuccessRate_overall",
    "completed_on_time"]

  /** One line of the file */
  function CsvLine(r: Row, fixed3: (nat, nat) -> string): string {
    Csv.Join(Csv.EscapeAll(RowCells(r, fixed3)))
  }

  /** Every line splits back into one field per header column, the user and
      task ids intact, whatever text the fields hold. */
  lemma CsvLineReadsBack(r: Row, fixed3: (nat, nat) -> string)
    ensures Csv.ReadRecord(CsvLine(r, fixed3)).Some?
    ensures |Csv.ReadRecord(CsvLine(r, fixed3)).value| == |Header|
    ensures Csv.ReadRecord(CsvLine(r, fixed3)).value[0] == r.userId
    ensures Csv.ReadRecord(CsvLine(r, fixed3)).value[1] == r.taskId
  {
    Csv.EscapedRowRoundTrip(RowCells(r, fixed3));
  }

  // ---------------------------------------------------------------------
  // The per-user loop

  /** The events loop: the dates of the user's regeneration events */
  method CollectRegenDates(events: seq<Event>) returns (regenEventDates: seq<Instant>)
    ensures regenEventDates == RegenDates(events)
  {
    regenEventDates := [];
    for j := 0 to |events|
      invariant regenEventDates == RegenDates(events[..j])
    {
      var e := events[j];
      assert events[..j + 1][..j] == events[..j];
      if e.eventType == Str("regen") && e.timestamp.Some? {
        regenEventDates := regenEventDates + [e.timestamp.value];
      }
    }
    assert events[..|events|] == events;
  }

  /** The search for a regeneration on the day of `scheduledStart`, which
      stops at the first match */
  method FindRegeneration(regenEventDates: seq<Instant>, scheduledStart: Instant) returns (wasRegenerated: int)
    ensures wasRegenerated == WasRegenerated(regenEventDates, scheduledStart)
  {
    wasRegenerated := 0;
    var k := 0;
    while k < |regenEventDates|
      invariant 0 <= k <= |regenEventDates|
      invariant wasRegenerated == 0
      invariant WasRegenerated(regenEventDates[k..], scheduledStart) == WasRegenerated(regenEventDates, scheduledStart)
    {
      assert regenEventDates[k..][0] == regenEventDates[k];
      if IsSameLocalDay(regenEventDates[k], scheduledStart) {
        wasRegenerated := 1;
        return;
      }
      assert regenEventDates[k..][1..] == regenEventDates[k + 1..];
      k := k + 1;
    }
  }

  /** The tasks loop: one attempt per task with a scheduled start and end */
  method CollectAttempts(userId: string, tasks: seq<TaskRecord>, regenEventDates: seq<Instant>)
    returns (attemptList: seq<Attempt>)
    ensures attemptList == Attempts(userId, tasks, regenEventDates)
  {
    attemptList := [];
    for j := 0 to |tasks|
      invariant attemptList == Attempts(userId, tasks[..j], regenEventDates)
    {
      var t := tasks[j];
      assert tasks[..j + 1][..j] == tasks[..j];
      if t.scheduledStart.None? || t.scheduledEnd.None? {
        continue;
      }
      var scheduledStart := t.scheduledStart.value;
      var category := if Truthy(t.category) then t.category else Str("General");
      var priority := if Truthy(t.priority) then t.priority else Str("Medium");
      var estMinutes := if t.estMinutes.Num? then Some(t.estMinutes.n)
        else if Truthy(t.estMinutes) then ToNumber(t.estMinutes) else Some(0);
      var wasRegenerated := FindRegeneration(regenEventDates, scheduledStart);
      attemptList := attemptList + [Attempt(
        userId, t.id, category, priority, estMinutes, scheduledStart, t.scheduledEnd.value,
        t.dueAt, t.completedAt, wasRegenerated)];
    }
    assert tasks[..|tasks|] == tasks;
  }

  /** The rows loop: each row takes the rates of the counters as they stand,
      then the counters take in the row's attempt. */
  method WriteRows(attemptList: seq<Attempt>) returns (rows: seq<Row>)
    ensures rows == Rows(attemptList)
  {
    var totalAttemptsOverall: nat := 0;
    var successfulAttemptsOverall: nat := 0;
    var totalAttemptsByCategory: map<Value, nat> := map[];
    var successfulAttemptsByCategory: map<Value, nat> := map[];
    rows := [];
    for i := 0 to |attemptList|
      invariant Tally(attemptList[..i]) ==
        Counters(totalAttemptsOverall, successfulAttemptsOverall, totalAttemptsByCategory, successfulAttemptsByCategory)
      invariant rows == Rows(attemptList[..i])
    {
      RowsStep(attemptList, i);
      ghost var before := Tally(attemptList[..i]);
      var attempt := attemptList[i];
      var completedOnTime := Blank;
      if attempt.completedAt.Some? {
        completedOnTime := if attempt.completedAt.value.time <= attempt.scheduledEnd.time then One else Zero;
      }
      var previousOverallRate := if totalAttemptsOverall > 0
        then Ratio(successfulAttemptsOverall, totalAttemptsOverall) else NoRate;
      var previousCategoryTotal := Get(totalAttemptsByCategory, attempt.category);
      var previousCategoryWins := Get(successfulAttemptsByCategory, attempt.category);
      var previousCategoryRate := if previousCategoryTotal > 0
        then Ratio(previousCategoryWins, previousCategoryTotal) else NoRate;

      assert completedOnTime == OnTime(attempt);
      assert previousOverallRate == RateOf(before.wins, before.total);
      assert previousCategoryRate ==
        RateOf(Get(before.winsByCategory, attempt.category), Get(before.totalByCategory, attempt.category));
      var row := Row(
        attempt.userId, attempt.taskId, attempt.category, attempt.priority, attempt.estMinutes,
        TimeOfDay(attempt.scheduledStart), attempt.scheduledStart.day,
        DaysUntilDue(attempt.scheduledStart, attempt.dueAt), attempt.wasRegenerated,
        previousCategoryRate, previousOverallRate, completedOnTime);
      assert row == MakeRow(attempt, before);
      rows := rows + [row];

      totalAttemptsOverall := totalAttemptsOverall + 1;
      if completedOnTime == One {
        successfulAttemptsOverall := successfulAttemptsOverall + 1;
      }
      var newCategoryTotal := Get(totalAttemptsByCategory, attempt.category) + 1;
      totalAttemptsByCategory := totalAttemptsByCategory[attempt.category := newCategoryTotal];
      if completedOnTime == One {
        var newCategoryWins := Get(successfulAttemptsByCategory, attempt.category) + 1;
        successfulAttemptsByCategory := successfulAttemptsByCategory[attempt.category := newCategoryWins];
      }
      assert Won(attempt) <==> completedOnTime == One;
      assert totalAttemptsByCategory == before.totalByCategory[attempt.category := newCategoryTotal];
      assert Counters(totalAttemptsOverall, successfulAttemptsOverall, totalAttemptsByCategory,
        successfulAttemptsByCategory) == Record(before, attempt);
    }
    assert attemptList[..|attemptList|] == attemptList;
  }

  /** The export for one user: collect the regeneration dates, turn the
      scheduled tasks into attempts, sort them by start and write one row
      per attempt. */
  method ExportUser(userId: string, events: seq<Event>, tasks: seq<TaskRecord>) returns (rows: seq<Row>)
    ensures rows == UserRows(userId, events, tasks)
  {
    var regenEventDates := CollectRegenDates(events);
    var attemptList := CollectAttempts(userId, tasks, regenEventDates);
    attemptList := Sorting.Sort(attemptList, StartsNoLater);
    rows := WriteRows(attemptList);
  }
}
