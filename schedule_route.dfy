/** The daily schedule endpoint (`POST /api/schedule/generate`): it keeps the
    pending tasks, orders them by priority, due time and name, and packs them
    greedily into back-to-back blocks that start at the window's start.

    Instants are whole minutes on one local clock: the request's `today` is the
    local midnight of its date, a time of day "HH:MM" adds its minutes to it,
    and adding minutes to an instant is addition. Estimates are whole minutes. */
module ScheduleRoute {
  import opened Js
  import Sorting

  /** A task as the endpoint receives it. `name`, `priority` and `status` are
      None when missing or null; `dueAt` is the due instant, None when missing,
      null or empty. A priority that is not one of the three names (a number
      included, which the lookup turns into its decimal text) is just another
      string here. */
  datatype Task = Task(
    id: string,
    name: Option<string>,
    estMinutes: Option<int>,
    priority: Option<string>,
    status: Option<string>,
    dueAt: Option<int>)

  datatype Prefs = Prefs(startTime: Option<string>, endTime: Option<string>, targetHoursPerDay: Option<int>)

  /** The request body. `today` is None when the body's date is missing or is
      not a date, which makes every instant built from it an Invalid Date. */
  datatype Request = Request(tasks: Option<seq<Task>>, prefs: Option<Prefs>, today: Option<int>)

  datatype Block = Block(taskId: string, scheduledStart: int, scheduledEnd: int, source: string)

  /** The JSON response, or the RangeError that `toISOString` throws on an
      Invalid Date (the request then fails). */
  datatype Response = Blocks(blocks: seq<Block>) | Thrown

  const DefaultStart: string := "09:00"
  const DefaultEnd: string := "17:00"
  const MinBlockMinutes: int := 5
  const AiSource: string := "ai"
  const NoPrefs: Prefs := Prefs(None, None, None)

  function Min(a: int, b: int): int { if a <= b then a else b }
  function Max(a: int, b: int): int { if a >= b then a else b }

  // ---------------------------------------------------------------------
  // Window and capacity

  /** Minutes after midnight of a time of day "HH:MM" inside the date-time
      text `${date}T${time}:00`; "24:00" is the next midnight. None when the
      text is not a time of day, which makes the Date invalid. */
  function ClockMinutes(time: string): (r: Option<int>)
    ensures r.Some? ==> 0 <= r.value <= 24 * 60
    ensures r.Some? ==> |time| == 5 && time[2] == ':'
  {
    if |time| == 5 && IsDigit(time[0]) && IsDigit(time[1]) && time[2] == ':'
       && IsDigit(time[3]) && IsDigit(time[4]) then
      var hours := DigitsValue(time[..2]);
      var minutes := DigitsValue(time[3..]);
      if (hours < 24 && minutes < 60) || (hours == 24 && minutes == 0) then Some(hours * 60 + minutes)
      else None
    else None
  }

  /** Every minute of the day, written with two-digit hours and minutes, reads
      back as itself. */
  lemma ClockRoundTrip(m: int)
    requires 0 <= m < 24 * 60
    ensures ClockMinutes(Pad(m / 60) + ":" + Pad(m % 60)) == Some(m)
  {
    var text := Pad(m / 60) + ":" + Pad(m % 60);
    assert text[..2] == Pad(m / 60);
    assert text[3..] == Pad(m % 60);
  }

  /** Conversely, a time of day that reads as minute `m` is the padded text
      of `m`: the reading loses nothing. */
  lemma ClockMinutesReadsBack(time: string, m: int)
    requires ClockMinutes(time) == Some(m)
    ensures time == Pad(m / 60) + ":" + Pad(m % 60)
  {
    var hours := DigitsValue(time[..2]);
    var minutes := DigitsValue(time[3..]);
    PadReadsBack(time[..2]);
    PadReadsBack(time[3..]);
    assert m == hours * 60 + minutes && minutes < 60;
    assert m / 60 == hours && m % 60 == minutes;
    assert time == time[..2] + ":" + time[3..];
  }

  /** `makeDate(today, time)`: None is an Invalid Date */
  function MakeDate(today: Option<int>, time: string): (r: Option<int>)
    ensures r.Some? <==> today.Some? && ClockMinutes(time).Some?
    ensures r.Some? ==> today.value <= r.value <= today.value + 24 * 60
  {
    match (today, ClockMinutes(time))
    case (Some(day), Some(minutes)) => Some(day + minutes)
    case _ => None
  }

  /** The instant of a valid time is the day's midnight plus the time's
      minutes, and the instant determines the time's text. */
  lemma MakeDateValue(day: int, m: int)
    requires 0 <= m < 24 * 60
    ensures MakeDate(Some(day), Pad(m / 60) + ":" + Pad(m % 60)) == Some(day + m)
  {
    ClockRoundTrip(m);
  }

  lemma MakeDateReadsBack(day: int, time: string, instant: int)
    requires MakeDate(Some(day), time) == Some(instant)
    ensures time == Pad((instant - day) / 60) + ":" + Pad((instant - day) % 60)
  {
    ClockMinutesReadsBack(time, instant - day);
  }

  /** `addMinutes(date, minutes)` */
  function AddMinutes(instant: int, minutes: int): int {
    instant + minutes
  }

  /** `min(max(0, windowEnd - windowStart), (targetHoursPerDay || 0) * 60)`:
      the greatest amount that is neither more than the window's length nor
      more than the day's target. */
  function AvailableMinutes(windowStart: int, windowEnd: int, targetHours: Option<int>): (r: int)
    ensures r <= Max(0, windowEnd - windowStart) && r <= targetHours.GetOr(0) * 60
    ensures r == Max(0, windowEnd - windowStart) || r == targetHours.GetOr(0) * 60
  {
    var windowMinutes := Max(0, windowEnd - windowStart);
    var targetMinutes := targetHours.GetOr(0) * 60;
    Min(windowMinutes, targetMinutes)
  }

  // ---------------------------------------------------------------------
  // Eligibility and order

  /** `task.status === "pending" || !task.status` */
  predicate Eligible(t: Task) {
    t.status.None? || t.status.value == "pending" || t.status.value == ""
  }

  function Pending(tasks: seq<Task>): (r: seq<Task>)
    ensures |r| <= |tasks|
    ensures forall t :: t in r <==> t in tasks && Eligible(t)
  {
    if tasks == [] then []
    else if Eligible(tasks[0]) then [tasks[0]] + Pending(tasks[1..])
    else Pending(tasks[1..])
  }

  /** The filter keeps each eligible task as often as it is listed, and no
      other task. */
  lemma {:induction false} PendingCounts(tasks: seq<Task>, t: Task)
    ensures multiset(Pending(tasks))[t] == if Eligible(t) then multiset(tasks)[t] else 0
  {
    if tasks != [] {
      PendingCounts(tasks[1..], t);
      assert tasks == [tasks[0]] + tasks[1..];
    }
  }

  /** The filter keeps the listed order: filtering two lists one after the
      other is filtering their concatenation. */
  lemma {:induction false} PendingAppend(a: seq<Task>, b: seq<Task>)
    ensures Pending(a + b) == Pending(a) + Pending(b)
  {
    if a == [] {
      assert a + b == b;
    } else {
      assert (a + b)[0] == a[0] && (a + b)[1..] == a[1..] + b;
      PendingAppend(a[1..], b);
    }
  }

  /** `priorityOrder[a.priority || "Medium"] ?? 1` */
  function Rank(t: Task): (r: int)
    ensures 0 <= r <= 2
    ensures r == 0 <==> t.priority == Some("High")
    ensures r == 2 <==> t.priority == Some("Low")
  {
    var key := OrElse(t.priority, "Medium");
    if key == "High" then 0
    else if key == "Medium" then 1
    else if key == "Low" then 2
    else 1
  }

  /** A numeric priority, such as the 1, 2 or 3 the task store writes, is
      looked up by its decimal text and so always ranks as Medium. */
  lemma NumericPriorityRanksMedium(t: Task, n: int)
    requires t.priority == Some(IntString(n))
    ensures Rank(t) == 1
  {
    var text := IntString(n);
    if n >= 0 {
      assert IsDigit(Decimal(n)[0]);
    }
    assert text[0] != 'H' && text[0] != 'L';
    assert text != "High" && text != "Low";
  }

  datatype DueTime = At(minutes: int) | Infinity

  /** `a.dueAt ? new Date(a.dueAt).getTime() : Infinity` */
  function Due(t: Task): DueTime {
    if t.dueAt.Some? then At(t.dueAt.value) else Infinity
  }

  /** The sign of `dueTimeA - dueTimeB` for two different due times */
  function DueDifference(x: DueTime, y: DueTime): int {
    match (x, y)
    case (At(p), At(q)) => p - q
    case (At(_), Infinity) => -1
    case (Infinity, At(_)) => 1
    case (Infinity, Infinity) => 0
  }

  /** `(a.name || "")` */
  function NameKey(t: Task): string {
    OrElse(t.name, "")
  }

  /** Lexicographic comparison by character (Unicode scalar value):
      negative, zero or positive as `localeCompare` reports it. */
  function LexCompare(a: string, b: string): int {
    if a == [] && b == [] then 0
    else if a == [] then -1
    else if b == [] then 1
    else if a[0] < b[0] then -1
    else if a[0] > b[0] then 1
    else LexCompare(a[1..], b[1..])
  }

  lemma {:induction false} LexCompareAntisymmetric(a: string, b: string)
    ensures LexCompare(a, b) == -LexCompare(b, a)
    ensures LexCompare(a, b) == 0 <==> a == b
  {
    if a != [] && b != [] && a[0] == b[0] {
      LexCompareAntisymmetric(a[1..], b[1..]);
      if a[1..] == b[1..] {
        assert a == [a[0]] + a[1..] && b == [b[0]] + b[1..];
      }
    }
  }

  lemma {:induction false} LexCompareTransitive(a: string, b: string, c: string)
    requires LexCompare(a, b) <= 0 && LexCompare(b, c) <= 0
    ensures LexCompare(a, c) <= 0
  {
    if a != [] && b != [] && c != [] && a[0] == b[0] == c[0] {
      LexCompareTransitive(a[1..], b[1..], c[1..]);
    }
  }

  /** The comparator passed to `sort`. */
  function Compare(a: Task, b: Task): int {
    var priorityA := Rank(a);
    var priorityB := Rank(b);
    if priorityA != priorityB then priorityA - priorityB
    else if Due(a) != Due(b) then DueDifference(Due(a), Due(b))
    else LexCompare(NameKey(a), NameKey(b))
  }

  /** The comparator's order: `a` may precede `b`. */
  predicate TaskLe(a: Task, b: Task) {
    Compare(a, b) <= 0
  }

  /** The due-time key read on its own: earlier instants first, no due date last. */
  predicate DueBefore(x: DueTime, y: DueTime) {
    (x.At? && y.Infinity?) || (x.At? && y.At? && x.minutes < y.minutes)
  }

  /** The comparator places `a` no later than `b` exactly when `a` has a more
      urgent priority rank, or the same rank and an earlier due time, or the
      same rank and due time and a name that does not sort after `b`'s. */
  lemma TaskLeMeaning(a: Task, b: Task)
    ensures TaskLe(a, b) <==>
      || Rank(a) < Rank(b)
      || (Rank(a) == Rank(b) && DueBefore(Due(a), Due(b)))
      || (Rank(a) == Rank(b) && Due(a) == Due(b) && LexCompare(NameKey(a), NameKey(b)) <= 0)
  {
  }

  /** The comparator is consistent, as `sort` needs: swapping the arguments
      flips the sign, and zero means equal keys. */
  lemma CompareAntisymmetric(a: Task, b: Task)
    ensures Compare(a, b) < 0 <==> Compare(b, a) > 0
    ensures Compare(a, b) == 0 <==> Rank(a) == Rank(b) && Due(a) == Due(b) && NameKey(a) == NameKey(b)
  {
    LexCompareAntisymmetric(NameKey(a), NameKey(b));
  }

  lemma CompareTransitive(a: Task, b: Task, c: Task)
    requires TaskLe(a, b) && TaskLe(b, c)
    ensures TaskLe(a, c)
  {
    if Rank(a) == Rank(b) == Rank(c) && Due(a) == Due(b) == Due(c) {
      LexCompareTransitive(NameKey(a), NameKey(b), NameKey(c));
    }
  }

  lemma TaskLeTotalPreorder()
    ensures Sorting.TotalPreorder(TaskLe)
  {
    forall a, b ensures TaskLe(a, b) || TaskLe(b, a) {
      CompareAntisymmetric(a, b);
    }
    forall a, b, c | TaskLe(a, b) && TaskLe(b, c) ensures TaskLe(a, c) {
      CompareTransitive(a, b, c);
    }
  }

  /** The eligible tasks in the order the packer takes them. */
  function Queue(tasks: seq<Task>): (r: seq<Task>)
    ensures |r| == |Pending(tasks)|
  {
    Sorting.Sort(Pending(tasks), TaskLe)
  }

  /** The queue holds exactly the eligible tasks, each as often as the input
      does, in the comparator's order. */
  lemma QueueOrdered(tasks: seq<Task>)
    ensures multiset(Queue(tasks)) == multiset(Pending(tasks))
    ensures forall t :: t in Queue(tasks) <==> t in tasks && Eligible(t)
    ensures Sorting.SortedBy(Queue(tasks), TaskLe)
    ensures forall i, j :: 0 <= i < j < |Queue(tasks)| ==> Rank(Queue(tasks)[i]) <= Rank(Queue(tasks)[j])
  {
    TaskLeTotalPreorder();
    Sorting.SortSorted(Pending(tasks), TaskLe);
    var q := Queue(tasks);
    forall t ensures t in q <==> t in Pending(tasks) {
      assert t in q <==> t in multiset(q);
    }
  }

  /** The sort is stable: tasks the comparator finds equal, in rank, due
      time and name, leave in the order the filter kept them. */
  lemma QueueStable(tasks: seq<Task>, t: Task)
    ensures Sorting.ClassOf(Queue(tasks), TaskLe, t) == Sorting.ClassOf(Pending(tasks), TaskLe, t)
  {
    TaskLeTotalPreorder();
    Sorting.SortStable(Pending(tasks), TaskLe, t);
  }

  // ---------------------------------------------------------------------
  // Packing

  /** `Math.max(5, Math.round(task.estMinutes || 0))` */
  function Duration(t: Task): (r: int)
    ensures r >= MinBlockMinutes
    ensures t.estMinutes.Some? && t.estMinutes.value >= MinBlockMinutes ==> r == t.estMinutes.value
    ensures t.estMinutes.None? || t.estMinutes.value < MinBlockMinutes ==> r == MinBlockMinutes
  {
    Max(MinBlockMinutes, t.estMinutes.GetOr(0))
  }

  /** The blocks the packing loop emits for `queue`, from instant `cursor`
      with `minutesLeft` of capacity, inside a window closing at `windowEnd`. */
  function Pack(queue: seq<Task>, cursor: int, windowEnd: int, minutesLeft: int): seq<Block>
    decreases |queue|
  {
    if queue == [] || minutesLeft <= 0 then []
    else
      var use := Min(Duration(queue[0]), minutesLeft);
      var end := AddMinutes(cursor, use);
      if end > windowEnd then []
      else [Block(queue[0].id, cursor, end, AiSource)] + Pack(queue[1..], end, windowEnd, minutesLeft - use)
  }

  /** The same loop without the `end > windowEnd` test. */
  function PackByCapacity(queue: seq<Task>, cursor: int, minutesLeft: int): seq<Block>
    decreases |queue|
  {
    if queue == [] || minutesLeft <= 0 then []
    else
      var use := Min(Duration(queue[0]), minutesLeft);
      [Block(queue[0].id, cursor, cursor + use, AiSource)] + PackByCapacity(queue[1..], cursor + use, minutesLeft - use)
  }

  function TotalMinutes(blocks: seq<Block>): int {
    if blocks == [] then 0
    else (blocks[0].scheduledEnd - blocks[0].scheduledStart) + TotalMinutes(blocks[1..])
  }

  /** The emitted blocks belong to a prefix of the queue, in order: the loop
      takes the next task or stops, and never skips one. */
  lemma {:induction false} PackFollowsQueue(queue: seq<Task>, cursor: int, windowEnd: int, minutesLeft: int)
    ensures var r := Pack(queue, cursor, windowEnd, minutesLeft);
      && |r| <= |queue|
      && forall i :: 0 <= i < |r| ==> r[i].taskId == queue[i].id && r[i].source == AiSource
  {
    if queue != [] && minutesLeft > 0 {
      var use := Min(Duration(queue[0]), minutesLeft);
      PackFollowsQueue(queue[1..], cursor + use, windowEnd, minutesLeft - use);
    }
  }

  /** The blocks run back to back from `cursor`. */
  lemma {:induction false} PackGapless(queue: seq<Task>, cursor: int, windowEnd: int, minutesLeft: int)
    ensures var r := Pack(queue, cursor, windowEnd, minutesLeft);
      && (r != [] ==> r[0].scheduledStart == cursor)
      && (forall i :: 0 < i < |r| ==> r[i].scheduledStart == r[i - 1].scheduledEnd)
  {
    if queue != [] && minutesLeft > 0 {
      var use := Min(Duration(queue[0]), minutesLeft);
      var end := cursor + use;
      if end <= windowEnd {
        PackGapless(queue[1..], end, windowEnd, minutesLeft - use);
        var rest := Pack(queue[1..], end, windowEnd, minutesLeft - use);
        var r := Pack(queue, cursor, windowEnd, minutesLeft);
        assert r == [Block(queue[0].id, cursor, end, AiSource)] + rest;
        assert forall i :: 0 < i < |r| ==> r[i] == rest[i - 1];
      }
    }
  }

  /** Each block lasts the task's duration cut to the capacity still left when
      it starts, which is always positive. */
  lemma {:induction false} PackBlockLengths(queue: seq<Task>, cursor: int, windowEnd: int, minutesLeft: int)
    ensures var r := Pack(queue, cursor, windowEnd, minutesLeft);
      forall i :: 0 <= i < |r| ==>
        && i < |queue|
        && r[i].scheduledEnd - r[i].scheduledStart
           == Min(Duration(queue[i]), minutesLeft - (r[i].scheduledStart - cursor))
        && r[i].scheduledEnd - r[i].scheduledStart > 0
  {
    if queue != [] && minutesLeft > 0 {
      var use := Min(Duration(queue[0]), minutesLeft);
      var end := cursor + use;
      if end <= windowEnd {
        var tail, left := queue[1..], minutesLeft - use;
        PackBlockLengths(tail, end, windowEnd, left);
        var rest := Pack(tail, end, windowEnd, left);
        var r := Pack(queue, cursor, windowEnd, minutesLeft);
        assert r == [Block(queue[0].id, cursor, end, AiSource)] + rest;
        forall i | 0 <= i < |r|
          ensures i < |queue|
          ensures r[i].scheduledEnd - r[i].scheduledStart
                  == Min(Duration(queue[i]), minutesLeft - (r[i].scheduledStart - cursor))
          ensures r[i].scheduledEnd - r[i].scheduledStart > 0
        {
          if i == 0 {
            assert r[0] == Block(queue[0].id, cursor, end, AiSource);
          } else {
            var b := rest[i - 1];
            assert r[i] == b && queue[i] == tail[i - 1];
            assert left - (b.scheduledStart - end) == minutesLeft - (b.scheduledStart - cursor);
          }
        }
      }
    }
  }

  /** Every block lies inside [`cursor`, `windowEnd`]. */
  lemma {:induction false} PackWithinWindow(queue: seq<Task>, cursor: int, windowEnd: int, minutesLeft: int)
    ensures forall b :: b in Pack(queue, cursor, windowEnd, minutesLeft) ==>
      cursor <= b.scheduledStart && b.scheduledEnd <= windowEnd
  {
    if queue != [] && minutesLeft > 0 {
      var use := Min(Duration(queue[0]), minutesLeft);
      var end := cursor + use;
      if end <= windowEnd {
        assert use > 0;
        var tail, left := queue[1..], minutesLeft - use;
        PackWithinWindow(tail, end, windowEnd, left);
        var rest := Pack(tail, end, windowEnd, left);
        var r := Pack(queue, cursor, windowEnd, minutesLeft);
        assert r == [Block(queue[0].id, cursor, end, AiSource)] + rest;
        forall b | b in r
          ensures cursor <= b.scheduledStart && b.scheduledEnd <= windowEnd
        {
          if b != r[0] {
            assert b in rest;
          }
        }
      }
    }
  }

  /** Together the blocks take exactly the time from `cursor` to the last
      block's end, and no more than the capacity. */
  lemma {:induction false} PackTotal(queue: seq<Task>, cursor: int, windowEnd: int, minutesLeft: int)
    ensures var r := Pack(queue, cursor, windowEnd, minutesLeft);
      && (r == [] ==> TotalMinutes(r) == 0)
      && (r != [] ==> TotalMinutes(r) == r[|r| - 1].scheduledEnd - cursor <= minutesLeft)
  {
    if queue != [] && minutesLeft > 0 {
      var use := Min(Duration(queue[0]), minutesLeft);
      var end := cursor + use;
      if end <= windowEnd {
        PackTotal(queue[1..], end, windowEnd, minutesLeft - use);
        var rest := Pack(queue[1..], end, windowEnd, minutesLeft - use);
        var r := Pack(queue, cursor, windowEnd, minutesLeft);
        assert r == [Block(queue[0].id, cursor, end, AiSource)] + rest;
        assert r[1..] == rest;
        assert rest != [] ==> r[|r| - 1] == rest[|rest| - 1];
      }
    }
  }

  /** While the capacity fits inside the window, the `end > windowEnd` test
      never fires: a block that would reach past the window has already been
      cut to the capacity. */
  lemma {:induction false} WindowTestNeverFires(queue: seq<Task>, cursor: int, windowEnd: int, minutesLeft: int)
    requires minutesLeft <= Max(0, windowEnd - cursor)
    ensures Pack(queue, cursor, windowEnd, minutesLeft) == PackByCapacity(queue, cursor, minutesLeft)
  {
    if queue != [] && minutesLeft > 0 {
      var use := Min(Duration(queue[0]), minutesLeft);
      WindowTestNeverFires(queue[1..], cursor + use, windowEnd, minutesLeft - use);
    }
  }

  /** While the capacity fits inside the window, the loop leaves tasks
      unscheduled only once it has used all of the capacity. */
  lemma {:induction false} PackStopsOnlyWhenFull(queue: seq<Task>, cursor: int, windowEnd: int, minutesLeft: int)
    requires minutesLeft <= Max(0, windowEnd - cursor)
    ensures var r := Pack(queue, cursor, windowEnd, minutesLeft);
      |r| < |queue| ==> TotalMinutes(r) >= minutesLeft
  {
    if queue != [] && minutesLeft > 0 {
      var use := Min(Duration(queue[0]), minutesLeft);
      PackStopsOnlyWhenFull(queue[1..], cursor + use, windowEnd, minutesLeft - use);
      var rest := Pack(queue[1..], cursor + use, windowEnd, minutesLeft - use);
      var r := Pack(queue, cursor, windowEnd, minutesLeft);
      assert r[1..] == rest;
    }
  }

  // ---------------------------------------------------------------------
  // The endpoint

  /** The response the endpoint sends for `req`. With an Invalid Date the
      capacity is NaN, no test stops the loop, and the first pending task's
      block throws; without pending tasks the answer is an empty list. */
  function Schedule(req: Request): (r: Response)
    ensures r.Thrown? <==>
      && |Pending(req.tasks.GetOr([]))| > 0
      && (|| MakeDate(req.today, OrElse(req.prefs.GetOr(NoPrefs).startTime, DefaultStart)).None?
          || MakeDate(req.today, OrElse(req.prefs.GetOr(NoPrefs).endTime, DefaultEnd)).None?)
  {
    var tasks := req.tasks.GetOr([]);
    var prefs := req.prefs.GetOr(NoPrefs);
    var windowStart := MakeDate(req.today, OrElse(prefs.startTime, DefaultStart));
    var windowEnd := MakeDate(req.today, OrElse(prefs.endTime, DefaultEnd));
    var queue := Queue(tasks);
    if windowStart.None? || windowEnd.None? then
      if queue == [] then Blocks([]) else Thrown
    else
      Blocks(Pack(queue, windowStart.value, windowEnd.value,
                  AvailableMinutes(windowStart.value, windowEnd.value, prefs.targetHoursPerDay)))
  }

  method Post(req: Request) returns (resp: Response)
    ensures resp == Schedule(req)
  {
    var tasks := req.tasks.GetOr([]);
    var prefs := req.prefs.GetOr(NoPrefs);
    var today := req.today;
    var windowStart := MakeDate(today, OrElse(prefs.startTime, DefaultStart));
    var windowEnd := MakeDate(today, OrElse(prefs.endTime, DefaultEnd));
    var pending := Queue(tasks);
    if windowStart.None? || windowEnd.None? {
      if |pending| == 0 {
        return Blocks([]);
      }
      return Thrown;
    }
    var availableMinutes := AvailableMinutes(windowStart.value, windowEnd.value, prefs.targetHoursPerDay);

    var blocks: seq<Block> := [];
    var currentTime := windowStart.value;
    var minutesLeft := availableMinutes;
    var i := 0;
    while i < |pending|
      invariant 0 <= i <= |pending|
      invariant Pack(pending, windowStart.value, windowEnd.value, availableMinutes)
             == blocks + Pack(pending[i..], currentTime, windowEnd.value, minutesLeft)
    {
      var task := pending[i];
      var duration := Duration(task);
      assert pending[i..][0] == task && pending[i..][1..] == pending[i + 1..];
      if minutesLeft <= 0 {
        assert Pack(pending[i..], currentTime, windowEnd.value, minutesLeft) == [];
        break;
      }
      var use := Min(duration, minutesLeft);
      var start := currentTime;
      var end := AddMinutes(start, use);
      if end > windowEnd.value {
        assert Pack(pending[i..], currentTime, windowEnd.value, minutesLeft) == [];
        break;
      }
      assert Pack(pending[i..], currentTime, windowEnd.value, minutesLeft)
          == [Block(task.id, start, end, AiSource)] + Pack(pending[i + 1..], end, windowEnd.value, minutesLeft - use);
      blocks := blocks + [Block(task.id, start, end, AiSource)];
      currentTime := end;
      minutesLeft := minutesLeft - use;
      i := i + 1;
    }
    return Blocks(blocks);
  }

  // ---------------------------------------------------------------------
  // Properties of the endpoint

  /** Every block belongs to an eligible task of the request, and the blocks
      follow the queue from its head without skipping: block `i` is the `i`-th
      task in priority order. */
  lemma ScheduleFollowsQueue(req: Request)
    requires Schedule(req).Blocks?
    ensures var blocks := Schedule(req).blocks;
      var queue := Queue(req.tasks.GetOr([]));
      && |blocks| <= |queue|
      && (forall i :: 0 <= i < |blocks| ==> blocks[i].taskId == queue[i].id)
      && (forall i, j :: 0 <= i < j < |blocks| ==> TaskLe(queue[i], queue[j]))
      && (forall b :: b in blocks ==>
            exists t :: t in req.tasks.GetOr([]) && Eligible(t) && t.id == b.taskId)
  {
    var tasks := req.tasks.GetOr([]);
    var prefs := req.prefs.GetOr(NoPrefs);
    var windowStart := MakeDate(req.today, OrElse(prefs.startTime, DefaultStart));
    var windowEnd := MakeDate(req.today, OrElse(prefs.endTime, DefaultEnd));
    var queue := Queue(tasks);
    var blocks := Schedule(req).blocks;
    QueueOrdered(tasks);
    if windowStart.Some? && windowEnd.Some? {
      PackFollowsQueue(queue, windowStart.value, windowEnd.value,
                       AvailableMinutes(windowStart.value, windowEnd.value, prefs.targetHoursPerDay));
    }
    forall b | b in blocks
      ensures exists t :: t in tasks && Eligible(t) && t.id == b.taskId
    {
      var i :| 0 <= i < |blocks| && blocks[i] == b;
      assert queue[i] in queue;
    }
  }

  /** With a valid window the blocks run back to back from the window's start,
      each stays inside the window, and together they use no more than the
      available minutes; when tasks are left over, the available minutes are
      used up. */
  lemma ScheduleInsideWindow(req: Request, windowStart: int, windowEnd: int)
    requires MakeDate(req.today, OrElse(req.prefs.GetOr(NoPrefs).startTime, DefaultStart)) == Some(windowStart)
    requires MakeDate(req.today, OrElse(req.prefs.GetOr(NoPrefs).endTime, DefaultEnd)) == Some(windowEnd)
    ensures Schedule(req).Blocks?
    ensures var blocks := Schedule(req).blocks;
      var available := AvailableMinutes(windowStart, windowEnd, req.prefs.GetOr(NoPrefs).targetHoursPerDay);
      && (blocks != [] ==> blocks[0].scheduledStart == windowStart)
      && (forall i :: 0 < i < |blocks| ==> blocks[i].scheduledStart == blocks[i - 1].scheduledEnd)
      && (forall i :: 0 <= i < |blocks| ==>
            windowStart <= blocks[i].scheduledStart < blocks[i].scheduledEnd <= windowEnd)
      && TotalMinutes(blocks) <= Max(0, available)
      && (|blocks| < |Queue(req.tasks.GetOr([]))| ==> TotalMinutes(blocks) >= available)
  {
    var prefs := req.prefs.GetOr(NoPrefs);
    var queue := Queue(req.tasks.GetOr([]));
    var available := AvailableMinutes(windowStart, windowEnd, prefs.targetHoursPerDay);
    assert Schedule(req) == Blocks(Pack(queue, windowStart, windowEnd, available));
    PackInsideWindow(queue, windowStart, windowEnd, available);
  }

  /** The packing facts `ScheduleInsideWindow` gathers, for any queue and
      window whose capacity fits in it */
  lemma PackInsideWindow(queue: seq<Task>, windowStart: int, windowEnd: int, available: int)
    requires available <= Max(0, windowEnd - windowStart)
    ensures var blocks := Pack(queue, windowStart, windowEnd, available);
      && (blocks != [] ==> blocks[0].scheduledStart == windowStart)
      && (forall i :: 0 < i < |blocks| ==> blocks[i].scheduledStart == blocks[i - 1].scheduledEnd)
      && (forall i :: 0 <= i < |blocks| ==>
            windowStart <= blocks[i].scheduledStart < blocks[i].scheduledEnd <= windowEnd)
      && TotalMinutes(blocks) <= Max(0, available)
      && (|blocks| < |queue| ==> TotalMinutes(blocks) >= available)
  {
    var blocks := Pack(queue, windowStart, windowEnd, available);
    PackGapless(queue, windowStart, windowEnd, available);
    PackBlockLengths(queue, windowStart, windowEnd, available);
    PackWithinWindow(queue, windowStart, windowEnd, available);
    PackTotal(queue, windowStart, windowEnd, available);
    PackStopsOnlyWhenFull(queue, windowStart, windowEnd, available);
    forall i | 0 <= i < |blocks|
      ensures windowStart <= blocks[i].scheduledStart < blocks[i].scheduledEnd <= windowEnd
    {
      assert blocks[i] in blocks;
    }
  }

  /** An empty or inverted window, or a missing, zero or negative daily target,
      yields no blocks at all. */
  lemma ScheduleEmptyWhenNoCapacity(req: Request, windowStart: int, windowEnd: int)
    requires MakeDate(req.today, OrElse(req.prefs.GetOr(NoPrefs).startTime, DefaultStart)) == Some(windowStart)
    requires MakeDate(req.today, OrElse(req.prefs.GetOr(NoPrefs).endTime, DefaultEnd)) == Some(windowEnd)
    requires windowEnd <= windowStart || req.prefs.GetOr(NoPrefs).targetHoursPerDay.GetOr(0) <= 0
    ensures Schedule(req) == Blocks([])
  {
  }

  /** With a valid window the answer is decided by the capacity alone: the
      `end > windowEnd` break never changes it. */
  lemma ScheduleByCapacityAlone(req: Request, windowStart: int, windowEnd: int)
    requires MakeDate(req.today, OrElse(req.prefs.GetOr(NoPrefs).startTime, DefaultStart)) == Some(windowStart)
    requires MakeDate(req.today, OrElse(req.prefs.GetOr(NoPrefs).endTime, DefaultEnd)) == Some(windowEnd)
    ensures Schedule(req) == Blocks(PackByCapacity(Queue(req.tasks.GetOr([])), windowStart,
      AvailableMinutes(windowStart, windowEnd, req.prefs.GetOr(NoPrefs).targetHoursPerDay)))
  {
    var queue := Queue(req.tasks.GetOr([]));
    var available := AvailableMinutes(windowStart, windowEnd, req.prefs.GetOr(NoPrefs).targetHoursPerDay);
    assert Schedule(req) == Blocks(Pack(queue, windowStart, windowEnd, available));
    WindowTestNeverFires(queue, windowStart, windowEnd, available);
  }

  // ---------------------------------------------------------------------
  // Worked examples on the date whose midnight is instant 0

  lemma NineAndTen()
    ensures ClockMinutes("09:00") == Some(540) && ClockMinutes("10:00") == Some(600)
  {
    assert "09:00"[..2] == "09" && "09:00"[3..] == "00";
    assert "10:00"[..2] == "10" && "10:00"[3..] == "00";
    assert DigitsValue("09") == 9 by { assert "09"[..1] == "0"; }
    assert DigitsValue("10") == 10 by { assert "10"[..1] == "1"; }
    assert DigitsValue("00") == 0 by { assert "00"[..1] == "0"; }
  }

  /** The 09:00 to 10:00 window with a two-hour target offers 60 minutes. */
  lemma NineToTenWindow(tasks: seq<Task>)
    ensures Schedule(Request(Some(tasks), Some(Prefs(Some("09:00"), Some("10:00"), Some(2))), Some(0)))
         == Blocks(Pack(Queue(tasks), 540, 600, 60))
  {
    NineAndTen();
    assert MakeDate(Some(0), OrElse(Some("09:00"), DefaultStart)) == Some(540);
    assert MakeDate(Some(0), OrElse(Some("10:00"), DefaultEnd)) == Some(600);
    assert AvailableMinutes(540, 600, Some(2)) == 60;
  }

  /** A 90-minute task in a one-hour window with a two-hour target is cut to
      the hour. */
  lemma TruncatedToWindowExample()
    ensures Schedule(Request(Some([Task("essay", None, Some(90), None, None, None)]),
                             Some(Prefs(Some("09:00"), Some("10:00"), Some(2))), Some(0)))
         == Blocks([Block("essay", 540, 600, "ai")])
  {
    var essay := Task("essay", None, Some(90), None, None, None);
    NineToTenWindow([essay]);
    assert [essay][1..] == [];
    assert Pending([essay]) == [essay];
    assert Queue([essay]) == [essay];
    assert Duration(essay) == 90;
    assert Pack([essay], 540, 600, 60) == [Block("essay", 540, 600, "ai")] + Pack([], 600, 600, 0);
  }

  lemma HighBeforeMediumQueue(a: Task, b: Task)
    requires a == Task("a", None, Some(50), Some("High"), None, None)
    requires b == Task("b", None, Some(20), Some("Medium"), None, None)
    ensures Queue([b, a]) == [a, b]
  {
    assert [b, a][1..] == [a] && [a][1..] == [];
    assert Pending([a]) == [a];
    assert Pending([b, a]) == [b, a];
    assert Rank(a) == 0 && Rank(b) == 1 && !TaskLe(b, a);
    assert Sorting.Sort([a], TaskLe) == [a];
    assert Sorting.Insert(b, [a], TaskLe) == [a] + Sorting.Insert(b, [], TaskLe);
  }

  lemma HighThenMediumPack(a: Task, b: Task)
    requires a == Task("a", None, Some(50), Some("High"), None, None)
    requires b == Task("b", None, Some(20), Some("Medium"), None, None)
    ensures Pack([a, b], 540, 600, 60) == [Block("a", 540, 590, "ai"), Block("b", 590, 600, "ai")]
  {
    assert Duration(a) == 50 && Duration(b) == 20;
    assert [a, b][1..] == [b] && [b][1..] == [];
    assert Pack([b], 590, 600, 10) == [Block("b", 590, 600, "ai")] + Pack([], 600, 600, 0);
    assert Pack([a, b], 540, 600, 60) == [Block("a", 540, 590, "ai")] + Pack([b], 590, 600, 10);
    assert [Block("a", 540, 590, "ai")] + [Block("b", 590, 600, "ai")]
        == [Block("a", 540, 590, "ai"), Block("b", 590, 600, "ai")];
  }

  /** In a one-hour window, a 50-minute High task followed by a 20-minute
      Medium task gives two blocks: the second is cut to the 10 minutes that
      remain rather than dropped. */
  lemma SecondTaskCutExample()
    ensures Schedule(Request(Some([Task("b", None, Some(20), Some("Medium"), None, None),
                                   Task("a", None, Some(50), Some("High"), None, None)]),
                             Some(Prefs(Some("09:00"), Some("10:00"), Some(2))), Some(0)))
         == Blocks([Block("a", 540, 590, "ai"), Block("b", 590, 600, "ai")])
  {
    var b := Task("b", None, Some(20), Some("Medium"), None, None);
    var a := Task("a", None, Some(50), Some("High"), None, None);
    NineToTenWindow([b, a]);
    HighBeforeMediumQueue(a, b);
    HighThenMediumPack(a, b);
  }

  /** Two Medium tasks with the same due time are taken in name order. */
  lemma NameTieBreakExample()
    ensures Queue([Task("2", Some("Beta"), None, Some("Medium"), None, Some(1000)),
                   Task("1", Some("Alpha"), None, Some("Medium"), None, Some(1000))])
         == [Task("1", Some("Alpha"), None, Some("Medium"), None, Some(1000)),
             Task("2", Some("Beta"), None, Some("Medium"), None, Some(1000))]
  {
    var beta := Task("2", Some("Beta"), None, Some("Medium"), None, Some(1000));
    var alpha := Task("1", Some("Alpha"), None, Some("Medium"), None, Some(1000));
    assert Pending([beta, alpha]) == [beta, alpha];
    assert LexCompare("Alpha", "Beta") < 0;
    assert !TaskLe(beta, alpha);
  }
}
