/**
 * The task store of src/lib/tasks.ts over in-memory tables: work sessions
 * (timer start and stop, the active-session lookup, the tracked total and its
 * `HH:MM:SS` text), task completion, deletion, reordering and comments.
 *
 * Every remote call may fail; each call's failure is a boolean parameter
 * (`rejected`). The database's default `start_time` for a new session is the
 * parameter `dbNow`, the client's clock the parameter `now`, and the signed-in
 * user an `Option` (`None` when nobody is signed in).
 */
module Tasks {
  import opened Wrappers
  import opened Text
  import opened Seqs
  import TimeUtils

  /** A `work_sessions` row (src/types/index.ts): an open session has no end time. */
  datatype WorkSession = WorkSession(id: nat, taskId: string, userId: string, startTime: int, endTime: Option<int>)

  /** The `tasks` columns these operations read or write. */
  datatype TaskRow = TaskRow(id: string, title: string, completedAt: Option<int>, order: Option<int>)

  datatype CommentRow = CommentRow(id: nat, taskId: string, userId: string, content: string)

  datatype SubtaskRow = SubtaskRow(id: string, taskId: string)

  /** The tables `deleteTask` deletes from. */
  datatype Table = WorkSessionsTable | CommentsTable | SubtasksTable | TasksTable

  // ---------------------------------------------------------------------------
  // Sessions of one task

  predicate IsOpen(s: WorkSession, taskId: string) {
    s.taskId == taskId && s.endTime.None?
  }

  predicate IsClosed(s: WorkSession, taskId: string) {
    s.taskId == taskId && s.endTime.Some?
  }

  function OpenOf(taskId: string): WorkSession -> bool {
    (s: WorkSession) => IsOpen(s, taskId)
  }

  function ClosedOf(taskId: string): WorkSession -> bool {
    (s: WorkSession) => IsClosed(s, taskId)
  }

  /** `.eq('task_id', taskId).is('end_time', null)`. */
  function OpenSessions(sessions: seq<WorkSession>, taskId: string): (open: seq<WorkSession>)
    ensures forall s :: s in open <==> s in sessions && IsOpen(s, taskId)
  {
    Filter(sessions, OpenOf(taskId))
  }

  predicate AllClosed(sessions: seq<WorkSession>) {
    forall i :: 0 <= i < |sessions| ==> sessions[i].endTime.Some?
  }

  /** `.eq('task_id', taskId).not('end_time', 'is', null)`. */
  function ClosedSessions(sessions: seq<WorkSession>, taskId: string): (closed: seq<WorkSession>)
    ensures AllClosed(closed)
    ensures forall s :: s in closed <==> s in sessions && IsClosed(s, taskId)
  {
    var closed := Filter(sessions, ClosedOf(taskId));
    assert forall i :: 0 <= i < |closed| ==> closed[i] in closed;
    closed
  }

  /** The session with `end_time` set on it if it is an open session of `taskId`. */
  function CloseIfOpen(s: WorkSession, taskId: string, now: int): WorkSession {
    if IsOpen(s, taskId) then s.(endTime := Some(now)) else s
  }

  /**
   * The sessions after `stopTaskTimer(taskId)` at `now`: every open session of
   * the task gets the same end time; no other session changes.
   */
  function CloseOpenSessions(sessions: seq<WorkSession>, taskId: string, now: int): (closed: seq<WorkSession>)
    ensures |closed| == |sessions|
    ensures forall i :: 0 <= i < |sessions| && IsOpen(sessions[i], taskId) ==>
      closed[i] == sessions[i].(endTime := Some(now))
    ensures forall i :: 0 <= i < |sessions| && !IsOpen(sessions[i], taskId) ==> closed[i] == sessions[i]
    ensures forall s :: s in closed ==> !IsOpen(s, taskId)
  {
    if sessions == [] then []
    else [CloseIfOpen(sessions[0], taskId, now)] + CloseOpenSessions(sessions[1..], taskId, now)
  }

  /** With no open session left, stopping again changes nothing: stopping twice is stopping once. */
  lemma StopTwiceIsStopOnce(sessions: seq<WorkSession>, taskId: string, now1: int, now2: int)
    ensures CloseOpenSessions(CloseOpenSessions(sessions, taskId, now1), taskId, now2)
         == CloseOpenSessions(sessions, taskId, now1)
  {
  }

  /** A task with no open session is left as it is by a stop. */
  lemma StopWithNoneOpen(sessions: seq<WorkSession>, taskId: string, now: int)
    requires OpenSessions(sessions, taskId) == []
    ensures CloseOpenSessions(sessions, taskId, now) == sessions
  {
    forall i | 0 <= i < |sessions|
      ensures !IsOpen(sessions[i], taskId)
    {
      assert sessions[i] in sessions;
    }
  }

  /** A new open session of a task joins that task's open sessions, after the others. */
  lemma StartAddsOpenSession(sessions: seq<WorkSession>, s: WorkSession)
    requires s.endTime.None?
    ensures OpenSessions(sessions + [s], s.taskId) == OpenSessions(sessions, s.taskId) + [s]
    ensures |OpenSessions(sessions + [s], s.taskId)| == |OpenSessions(sessions, s.taskId)| + 1
  {
    FilterAppend(sessions, s, OpenOf(s.taskId));
  }

  // ---------------------------------------------------------------------------
  // Tracked time

  function Duration(s: WorkSession): int
    requires s.endTime.Some?
  {
    s.endTime.value - s.startTime
  }

  /** The `reduce` of `calculateTotalTime`: the sum of `end - start`, from 0. */
  function SumDurations(sessions: seq<WorkSession>): int
    requires AllClosed(sessions)
  {
    if sessions == [] then 0 else Duration(sessions[0]) + SumDurations(sessions[1..])
  }

  /** The time, in ms, a still-open session will have run by `now`. */
  function ElapsedBy(sessions: seq<WorkSession>, now: int): int {
    if sessions == [] then 0 else (now - sessions[0].startTime) + ElapsedBy(sessions[1..], now)
  }

  /** The milliseconds tracked on a task: its closed sessions only. */
  function TrackedMs(sessions: seq<WorkSession>, taskId: string): int {
    SumDurations(ClosedSessions(sessions, taskId))
  }

  /** The `H:MM:SS` fields of `calculateTotalTime`, with JavaScript's `%` and `Math.floor`. */
  function TotalUnits(totalMs: int): TimeUtils.TimeUnits {
    TimeUtils.TimeUnits(
      totalMs / TimeUtils.MsPerHour,
      TimeUtils.JsRem(totalMs, TimeUtils.MsPerHour) / TimeUtils.MsPerMinute,
      TimeUtils.JsRem(totalMs, TimeUtils.MsPerMinute) / TimeUtils.MsPerSecond)
  }

  function ClockText(u: TimeUtils.TimeUnits): string {
    TimeUtils.FormatTimeUnit(u.hours) + ":" + TimeUtils.FormatTimeUnit(u.minutes) + ":" + TimeUtils.FormatTimeUnit(u.seconds)
  }

  /** The text `calculateTotalTime` returns for a total of `totalMs`. */
  function FormatTotal(totalMs: int): string {
    ClockText(TotalUnits(totalMs))
  }

  /** The text `calculateTotalTime(taskId)` returns. */
  function TotalTimeText(sessions: seq<WorkSession>, taskId: string): string {
    FormatTotal(TrackedMs(sessions, taskId))
  }

  /** Reads `{hours}:{MM}:{SS}` back; `None` for any other text. */
  function ParseClock(s: string): Option<TimeUtils.TimeUnits> {
    if |s| < 8 || s[|s| - 6] != ':' || s[|s| - 3] != ':' then None
    else
      var hours, minutes, seconds := s[..|s| - 6], s[|s| - 5..|s| - 3], s[|s| - 2..];
      if !AllDigits(hours) || !AllDigits(minutes) || !AllDigits(seconds) then None
      else Some(TimeUtils.TimeUnits(DigitsValue(hours), DigitsValue(minutes), DigitsValue(seconds)))
  }

  lemma ClockLayout(hh: string, mm: string, ss: string)
    requires |hh| >= 2 && |mm| == 2 && |ss| == 2
    ensures var c := hh + ":" + mm + ":" + ss;
      |c| >= 8 && c[..|c| - 6] == hh && c[|c| - 6] == ':' && c[|c| - 5..|c| - 3] == mm &&
      c[|c| - 3] == ':' && c[|c| - 2..] == ss
  {
  }

  lemma ParseClockOfFields(hh: string, mm: string, ss: string, h: nat, m: nat, s: nat)
    requires |hh| >= 2 && |mm| == 2 && |ss| == 2
    requires AllDigits(hh) && AllDigits(mm) && AllDigits(ss)
    requires DigitsValue(hh) == h && DigitsValue(mm) == m && DigitsValue(ss) == s
    ensures ParseClock(hh + ":" + mm + ":" + ss) == Some(TimeUtils.TimeUnits(h, m, s))
  {
    ClockLayout(hh, mm, ss);
  }

  /** A clock text of non-negative fields under 60 reads back as those fields, hours never cut. */
  lemma ClockTextReadsBack(h: nat, m: nat, s: nat)
    requires m < 60 && s < 60
    ensures ParseClock(ClockText(TimeUtils.TimeUnits(h, m, s))) == Some(TimeUtils.TimeUnits(h, m, s))
  {
    TimeUtils.FormatTimeUnitReadsBack(h);
    TimeUtils.FormatTimeUnitReadsBack(m);
    TimeUtils.FormatTimeUnitReadsBack(s);
    ParseClockOfFields(TimeUtils.FormatTimeUnit(h), TimeUtils.FormatTimeUnit(m), TimeUtils.FormatTimeUnit(s), h, m, s);
  }

  /**
   * For a non-negative total the text is `H:MM:SS`: minutes and seconds under
   * 60, hours not wrapped, and the fields account for the total to the second.
   */
  lemma FormatTotalReadsBack(totalMs: nat)
    ensures var c := ParseClock(FormatTotal(totalMs));
      c.Some? && c.value.hours >= 0 && 0 <= c.value.minutes < 60 && 0 <= c.value.seconds < 60 &&
      c.value.hours * 3600000 + c.value.minutes * 60000 + c.value.seconds * 1000 <= totalMs <
      c.value.hours * 3600000 + c.value.minutes * 60000 + c.value.seconds * 1000 + 1000
  {
    TimeUtils.DecomposeMs(totalMs);
    var u := TotalUnits(totalMs);
    assert u == TimeUtils.TimeUnits(totalMs / 3600000, (totalMs % 3600000) / 60000, (totalMs % 60000) / 1000);
    ClockTextReadsBack(u.hours, u.minutes, u.seconds);
    var q := totalMs / 1000;
    assert q * 1000 <= totalMs < q * 1000 + 1000;
  }

  /** The fields agree with the elapsed-time split of src/utils/timeUtils.ts for a span from 0. */
  lemma TotalUnitsIsElapsed(totalMs: int)
    ensures TotalUnits(totalMs) == TimeUtils.CalculateTimeElapsed(0, totalMs)
  {
  }

  /** No closed session: the total reads `00:00:00`. */
  lemma NothingTrackedReadsZero(sessions: seq<WorkSession>, taskId: string)
    requires forall s :: s in sessions ==> !IsClosed(s, taskId)
    ensures TotalTimeText(sessions, taskId) == "00:00:00"
  {
    FilterNone(sessions, ClosedOf(taskId));
    assert DecimalDigits(0) == "0";
  }

  /** One hour and forty-five minutes of tracked time. */
  lemma FormatTotalExample()
    ensures FormatTotal(6300000) == "01:45:00"
  {
    assert DecimalDigits(1) == "1" && DecimalDigits(0) == "0";
    assert DecimalDigits(45) == DecimalDigits(4) + [DigitChar(5)];
  }

  /** Starting a session adds nothing to the tracked total: open sessions do not count. */
  lemma OpenSessionAddsNothing(sessions: seq<WorkSession>, s: WorkSession, taskId: string)
    requires s.endTime.None?
    ensures TrackedMs(sessions + [s], taskId) == TrackedMs(sessions, taskId)
  {
    FilterAppend(sessions, s, ClosedOf(taskId));
    assert !ClosedOf(taskId)(s);
    assert ClosedSessions(sessions + [s], taskId) == ClosedSessions(sessions, taskId);
  }

  /** Stopping adds to the total exactly the time each open session of the task ran until `now`. */
  lemma {:induction false} StopAddsElapsed(sessions: seq<WorkSession>, taskId: string, now: int)
    ensures TrackedMs(CloseOpenSessions(sessions, taskId, now), taskId)
         == TrackedMs(sessions, taskId) + ElapsedBy(OpenSessions(sessions, taskId), now)
  {
    if sessions != [] {
      var c := CloseOpenSessions(sessions, taskId, now);
      var head := sessions[0];
      StopAddsElapsed(sessions[1..], taskId, now);
      assert c[1..] == CloseOpenSessions(sessions[1..], taskId, now);
      var restClosed := ClosedSessions(c[1..], taskId);
      if IsOpen(head, taskId) {
        assert ClosedSessions(c, taskId) == [c[0]] + restClosed;
        assert ([c[0]] + restClosed)[1..] == restClosed;
        assert OpenSessions(sessions, taskId) == [head] + OpenSessions(sessions[1..], taskId);
        assert ([head] + OpenSessions(sessions[1..], taskId))[1..] == OpenSessions(sessions[1..], taskId);
      } else if IsClosed(head, taskId) {
        assert ClosedSessions(c, taskId) == [c[0]] + restClosed;
        assert ([c[0]] + restClosed)[1..] == restClosed;
        assert ClosedSessions(sessions, taskId) == [head] + ClosedSessions(sessions[1..], taskId);
        assert ([head] + ClosedSessions(sessions[1..], taskId))[1..] == ClosedSessions(sessions[1..], taskId);
      }
    }
  }

  // ---------------------------------------------------------------------------
  // Task rows

  /** `update({ completed_at }).eq('id', id)`. */
  function SetCompletedAt(tasks: seq<TaskRow>, id: string, completedAt: Option<int>): (updated: seq<TaskRow>)
    ensures |updated| == |tasks|
    ensures forall i :: 0 <= i < |tasks| && tasks[i].id == id ==> updated[i] == tasks[i].(completedAt := completedAt)
    ensures forall i :: 0 <= i < |tasks| && tasks[i].id != id ==> updated[i] == tasks[i]
  {
    seq(|tasks|, i requires 0 <= i < |tasks| =>
      if tasks[i].id == id then tasks[i].(completedAt := completedAt) else tasks[i])
  }

  /** The position of `x` in `ids`. */
  function PositionOf(ids: seq<string>, x: string): (k: nat)
    requires x in ids
    ensures k < |ids| && ids[k] == x
  {
    if ids[0] == x then 0 else PositionOf(ids[1..], x) + 1
  }

  /** The upsert of `reorderTasks`: each listed task's `order` becomes its index in the list. */
  function ApplyOrder(tasks: seq<TaskRow>, ids: seq<string>): (reordered: seq<TaskRow>)
    ensures |reordered| == |tasks|
    ensures forall j :: 0 <= j < |tasks| ==>
      reordered[j].id == tasks[j].id && reordered[j].title == tasks[j].title &&
      reordered[j].completedAt == tasks[j].completedAt
    ensures forall j :: 0 <= j < |tasks| && tasks[j].id !in ids ==> reordered[j] == tasks[j]
  {
    seq(|tasks|, j requires 0 <= j < |tasks| =>
      if tasks[j].id in ids then tasks[j].(order := Some(PositionOf(ids, tasks[j].id))) else tasks[j])
  }

  /** With no id listed twice, the task listed at index `i` gets `order == i`. */
  lemma ReorderAssignsIndex(tasks: seq<TaskRow>, ids: seq<string>)
    requires Distinct(ids)
    ensures forall i, j :: 0 <= i < |ids| && 0 <= j < |tasks| && tasks[j].id == ids[i] ==>
      ApplyOrder(tasks, ids)[j].order == Some(i)
  {
    forall i, j | 0 <= i < |ids| && 0 <= j < |tasks| && tasks[j].id == ids[i]
      ensures ApplyOrder(tasks, ids)[j].order == Some(i)
    {
      var k := PositionOf(ids, ids[i]);
      assert k == i;
    }
  }

  function SessionNotOf(id: string): WorkSession -> bool {
    (s: WorkSession) => s.taskId != id
  }

  function CommentNotOf(id: string): CommentRow -> bool {
    (c: CommentRow) => c.taskId != id
  }

  function SubtaskNotOf(id: string): SubtaskRow -> bool {
    (t: SubtaskRow) => t.taskId != id
  }

  function TaskNot(id: string): TaskRow -> bool {
    (t: TaskRow) => t.id != id
  }

  function CommentOf(taskId: string): CommentRow -> bool {
    (c: CommentRow) => c.taskId == taskId
  }

  /** `fetchComments(taskId)`: the task's comments, oldest first. */
  function CommentsOf(comments: seq<CommentRow>, taskId: string): (own: seq<CommentRow>)
    ensures forall c :: c in own <==> c in comments && c.taskId == taskId
  {
    Filter(comments, CommentOf(taskId))
  }

  // ---------------------------------------------------------------------------
  // The store

  class Store {
    var sessions: seq<WorkSession>
    var tasks: seq<TaskRow>
    var comments: seq<CommentRow>
    var subtasks: seq<SubtaskRow>
    /** The id the database gives the next inserted session or comment. */
    var nextId: nat

    constructor (tasks: seq<TaskRow>)
      ensures this.tasks == tasks && sessions == [] && comments == [] && subtasks == [] && nextId == 0
    {
      this.tasks := tasks;
      sessions := [];
      comments := [];
      subtasks := [];
      nextId := 0;
    }

    /**
     * `startTaskTimer(taskId)`: inserts one open session for the signed-in user,
     * without looking for one already open.
     */
    method StartTaskTimer(taskId: string, user: Option<string>, dbNow: int, rejected: bool) returns (result: Outcome)
      modifies this
      ensures result.Done? <==> user.Some? && !rejected
      ensures result.Done? ==>
        sessions == old(sessions) + [WorkSession(old(nextId), taskId, user.value, dbNow, None)] &&
        nextId == old(nextId) + 1
      ensures result.Failed? ==> sessions == old(sessions) && nextId == old(nextId)
      ensures tasks == old(tasks) && comments == old(comments) && subtasks == old(subtasks)
    {
      if user.None? {
        return Failed("No authenticated user");
      }
      if rejected {
        return Failed("insert into work_sessions failed");
      }
      sessions := sessions + [WorkSession(nextId, taskId, user.value, dbNow, None)];
      nextId := nextId + 1;
      return Done;
    }

    /** `stopTaskTimer(taskId)`: ends every open session of the task at `now`. */
    method StopTaskTimer(taskId: string, now: int, rejected: bool) returns (result: Outcome)
      modifies this
      ensures result.Done? <==> !rejected
      ensures result.Done? ==> sessions == CloseOpenSessions(old(sessions), taskId, now)
      ensures result.Failed? ==> sessions == old(sessions)
      ensures tasks == old(tasks) && comments == old(comments) && subtasks == old(subtasks) && nextId == old(nextId)
    {
      if rejected {
        return Failed("update of work_sessions failed");
      }
      sessions := CloseOpenSessions(sessions, taskId, now);
      return Done;
    }

    /**
     * `fetchActiveWorkSession(taskId)`: no open session gives `None`, exactly one
     * gives it, and more than one is the error of `maybeSingle`.
     */
    function FetchActiveWorkSession(taskId: string, rejected: bool): (active: Result<Option<WorkSession>>)
      reads this
      ensures active.Ok? <==> !rejected && |OpenSessions(sessions, taskId)| <= 1
      ensures active == Ok(None) <==> !rejected && forall s :: s in sessions ==> !IsOpen(s, taskId)
      ensures active.Ok? && active.value.Some? ==>
        active.value.value in sessions && IsOpen(active.value.value, taskId) &&
        OpenSessions(sessions, taskId) == [active.value.value]
    {
      var open := OpenSessions(sessions, taskId);
      if rejected then Err("select from work_sessions failed")
      else if |open| == 0 then Ok(None)
      else
        assert open[0] in open;
        if |open| > 1 then Err("multiple rows returned for maybeSingle")
        else Ok(Some(open[0]))
    }

    /** `calculateTotalTime(taskId)`: the closed sessions' total as `HH:MM:SS`. */
    function CalculateTotalTime(taskId: string, rejected: bool): (total: Result<string>)
      reads this
      ensures total.Ok? <==> !rejected
      ensures total.Ok? ==> total.value == TotalTimeText(sessions, taskId)
    {
      if rejected then Err("select from work_sessions failed")
      else Ok(TotalTimeText(sessions, taskId))
    }

    /**
     * `updateTaskStatus(id, completed)`: stops the task's timer if a session is
     * active, then writes `completed_at`. Each of the three remote calls may fail.
     */
    method UpdateTaskStatus(id: string, completed: bool, now: int, fetchRejected: bool, stopRejected: bool, updateRejected: bool)
      returns (result: Outcome)
      modifies this
      ensures var open := OpenSessions(old(sessions), id);
        result.Done? <==> !fetchRejected && |open| <= 1 && (|open| == 1 ==> !stopRejected) && !updateRejected
      ensures fetchRejected || |OpenSessions(old(sessions), id)| > 1 ==> sessions == old(sessions) && tasks == old(tasks)
      ensures result.Done? ==>
        OpenSessions(sessions, id) == [] &&
        tasks == SetCompletedAt(old(tasks), id, if completed then Some(now) else None)
      ensures result.Failed? ==> tasks == old(tasks)
      ensures var open := OpenSessions(old(sessions), id);
        sessions == if !fetchRejected && |open| == 1 && !stopRejected then CloseOpenSessions(old(sessions), id, now) else old(sessions)
      ensures comments == old(comments) && subtasks == old(subtasks) && nextId == old(nextId)
    {
      var active := FetchActiveWorkSession(id, fetchRejected);
      if active.Err? {
        return Failed(active.message);
      }
      if active.value.Some? {
        var stopped := StopTaskTimer(id, now, stopRejected);
        if stopped.Failed? {
          return stopped;
        }
      }
      if updateRejected {
        return Failed("update of tasks failed");
      }
      FilterNone(sessions, OpenOf(id));
      tasks := SetCompletedAt(tasks, id, if completed then Some(now) else None);
      return Done;
    }

    /**
     * `deleteTask(id)`: deletes the task's sessions, comments and subtasks, whose
     * failures are not looked at, then the task row, whose failure is reported.
     */
    method DeleteTask(id: string, rejected: set<Table>) returns (result: Outcome)
      modifies this
      ensures result.Done? <==> TasksTable !in rejected
      ensures sessions == if WorkSessionsTable in rejected then old(sessions) else Filter(old(sessions), SessionNotOf(id))
      ensures comments == if CommentsTable in rejected then old(comments) else Filter(old(comments), CommentNotOf(id))
      ensures subtasks == if SubtasksTable in rejected then old(subtasks) else Filter(old(subtasks), SubtaskNotOf(id))
      ensures tasks == if TasksTable in rejected then old(tasks) else Filter(old(tasks), TaskNot(id))
      ensures rejected == {} ==>
        (forall s :: s in sessions ==> s.taskId != id) && (forall c :: c in comments ==> c.taskId != id) &&
        (forall t :: t in subtasks ==> t.taskId != id) && (forall t :: t in tasks ==> t.id != id)
      ensures nextId == old(nextId)
    {
      if WorkSessionsTable !in rejected {
        sessions := Filter(sessions, SessionNotOf(id));
      }
      if CommentsTable !in rejected {
        comments := Filter(comments, CommentNotOf(id));
      }
      if SubtasksTable !in rejected {
        subtasks := Filter(subtasks, SubtaskNotOf(id));
      }
      if TasksTable in rejected {
        return Failed("delete from tasks failed");
      }
      tasks := Filter(tasks, TaskNot(id));
      return Done;
    }

    /**
     * `reorderTasks(list)`: one upsert setting each listed task's `order` to its
     * index. An id listed twice makes the upsert fail, as one statement may not
     * update a row twice.
     */
    method ReorderTasks(ids: seq<string>, user: Option<string>, rejected: bool) returns (result: Outcome)
      modifies this
      ensures result.Done? <==> user.Some? && !rejected && Distinct(ids)
      ensures result.Done? ==> tasks == ApplyOrder(old(tasks), ids)
      ensures result.Failed? ==> tasks == old(tasks)
      ensures sessions == old(sessions) && comments == old(comments) && subtasks == old(subtasks) && nextId == old(nextId)
    {
      if user.None? {
        return Failed("No authenticated user");
      }
      if rejected || !Distinct(ids) {
        return Failed("upsert into tasks failed");
      }
      tasks := ApplyOrder(tasks, ids);
      return Done;
    }

    /** `addComment(taskId, content)`: inserts a comment by the signed-in user. */
    method AddComment(taskId: string, content: string, user: Option<string>, rejected: bool) returns (added: Result<CommentRow>)
      modifies this
      ensures added.Ok? <==> user.Some? && !rejected
      ensures added.Ok? ==>
        added.value == CommentRow(old(nextId), taskId, user.value, content) &&
        comments == old(comments) + [added.value] && nextId == old(nextId) + 1
      ensures added.Err? ==> comments == old(comments) && nextId == old(nextId)
      ensures sessions == old(sessions) && tasks == old(tasks) && subtasks == old(subtasks)
    {
      if user.None? {
        return Err("No authenticated user");
      }
      if rejected {
        return Err("insert into comments failed");
      }
      var comment := CommentRow(nextId, taskId, user.value, content);
      comments := comments + [comment];
      nextId := nextId + 1;
      return Ok(comment);
    }

    /** `fetchComments(taskId)`. */
    function FetchComments(taskId: string, rejected: bool): (fetched: Result<seq<CommentRow>>)
      reads this
      ensures fetched.Ok? <==> !rejected
      ensures fetched.Ok? ==> fetched.value == CommentsOf(comments, taskId)
    {
      if rejected then Err("select from comments failed")
      else Ok(CommentsOf(comments, taskId))
    }
  }

  /** A new comment comes last in its task's comment list. */
  lemma NewCommentComesLast(comments: seq<CommentRow>, c: CommentRow)
    ensures CommentsOf(comments + [c], c.taskId) == CommentsOf(comments, c.taskId) + [c]
  {
    FilterAppend(comments, c, CommentOf(c.taskId));
  }

  /**
   * Starting the timer twice leaves two open sessions; completing the task then
   * fails at the active-session lookup and `completed_at` is never written.
   */
  method DoubleStartBlocksCompletion(taskId: string, user: string, dbNow1: int, dbNow2: int, now: int)
    returns (first: Outcome, second: Outcome, completion: Outcome, completedAt: seq<Option<int>>)
    ensures first.Done? && second.Done?
    ensures completion.Failed?
    ensures completedAt == [None]
  {
    var store := new Store([TaskRow(taskId, "task", None, None)]);
    first := store.StartTaskTimer(taskId, Some(user), dbNow1, false);
    StartAddsOpenSession([], store.sessions[0]);
    assert [] + [store.sessions[0]] == store.sessions;
    var before := store.sessions;
    second := store.StartTaskTimer(taskId, Some(user), dbNow2, false);
    StartAddsOpenSession(before, store.sessions[1]);
    completion := store.UpdateTaskStatus(taskId, true, now, false, false, false);
    completedAt := [store.tasks[0].completedAt];
  }
}
