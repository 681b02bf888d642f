/**
 * The timer and comment state of the task detail view
 * (src/components/TaskDetails.tsx) as a class whose methods update the view's
 * state fields around calls into the task store. A failed store call is a
 * boolean parameter; the client's clock is `clientNow`, the database's default
 * session start `dbNow`.
 */
module TaskDetails {
  import opened Wrappers
  import opened Text
  import opened Seqs
  import opened Tasks

  class TaskDetailsView {
    const store: Store
    const taskId: string
    const archived: bool
    /** `request.completedAt` as the view was given it. */
    const completedAt: Option<int>
    /** The signed-in user of `useAuth()`. */
    const user: Option<string>

    var isTimerRunning: bool
    var timerStartTime: Option<int>
    var totalTime: string
    var newComment: string
    var comments: seq<CommentRow>
    var isLoading: bool

    constructor (store: Store, taskId: string, archived: bool, completedAt: Option<int>, user: Option<string>)
      ensures this.store == store && this.taskId == taskId && this.archived == archived
      ensures this.completedAt == completedAt && this.user == user
      ensures !isTimerRunning && timerStartTime == None && totalTime == "00:00:00"
      ensures newComment == "" && comments == [] && !isLoading
    {
      this.store := store;
      this.taskId := taskId;
      this.archived := archived;
      this.completedAt := completedAt;
      this.user := user;
      isTimerRunning := false;
      timerStartTime := None;
      totalTime := "00:00:00";
      newComment := "";
      comments := [];
      isLoading := false;
    }

    /** The start/stop button is rendered. */
    predicate ShowsTimerControl() {
      !archived && completedAt.None?
    }

    /** The "Current session" display is rendered. */
    predicate ShowsLiveSession()
      reads this
    {
      completedAt.None? && isTimerRunning
    }

    /**
     * The `Promise.all` of `loadData` and `reloadTaskData` followed by the state
     * updates: nothing is applied unless every fetch succeeds (`otherRejected`
     * stands for the settings and categories fetches); an active session sets
     * the start time and the running flag, and no active session leaves both.
     */
    method FetchAndApply(fetchRejected: bool, totalRejected: bool, commentsRejected: bool, otherRejected: bool)
      returns (applied: bool)
      modifies this`isTimerRunning, this`timerStartTime, this`totalTime, this`comments
      ensures var open := OpenSessions(store.sessions, taskId);
        applied <==> !fetchRejected && !totalRejected && !commentsRejected && !otherRejected && |open| <= 1
      ensures !applied ==>
        isTimerRunning == old(isTimerRunning) && timerStartTime == old(timerStartTime) &&
        totalTime == old(totalTime) && comments == old(comments)
      ensures applied ==>
        totalTime == TotalTimeText(store.sessions, taskId) && comments == CommentsOf(store.comments, taskId)
      ensures var open := OpenSessions(store.sessions, taskId);
        applied && |open| == 1 ==> isTimerRunning && timerStartTime == Some(open[0].startTime)
      ensures var open := OpenSessions(store.sessions, taskId);
        applied && |open| == 0 ==> isTimerRunning == old(isTimerRunning) && timerStartTime == old(timerStartTime)
    {
      var active := store.FetchActiveWorkSession(taskId, fetchRejected);
      var total := store.CalculateTotalTime(taskId, totalRejected);
      var taskComments := store.FetchComments(taskId, commentsRejected);
      if active.Err? || total.Err? || taskComments.Err? || otherRejected {
        return false;
      }
      var open := OpenSessions(store.sessions, taskId);
      if |open| == 1 {
        assert open[0] in open;
      }
      if active.value.Some? {
        timerStartTime := Some(active.value.value.startTime);
        isTimerRunning := true;
      }
      totalTime := total.value;
      comments := taskComments.value;
      return true;
    }

    /** `loadData`: does nothing without a signed-in user; a failure is only logged. */
    method LoadData(fetchRejected: bool, totalRejected: bool, commentsRejected: bool, otherRejected: bool)
      modifies this`isTimerRunning, this`timerStartTime, this`totalTime, this`comments
      ensures old(isTimerRunning) ==> isTimerRunning
      ensures user.None? ==>
        isTimerRunning == old(isTimerRunning) && timerStartTime == old(timerStartTime) &&
        totalTime == old(totalTime) && comments == old(comments)
      ensures var open := OpenSessions(store.sessions, taskId);
        user.Some? && !fetchRejected && !totalRejected && !commentsRejected && !otherRejected && |open| == 1 ==>
        isTimerRunning && timerStartTime == Some(open[0].startTime) &&
        totalTime == TotalTimeText(store.sessions, taskId) && comments == CommentsOf(store.comments, taskId)
      ensures OpenSessions(store.sessions, taskId) == [] ==>
        isTimerRunning == old(isTimerRunning) && timerStartTime == old(timerStartTime)
      ensures var open := OpenSessions(store.sessions, taskId);
        user.Some? && !fetchRejected && !totalRejected && !commentsRejected && !otherRejected && |open| <= 1 ==>
        totalTime == TotalTimeText(store.sessions, taskId) && comments == CommentsOf(store.comments, taskId)
      ensures var open := OpenSessions(store.sessions, taskId);
        fetchRejected || totalRejected || commentsRejected || otherRejected || |open| > 1 ==>
        isTimerRunning == old(isTimerRunning) && timerStartTime == old(timerStartTime) &&
        totalTime == old(totalTime) && comments == old(comments)
    {
      if user.Some? {
        var _ := FetchAndApply(fetchRejected, totalRejected, commentsRejected, otherRejected);
      }
    }

    /**
     * The mount effect: a completed task first has its timer state reset, then
     * the data is loaded.
     */
    method MountEffect(fetchRejected: bool, totalRejected: bool, commentsRejected: bool, otherRejected: bool)
      modifies this`isTimerRunning, this`timerStartTime, this`totalTime, this`comments
      ensures completedAt.Some? && OpenSessions(store.sessions, taskId) == [] ==>
        !isTimerRunning && timerStartTime == None && !ShowsLiveSession() && !ShowsTimerControl()
      ensures var failed := user.None? || fetchRejected || totalRejected || commentsRejected || otherRejected;
        completedAt.Some? && (failed || |OpenSessions(store.sessions, taskId)| != 1) ==>
        !isTimerRunning && timerStartTime == None
      ensures completedAt.None? ==>
        (old(isTimerRunning) ==> isTimerRunning) &&
        (OpenSessions(store.sessions, taskId) == [] ==> timerStartTime == old(timerStartTime))
      ensures var loaded := user.Some? && !fetchRejected && !totalRejected && !commentsRejected && !otherRejected;
        var open := OpenSessions(store.sessions, taskId);
        loaded && |open| == 1 ==> isTimerRunning && timerStartTime == Some(open[0].startTime)
      ensures var loaded := user.Some? && !fetchRejected && !totalRejected && !commentsRejected && !otherRejected;
        loaded && |OpenSessions(store.sessions, taskId)| <= 1 ==>
        totalTime == TotalTimeText(store.sessions, taskId) && comments == CommentsOf(store.comments, taskId)
      ensures var loaded := user.Some? && !fetchRejected && !totalRejected && !commentsRejected && !otherRejected;
        !loaded || |OpenSessions(store.sessions, taskId)| > 1 ==> totalTime == old(totalTime) && comments == old(comments)
      ensures var loaded := user.Some? && !fetchRejected && !totalRejected && !commentsRejected && !otherRejected;
        completedAt.None? && (!loaded || |OpenSessions(store.sessions, taskId)| > 1) ==>
        isTimerRunning == old(isTimerRunning) && timerStartTime == old(timerStartTime)
    {
      if completedAt.Some? {
        isTimerRunning := false;
        timerStartTime := None;
      }
      LoadData(fetchRejected, totalRejected, commentsRejected, otherRejected);
    }

    /** `reloadTaskData`: like `loadData` without the user check, with the loading flag cleared at the end. */
    method ReloadTaskData(fetchRejected: bool, totalRejected: bool, commentsRejected: bool, categoriesRejected: bool)
      modifies this`isTimerRunning, this`timerStartTime, this`totalTime, this`comments, this`isLoading
      ensures !isLoading
      ensures old(isTimerRunning) ==> isTimerRunning
      ensures var open := OpenSessions(store.sessions, taskId);
        !fetchRejected && !totalRejected && !commentsRejected && !categoriesRejected && |open| == 1 ==>
        isTimerRunning && timerStartTime == Some(open[0].startTime) &&
        totalTime == TotalTimeText(store.sessions, taskId) && comments == CommentsOf(store.comments, taskId)
      ensures var open := OpenSessions(store.sessions, taskId);
        !fetchRejected && !totalRejected && !commentsRejected && !categoriesRejected && |open| <= 1 ==>
        totalTime == TotalTimeText(store.sessions, taskId) && comments == CommentsOf(store.comments, taskId)
      ensures OpenSessions(store.sessions, taskId) == [] ==>
        isTimerRunning == old(isTimerRunning) && timerStartTime == old(timerStartTime)
      ensures var open := OpenSessions(store.sessions, taskId);
        fetchRejected || totalRejected || commentsRejected || categoriesRejected || |open| > 1 ==>
        isTimerRunning == old(isTimerRunning) && timerStartTime == old(timerStartTime) &&
        totalTime == old(totalTime) && comments == old(comments)
    {
      isLoading := true;
      var _ := FetchAndApply(fetchRejected, totalRejected, commentsRejected, categoriesRejected);
      isLoading := false;
    }

    /**
     * `toggleTimer`. Running: stop the task's sessions, clear the start time,
     * refresh the total, then clear the flag. Not running: start a session, set
     * the start time to the client's clock, then set the flag. A thrown error
     * skips the rest and is only logged.
     */
    method ToggleTimer(clientNow: int, dbNow: int, callRejected: bool, totalRejected: bool)
      modifies this`isTimerRunning, this`timerStartTime, this`totalTime, store
      ensures store.tasks == old(store.tasks) && store.comments == old(store.comments) && store.subtasks == old(store.subtasks)
      ensures store.nextId == if !old(isTimerRunning) && user.Some? && !callRejected then old(store.nextId) + 1 else old(store.nextId)
      ensures old(isTimerRunning) && !callRejected ==>
        store.sessions == CloseOpenSessions(old(store.sessions), taskId, clientNow) && timerStartTime == None
      ensures old(isTimerRunning) && !callRejected && !totalRejected ==>
        !isTimerRunning && totalTime == TotalTimeText(store.sessions, taskId)
      ensures old(isTimerRunning) && !callRejected && totalRejected ==>
        isTimerRunning && totalTime == old(totalTime)
      ensures !old(isTimerRunning) && user.Some? && !callRejected ==>
        isTimerRunning && timerStartTime == Some(clientNow) && totalTime == old(totalTime) &&
        store.sessions == old(store.sessions) + [WorkSession(old(store.nextId), taskId, user.value, dbNow, None)]
      ensures callRejected || (!old(isTimerRunning) && user.None?) ==>
        isTimerRunning == old(isTimerRunning) && timerStartTime == old(timerStartTime) &&
        totalTime == old(totalTime) && store.sessions == old(store.sessions)
    {
      if isTimerRunning {
        var stopped := store.StopTaskTimer(taskId, clientNow, callRejected);
        if stopped.Failed? {
          return;
        }
        timerStartTime := None;
        var total := store.CalculateTotalTime(taskId, totalRejected);
        if total.Err? {
          return;
        }
        totalTime := total.value;
      } else {
        var started := store.StartTaskTimer(taskId, user, dbNow, callRejected);
        if started.Failed? {
          return;
        }
        timerStartTime := Some(clientNow);
      }
      isTimerRunning := !isTimerRunning;
    }

    /**
     * `handleAddComment`: a blank comment does nothing; otherwise the comment is
     * added, the list re-fetched and the input cleared.
     */
    method HandleAddComment(addRejected: bool, fetchRejected: bool)
      modifies this`comments, this`newComment, store
      ensures store.sessions == old(store.sessions) && store.tasks == old(store.tasks) && store.subtasks == old(store.subtasks)
      ensures IsBlank(old(newComment)) ==>
        comments == old(comments) && newComment == old(newComment) &&
        store.comments == old(store.comments) && store.nextId == old(store.nextId)
      ensures !IsBlank(old(newComment)) && user.Some? && !addRejected && !fetchRejected ==>
        newComment == "" && comments == CommentsOf(store.comments, taskId) &&
        comments == CommentsOf(old(store.comments), taskId) + [CommentRow(old(store.nextId), taskId, user.value, old(newComment))]
      ensures user.None? || addRejected || fetchRejected ==> comments == old(comments) && newComment == old(newComment)
      ensures user.None? || addRejected ==> store.comments == old(store.comments) && store.nextId == old(store.nextId)
      ensures !IsBlank(old(newComment)) && user.Some? && !addRejected ==>
        store.comments == old(store.comments) + [CommentRow(old(store.nextId), taskId, user.value, old(newComment))] &&
        store.nextId == old(store.nextId) + 1
    {
      if IsBlank(newComment) {
        return;
      }
      var added := store.AddComment(taskId, newComment, user, addRejected);
      if added.Err? {
        return;
      }
      NewCommentComesLast(old(store.comments), added.value);
      var updated := store.FetchComments(taskId, fetchRejected);
      if updated.Err? {
        return;
      }
      comments := updated.value;
      newComment := "";
    }
  }

  /**
   * A running view whose stop succeeds but whose total refresh fails keeps the
   * flag set with no start time; pressing again stops nothing more and then
   * clears the flag.
   */
  method StopRetryAfterFailedRefresh(store: Store, taskId: string, clientNow1: int, clientNow2: int)
    returns (view: TaskDetailsView)
    modifies store
    ensures view.store == store
    ensures !view.isTimerRunning && view.timerStartTime == None
    ensures OpenSessions(store.sessions, taskId) == []
    ensures view.totalTime == TotalTimeText(store.sessions, taskId)
  {
    view := new TaskDetailsView(store, taskId, false, None, None);
    view.isTimerRunning := true;
    view.ToggleTimer(clientNow1, 0, false, true);
    assert view.isTimerRunning && view.timerStartTime == None;
    var afterFirst := store.sessions;
    view.ToggleTimer(clientNow2, 0, false, false);
    StopTwiceIsStopOnce(afterFirst, taskId, clientNow1, clientNow2);
    FilterNone(store.sessions, OpenOf(taskId));
  }
}
